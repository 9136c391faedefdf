/**
 The topology cache shared by threads: an unlocked first check, a second check
 under the lock, and a store that writes its two globals one after the other.
 Every read or write of a global is a step of its own outside the lock.
 */
module TopologyCache {
  import opened Wrappers

  const TTL := 30

  type Tid = nat

  /** Where a thread is in `get_topology_local`; `now` is the clock as it read it, `fetch` the result it obtained. */
  datatype Pc =
    | Idle
    | Entered(now: nat)
    | SawCache(now: nat)
    | SawTime(now: nat)
    | FoundFresh(now: nat)
    | WaitingForLock
    | Locked
    | Rechecking(now: nat)
    | Fetching(now: nat)
    | CacheWritten(now: nat, fetch: nat)
    | TimeRead(now: nat, stamp: nat, fetch: nat)
    | Leaving(fetch: nat)

  /** An answer: which fetch it came from, the clock its caller read first, and whether it was a cached one. */
  datatype Answer = Answer(fetch: nat, now: nat, cached: bool)

  /**
   The globals and the threads. Successful fetches are numbered in order; `stores`
   holds the time recorded with each completed store, so fetch `i` has time `stores[i]`.
   */
  datatype State = State(clock: nat, cache: Option<nat>, time: Option<nat>, lock: Option<Tid>,
                         threads: map<Tid, Pc>, stores: seq<nat>, answers: seq<Answer>)

  function Init(clock: nat): State {
    State(clock, None, None, None, map[], [], [])
  }

  function At(s: State, t: Tid): Pc {
    if t in s.threads then s.threads[t] else Idle
  }

  function Move(s: State, t: Tid, pc: Pc): State {
    s.(threads := s.threads[t := pc])
  }

  /** Python's truth of a recorded time. */
  predicate Truthy(time: Option<nat>) {
    time.Some? && time.value != 0
  }

  datatype Action = Tick(delta: nat) | Call(t: Tid) | Go(t: Tid) | FetchEnds(t: Tid, ok: bool)

  function Advance(s: State, t: Tid, pc: Pc): State {
    match pc
    case Entered(now) => Move(s, t, if s.cache.Some? then SawCache(now) else WaitingForLock)
    case SawCache(now) => Move(s, t, if Truthy(s.time) then SawTime(now) else WaitingForLock)
    case SawTime(now) => Move(s, t, if s.time.Some? && now - s.time.value < TTL then FoundFresh(now) else WaitingForLock)
    case FoundFresh(now) =>
      Move(s.(answers := s.answers + if s.cache.Some? then [Answer(s.cache.value, now, true)] else []), t, Idle)
    case WaitingForLock => if s.lock.None? then Move(s.(lock := Some(t)), t, Locked) else s
    case Locked => Move(s, t, Rechecking(s.clock))
    case Rechecking(now) =>
      if s.cache.Some? && Truthy(s.time) && now - s.time.value < TTL then
        Move(s.(lock := None, answers := s.answers + [Answer(s.cache.value, now, true)]), t, Idle)
      else Move(s, t, Fetching(now))
    case CacheWritten(now, fetch) => Move(s, t, TimeRead(now, s.clock, fetch))
    case TimeRead(now, stamp, fetch) => Move(s.(time := Some(stamp), stores := s.stores + [stamp]), t, Leaving(fetch))
    case Leaving(fetch) => Move(s.(lock := None, answers := s.answers + [Answer(fetch, s.clock, false)]), t, Idle)
    case _ => s
  }

  /** One step of one thread, or of the clock; a disabled action changes nothing. */
  function Step(s: State, a: Action): State {
    match a
    case Tick(delta) => s.(clock := s.clock + delta)
    case Call(t) => if At(s, t).Idle? then Move(s, t, Entered(s.clock)) else s
    case Go(t) => Advance(s, t, At(s, t))
    case FetchEnds(t, ok) =>
      match At(s, t)
      case Fetching(now) =>
        if ok then Move(s.(cache := Some(|s.stores|)), t, CacheWritten(now, |s.stores|))
        else Move(s.(lock := None), t, Idle)
      case _ => s
  }

  function Run(s: State, actions: seq<Action>): State {
    if actions == [] then s else Step(Run(s, actions[..|actions| - 1]), actions[|actions| - 1])
  }

  // ------------------------------------------------------------- invariant

  predicate InLock(pc: Pc) {
    pc.Locked? || pc.Rechecking? || pc.Fetching? || pc.CacheWritten? || pc.TimeRead? || pc.Leaving?
  }

  /** The cache already holds a fetch whose time is not recorded yet. */
  predicate Unrecorded(s: State) {
    s.lock.Some? && (At(s, s.lock.value).CacheWritten? || At(s, s.lock.value).TimeRead?)
  }

  predicate Fresh(stores: seq<nat>, now: nat) {
    stores != [] && now - stores[|stores| - 1] < TTL
  }

  predicate ThreadOk(s: State, pc: Pc) {
    match pc
    case Entered(now) => now <= s.clock
    case SawCache(now) => now <= s.clock && s.cache.Some?
    case SawTime(now) => now <= s.clock && s.cache.Some? && s.stores != []
    case FoundFresh(now) => now <= s.clock && Fresh(s.stores, now)
    case Rechecking(now) => now <= s.clock
    case Fetching(now) => now <= s.clock && !Fresh(s.stores, now)
    case CacheWritten(now, fetch) => now <= s.clock && !Fresh(s.stores, now) && fetch == |s.stores|
    case TimeRead(now, stamp, fetch) => now <= stamp <= s.clock && stamp > 0 && !Fresh(s.stores, now) && fetch == |s.stores|
    case Leaving(fetch) => fetch + 1 == |s.stores|
    case _ => true
  }

  predicate AnswerOk(stores: seq<nat>, unrecorded: bool, a: Answer) {
    && a.fetch <= |stores| && (a.fetch == |stores| ==> unrecorded)
    && (a.cached && a.fetch < |stores| ==> a.now - stores[a.fetch] < TTL)
    && (a.cached && a.fetch == |stores| ==> Fresh(stores, a.now))
    && (!a.cached ==> a.fetch < |stores|)
  }

  /** Times recorded by successive stores are at least the TTL apart. */
  ghost predicate Apart(stores: seq<nat>) {
    forall i, j | 0 <= i < j < |stores| :: stores[j] - stores[i] >= TTL
  }

  ghost predicate Inv(s: State) {
    && s.clock > 0
    && (forall t | t in s.threads :: InLock(s.threads[t]) <==> s.lock == Some(t))
    && (s.lock.Some? ==> s.lock.value in s.threads)
    && Apart(s.stores)
    && (forall i | 0 <= i < |s.stores| :: 0 < s.stores[i] <= s.clock)
    && s.time == (if s.stores == [] then None else Some(s.stores[|s.stores| - 1]))
    && s.cache == (if Unrecorded(s) then Some(|s.stores|) else if s.stores == [] then None else Some(|s.stores| - 1))
    && (forall t | t in s.threads :: ThreadOk(s, s.threads[t]))
    && (forall a | a in s.answers :: AnswerOk(s.stores, Unrecorded(s), a))
  }

  /** Steps that touch neither the globals, the lock nor the records. */
  lemma MoveKeeps(s: State, t: Tid, pc: Pc)
    requires Inv(s) && InLock(pc) == (s.lock == Some(t)) && ThreadOk(s, pc)
    requires s.lock == Some(t) ==> (pc.CacheWritten? || pc.TimeRead?) == Unrecorded(s)
    ensures Inv(Move(s, t, pc))
  {
  }

  lemma AnswerKeeps(s: State, a: Answer)
    requires Inv(s) && AnswerOk(s.stores, Unrecorded(s), a)
    ensures Inv(s.(answers := s.answers + [a]))
  {
  }

  lemma UnlockKeeps(s: State, t: Tid)
    requires Inv(s) && s.lock == Some(t) && !Unrecorded(s)
    ensures Inv(Move(s.(lock := None), t, Idle))
  {
  }

  lemma LockKeeps(s: State, t: Tid)
    requires Inv(s) && s.lock.None? && At(s, t).WaitingForLock?
    ensures Inv(Move(s.(lock := Some(t)), t, Locked))
  {
  }

  lemma CacheWriteKeeps(s: State, t: Tid, now: nat)
    requires Inv(s) && At(s, t) == Fetching(now)
    ensures Inv(Move(s.(cache := Some(|s.stores|)), t, CacheWritten(now, |s.stores|)))
  {
  }

  lemma ApartAppend(stores: seq<nat>, now: nat, stamp: nat)
    requires Apart(stores) && !Fresh(stores, now) && now <= stamp
    ensures Apart(stores + [stamp])
  {
  }

  /** Recording the time turns a fresh reader's bound into one against the new time. */
  lemma RecordKeepsAnswer(stores: seq<nat>, a: Answer, now: nat, stamp: nat)
    requires AnswerOk(stores, true, a) && !Fresh(stores, now) && now <= stamp
    ensures AnswerOk(stores + [stamp], false, a)
  {
  }

  lemma RecordKeepsThread(s: State, pc: Pc, now: nat, stamp: nat)
    requires ThreadOk(s, pc) && !InLock(pc) && !Fresh(s.stores, now) && now <= stamp
    ensures ThreadOk(s.(time := Some(stamp), stores := s.stores + [stamp]), pc)
  {
  }

  lemma RecordKeeps(s: State, t: Tid, now: nat, stamp: nat, fetch: nat)
    requires Inv(s) && At(s, t) == TimeRead(now, stamp, fetch)
    ensures Inv(Move(s.(time := Some(stamp), stores := s.stores + [stamp]), t, Leaving(fetch)))
  {
    var s' := Move(s.(time := Some(stamp), stores := s.stores + [stamp]), t, Leaving(fetch));
    ApartAppend(s.stores, now, stamp);
    forall a | a in s'.answers
      ensures AnswerOk(s'.stores, Unrecorded(s'), a)
    {
      RecordKeepsAnswer(s.stores, a, now, stamp);
    }
    forall u | u in s'.threads
      ensures ThreadOk(s', s'.threads[u])
    {
      if u != t {
        RecordKeepsThread(s, s.threads[u], now, stamp);
      }
    }
  }

  lemma TickKeeps(s: State, delta: nat)
    requires Inv(s)
    ensures Inv(s.(clock := s.clock + delta))
  {
  }

  lemma LookKeeps(s: State, t: Tid)
    requires Inv(s) && (At(s, t).Entered? || At(s, t).SawCache? || At(s, t).SawTime?)
    ensures Inv(Advance(s, t, At(s, t)))
  {
    match At(s, t)
    case Entered(now) => MoveKeeps(s, t, if s.cache.Some? then SawCache(now) else WaitingForLock);
    case SawCache(now) => MoveKeeps(s, t, if Truthy(s.time) then SawTime(now) else WaitingForLock);
    case SawTime(now) =>
      MoveKeeps(s, t, if s.time.Some? && now - s.time.value < TTL then FoundFresh(now) else WaitingForLock);
  }

  lemma FoundKeeps(s: State, t: Tid, now: nat)
    requires Inv(s) && At(s, t) == FoundFresh(now)
    ensures Inv(Advance(s, t, At(s, t)))
  {
    AnswerKeeps(s, Answer(s.cache.value, now, true));
    MoveKeeps(s.(answers := s.answers + [Answer(s.cache.value, now, true)]), t, Idle);
  }

  lemma UnlockedKeeps(s: State, t: Tid)
    requires Inv(s) && !InLock(At(s, t))
    ensures Inv(Advance(s, t, At(s, t)))
  {
    match At(s, t)
    case FoundFresh(now) => FoundKeeps(s, t, now);
    case WaitingForLock =>
      if s.lock.None? {
        LockKeeps(s, t);
      }
    case Idle =>
    case _ => LookKeeps(s, t);
  }

  lemma RecheckKeeps(s: State, t: Tid, now: nat)
    requires Inv(s) && At(s, t) == Rechecking(now)
    ensures Inv(Advance(s, t, At(s, t)))
  {
    if s.cache.Some? && Truthy(s.time) && now - s.time.value < TTL {
      AnswerKeeps(s, Answer(s.cache.value, now, true));
      UnlockKeeps(s.(answers := s.answers + [Answer(s.cache.value, now, true)]), t);
    } else {
      MoveKeeps(s, t, Fetching(now));
    }
  }

  lemma LeaveKeeps(s: State, t: Tid, fetch: nat)
    requires Inv(s) && At(s, t) == Leaving(fetch)
    ensures Inv(Advance(s, t, At(s, t)))
  {
    AnswerKeeps(s, Answer(fetch, s.clock, false));
    UnlockKeeps(s.(answers := s.answers + [Answer(fetch, s.clock, false)]), t);
  }

  lemma AdvanceKeeps(s: State, t: Tid)
    requires Inv(s)
    ensures Inv(Advance(s, t, At(s, t)))
  {
    match At(s, t)
    case Locked => MoveKeeps(s, t, Rechecking(s.clock));
    case Rechecking(now) => RecheckKeeps(s, t, now);
    case Fetching(_) =>
    case CacheWritten(now, fetch) => MoveKeeps(s, t, TimeRead(now, s.clock, fetch));
    case TimeRead(now, stamp, fetch) => RecordKeeps(s, t, now, stamp, fetch);
    case Leaving(fetch) => LeaveKeeps(s, t, fetch);
    case _ => UnlockedKeeps(s, t);
  }

  lemma StepKeeps(s: State, a: Action)
    requires Inv(s)
    ensures Inv(Step(s, a))
  {
    match a
    case Tick(delta) => TickKeeps(s, delta);
    case Call(t) =>
      if At(s, t).Idle? {
        MoveKeeps(s, t, Entered(s.clock));
      }
    case Go(t) => AdvanceKeeps(s, t);
    case FetchEnds(t, ok) =>
      if At(s, t).Fetching? {
        if ok {
          CacheWriteKeeps(s, t, At(s, t).now);
        } else {
          UnlockKeeps(s, t);
        }
      }
  }

  lemma {:induction false} EveryRunKeeps(clock: nat, actions: seq<Action>)
    requires clock > 0
    ensures Inv(Run(Init(clock), actions))
  {
    if actions != [] {
      EveryRunKeeps(clock, actions[..|actions| - 1]);
      StepKeeps(Run(Init(clock), actions[..|actions| - 1]), actions[|actions| - 1]);
    }
  }

  // --------------------------------------------------------- what it means

  /** At most one fetch is in progress, in every interleaving. */
  lemma {:induction false} OneFetchAtATime(clock: nat, actions: seq<Action>, t: Tid, u: Tid)
    requires clock > 0
    requires var s := Run(Init(clock), actions); At(s, t).Fetching? && At(s, u).Fetching?
    ensures t == u
  {
    EveryRunKeeps(clock, actions);
  }

  /** The times recorded by successive stores are at least the TTL apart. */
  lemma {:induction false} StoresApart(clock: nat, actions: seq<Action>, i: nat, j: nat)
    requires clock > 0
    requires i < j < |Run(Init(clock), actions).stores|
    ensures Run(Init(clock), actions).stores[j] >= Run(Init(clock), actions).stores[i] + 30
  {
    EveryRunKeeps(clock, actions);
  }

  /**
   Every answer is the result of a fetch that succeeded. A cached answer's recorded time is less
   than the TTL before the clock its caller read. If it is the newest fetch's and that time is not
   recorded yet, the previous one is less than the TTL before that clock.
   */
  lemma {:induction false} AnswersAreFresh(clock: nat, actions: seq<Action>, a: Answer)
    requires clock > 0 && a in Run(Init(clock), actions).answers
    ensures var stores := Run(Init(clock), actions).stores;
            && a.fetch <= |stores|
            && (a.fetch == |stores| ==> Run(Init(clock), actions).cache == Some(a.fetch))
            && (a.cached && a.fetch < |stores| ==> a.now - stores[a.fetch] < 30)
            && (a.cached && a.fetch == |stores| ==> stores != [] && a.now - stores[|stores| - 1] < 30)
  {
    EveryRunKeeps(clock, actions);
  }

  /** A thread that found the cache fresh, before or under the lock, is answered with what the cache holds, and leaves. */
  lemma {:induction false} FreshReaderAnswered(clock: nat, actions: seq<Action>, t: Tid, now: nat)
    requires clock > 0
    requires var s := Run(Init(clock), actions);
             At(s, t) == FoundFresh(now) || (At(s, t) == Rechecking(now) && s.stores != [] && now < s.stores[|s.stores| - 1] + 30)
    ensures var s := Run(Init(clock), actions);
            && s.cache.Some? && At(Step(s, Go(t)), t) == Idle
            && Step(s, Go(t)).answers == s.answers + [Answer(s.cache.value, now, true)]
  {
    EveryRunKeeps(clock, actions);
  }

  // -------------------------------------------- every fetch answers its caller

  /** How many fetches have been returned to the threads that made them. */
  function Returned(s: State): int {
    |s.stores| - if s.lock.Some? && At(s, s.lock.value).Leaving? then 1 else 0
  }

  function Uncached(answers: seq<Answer>): seq<nat> {
    if answers == [] then []
    else Uncached(answers[..|answers| - 1])
         + if answers[|answers| - 1].cached then [] else [answers[|answers| - 1].fetch]
  }

  /** The uncached answers so far are the fetches returned so far, in order. */
  ghost predicate AnsweredInOrder(s: State) {
    |Uncached(s.answers)| == Returned(s) && forall i | 0 <= i < Returned(s) :: Uncached(s.answers)[i] == i
  }

  lemma UncachedAppend(answers: seq<Answer>, a: Answer)
    ensures Uncached(answers + [a]) == if a.cached then Uncached(answers) else Uncached(answers) + [a.fetch]
  {
    assert (answers + [a])[..|answers|] == answers;
  }

  predicate Leaves(s: State, a: Action) {
    a.Go? && At(s, a.t).Leaving?
  }

  lemma ReturnedAfter(s: State, a: Action)
    requires Inv(s)
    ensures Returned(Step(s, a)) == if Leaves(s, a) then Returned(s) + 1 else Returned(s)
  {
  }

  lemma AnswersAfter(s: State, a: Action)
    requires Inv(s)
    ensures var answers := Step(s, a).answers;
            if Leaves(s, a) then answers == s.answers + [Answer(Returned(s), s.clock, false)]
            else answers == s.answers || (|answers| == |s.answers| + 1 && answers == s.answers + [answers[|s.answers|]] && answers[|s.answers|].cached)
  {
  }

  lemma StepInOrder(s: State, a: Action)
    requires Inv(s) && AnsweredInOrder(s)
    ensures AnsweredInOrder(Step(s, a))
  {
    ReturnedAfter(s, a);
    AnswersAfter(s, a);
    var answers := Step(s, a).answers;
    if answers != s.answers {
      UncachedAppend(s.answers, answers[|s.answers|]);
    }
  }

  /** In every interleaving, each fetch is returned uncached exactly once, by the thread that made it, in the order of the fetches. */
  lemma {:induction false} EveryFetchAnswered(clock: nat, actions: seq<Action>)
    requires clock > 0
    ensures AnsweredInOrder(Run(Init(clock), actions))
  {
    if actions != [] {
      EveryRunKeeps(clock, actions[..|actions| - 1]);
      EveryFetchAnswered(clock, actions[..|actions| - 1]);
      StepInOrder(Run(Init(clock), actions[..|actions| - 1]), actions[|actions| - 1]);
    }
  }
}
