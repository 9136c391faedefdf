/**
 The client-node-map endpoint: one shared background build whose result is cached
 by a callback, whatever becomes of the requests waiting for it. The event loop
 runs one step at a time, in any order.
 */
module ClientNodeMap {
  import opened Wrappers

  const CACHE_TTL := 60

  type Payload = nat
  type Rid = nat

  datatype Build = Running | Succeeded(payload: Payload) | Failed

  /** A response; None is the empty default payload. */
  datatype Response = Response(payload: Option<Payload>, cached: bool, stale: bool, degraded: bool)

  datatype Stored = Stored(payload: Payload, at: nat)

  /** A response with the number of cache writes before it and the clock when it was given. */
  datatype Served = Served(resp: Response, stores: nat, at: nat)

  /**
   The module globals, every build there has been, the builds whose done-callback has
   not run yet, the requests waiting with the build they wait for, what was written to
   the cache and when, and every response.
   */
  datatype State = State(clock: nat, cache: Option<Payload>, cacheTime: nat, task: Option<nat>,
                         builds: seq<Build>, pending: set<nat>, waiting: map<Rid, nat>,
                         stores: seq<Stored>, served: seq<Served>)

  function Init(clock: nat): State {
    State(clock, None, 0, None, [], {}, map[], [], [])
  }

  datatype Action =
    | Tick(delta: nat)
    | Request(r: Rid)
    | Finish(b: nat, outcome: Build)
    | Callback(b: nat)
    | Resume(r: Rid)
    | Timeout(r: Rid)
    | Cancel(r: Rid)

  function Store(s: State, p: Payload): State {
    s.(cache := Some(p), cacheTime := s.clock, stores := s.stores + [Stored(p, s.clock)])
  }

  function Serve(s: State, resp: Response): State {
    s.(served := s.served + [Served(resp, |s.stores|, s.clock)])
  }

  /** The cached payload, or the empty default, marked degraded. */
  function Fallback(s: State): State {
    Serve(s, Response(s.cache, s.cache.Some?, s.cache.Some?, true))
  }

  function Gone(s: State, r: Rid): State {
    s.(waiting := s.waiting - {r})
  }

  predicate Fresh(s: State) {
    s.cache.Some? && s.clock - s.cacheTime < CACHE_TTL
  }

  predicate Done(s: State, b: nat) {
    b < |s.builds| && !s.builds[b].Running?
  }

  /** One step of the event loop or of the worker thread; a disabled action changes nothing. */
  function Step(s: State, a: Action): State {
    match a
    case Tick(delta) => s.(clock := s.clock + delta)
    case Request(r) =>
      if r in s.waiting then s
      else if Fresh(s) then Serve(s, Response(s.cache, true, false, false))
      else if s.task.None? || Done(s, s.task.value) then
        s.(task := Some(|s.builds|), builds := s.builds + [Running], waiting := s.waiting[r := |s.builds|])
      else s.(waiting := s.waiting[r := s.task.value])
    case Finish(b, outcome) =>
      if b < |s.builds| && s.builds[b].Running? && !outcome.Running? then
        s.(builds := s.builds[b := outcome], pending := s.pending + {b})
      else s
    case Callback(b) =>
      if b in s.pending && b < |s.builds| then
        var s' := s.(pending := s.pending - {b});
        if s.builds[b].Succeeded? then Store(s', s.builds[b].payload) else s'
      else s
    case Resume(r) =>
      if r in s.waiting && Done(s, s.waiting[r]) then
        match s.builds[s.waiting[r]]
        case Succeeded(p) => Serve(Store(Gone(s, r), p), Response(Some(p), false, false, false))
        case _ => Fallback(Gone(s, r))
      else s
    case Timeout(r) => if r in s.waiting then Fallback(Gone(s, r)) else s
    case Cancel(r) => if r in s.waiting then Gone(s, r) else s
  }

  function Run(s: State, actions: seq<Action>): State {
    if actions == [] then s else Step(Run(s, actions[..|actions| - 1]), actions[|actions| - 1])
  }

  // ------------------------------------------------------------- invariant

  ghost predicate Built(s: State, p: Payload) {
    Succeeded(p) in s.builds
  }

  /**
   A response carries the payload stored last, or the default while nothing is stored; unless it is marked stale or
   degraded, that was stored just now or, if marked cached, less than a minute before.
   */
  ghost predicate ServedOk(stores: seq<Stored>, v: Served) {
    && v.stores <= |stores|
    && v.resp.payload == (if v.stores == 0 then None else Some(stores[v.stores - 1].payload))
    && match v.resp
       case Response(_, cached, stale, degraded) =>
         if degraded then cached == stale == (v.stores > 0)
         else v.stores > 0 && !stale && if cached then v.at - stores[v.stores - 1].at < 60 else v.at == stores[v.stores - 1].at
  }

  ghost predicate Inv(s: State) {
    && (s.task.Some? ==> s.task.value < |s.builds|)
    && (forall b | 0 <= b < |s.builds| && s.builds[b].Running? :: s.task == Some(b))
    && (forall b | b in s.pending :: Done(s, b))
    && (forall r | r in s.waiting :: s.waiting[r] < |s.builds|)
    && (forall e | e in s.stores :: Built(s, e.payload))
    && s.cache == (if s.stores == [] then None else Some(s.stores[|s.stores| - 1].payload))
    && (s.stores != [] ==> s.cacheTime == s.stores[|s.stores| - 1].at)
    && (forall b | 0 <= b < |s.builds| && s.builds[b].Succeeded? && b !in s.pending ::
          exists e :: e in s.stores && e.payload == s.builds[b].payload)
    && (forall v | v in s.served :: ServedOk(s.stores, v))
  }

  lemma ServedStays(stores: seq<Stored>, e: Stored, v: Served)
    requires ServedOk(stores, v)
    ensures ServedOk(stores + [e], v)
  {
  }

  lemma StoreKeeps(s: State, p: Payload)
    requires Inv(s) && Built(s, p)
    ensures Inv(Store(s, p))
  {
    var s' := Store(s, p);
    assert forall e | e in s.stores :: e in s'.stores;
    forall v | v in s'.served
      ensures ServedOk(s'.stores, v)
    {
      ServedStays(s.stores, Stored(p, s.clock), v);
    }
  }

  lemma ServeKeeps(s: State, resp: Response)
    requires Inv(s) && ServedOk(s.stores, Served(resp, |s.stores|, s.clock))
    ensures Inv(Serve(s, resp))
  {
  }

  lemma GoneKeeps(s: State, r: Rid)
    requires Inv(s)
    ensures Inv(Gone(s, r))
  {
  }

  lemma FallbackKeeps(s: State)
    requires Inv(s)
    ensures Inv(Fallback(s))
  {
    ServeKeeps(s, Response(s.cache, s.cache.Some?, s.cache.Some?, true));
  }

  lemma RequestKeeps(s: State, r: Rid)
    requires Inv(s)
    ensures Inv(Step(s, Request(r)))
  {
    if r !in s.waiting {
      if Fresh(s) {
        ServeKeeps(s, Response(s.cache, true, false, false));
      } else {
        var s' := Step(s, Request(r));
        assert forall p :: Built(s, p) ==> Built(s', p);
      }
    }
  }

  lemma FinishKeeps(s: State, b: nat, outcome: Build)
    requires Inv(s)
    ensures Inv(Step(s, Finish(b, outcome)))
  {
    var s' := Step(s, Finish(b, outcome));
    forall p | Built(s, p)
      ensures Built(s', p)
    {
      var i :| 0 <= i < |s.builds| && s.builds[i] == Succeeded(p);
      assert s'.builds[i] == Succeeded(p);
    }
  }

  lemma CallbackKeeps(s: State, b: nat)
    requires Inv(s)
    ensures Inv(Step(s, Callback(b)))
  {
    if b in s.pending {
      var s1 := if s.builds[b].Succeeded? then Store(s, s.builds[b].payload) else s;
      if s.builds[b].Succeeded? {
        StoreKeeps(s, s.builds[b].payload);
        assert s1.stores[|s.stores|] == Stored(s.builds[b].payload, s.clock);
      }
      assert Step(s, Callback(b)) == s1.(pending := s.pending - {b});
    }
  }

  lemma ResumeKeeps(s: State, r: Rid)
    requires Inv(s) && r in s.waiting && Done(s, s.waiting[r])
    ensures Inv(Step(s, Resume(r)))
  {
    GoneKeeps(s, r);
    match s.builds[s.waiting[r]]
    case Succeeded(p) =>
      StoreKeeps(Gone(s, r), p);
      ServeKeeps(Store(Gone(s, r), p), Response(Some(p), false, false, false));
    case _ => FallbackKeeps(Gone(s, r));
  }

  lemma StepKeeps(s: State, a: Action)
    requires Inv(s)
    ensures Inv(Step(s, a))
  {
    match a
    case Tick(delta) =>
    case Request(r) => RequestKeeps(s, r);
    case Finish(b, outcome) => FinishKeeps(s, b, outcome);
    case Callback(b) => CallbackKeeps(s, b);
    case Resume(r) =>
      if r in s.waiting && Done(s, s.waiting[r]) {
        ResumeKeeps(s, r);
      }
    case Timeout(r) =>
      GoneKeeps(s, r);
      FallbackKeeps(Gone(s, r));
    case Cancel(r) => GoneKeeps(s, r);
  }

  lemma {:induction false} EveryRunKeeps(clock: nat, actions: seq<Action>)
    ensures Inv(Run(Init(clock), actions))
  {
    if actions != [] {
      EveryRunKeeps(clock, actions[..|actions| - 1]);
      StepKeeps(Run(Init(clock), actions[..|actions| - 1]), actions[|actions| - 1]);
    }
  }

  // --------------------------------------------------------- what it means

  /** In every interleaving at most one build is running. */
  lemma {:induction false} OneBuildAtATime(clock: nat, actions: seq<Action>, b: nat, b': nat)
    requires var s := Run(Init(clock), actions);
             b < |s.builds| && b' < |s.builds| && s.builds[b].Running? && s.builds[b'].Running?
    ensures b == b'
  {
    EveryRunKeeps(clock, actions);
  }

  /** Once a successful build's callback has run, its payload has been cached and the cache is never empty again. */
  lemma {:induction false} SuccessIsCached(clock: nat, actions: seq<Action>, b: nat)
    requires var s := Run(Init(clock), actions); b < |s.builds| && s.builds[b].Succeeded? && b !in s.pending
    ensures var s := Run(Init(clock), actions);
            (exists e :: e in s.stores && e.payload == s.builds[b].payload) && s.cache.Some?
  {
    EveryRunKeeps(clock, actions);
  }

  /**
   Every response carries what was stored last before it, which a completed build made, or the
   empty default exactly if nothing was; so the default is never served after a first store.
   */
  lemma {:induction false} ServedPayloads(clock: nat, actions: seq<Action>, i: nat)
    requires i < |Run(Init(clock), actions).served|
    ensures var s := Run(Init(clock), actions);
            var v := s.served[i];
            && v.stores <= |s.stores|
            && (v.resp.payload.Some? ==> Succeeded(v.resp.payload.value) in s.builds)
            && v.resp.payload == if v.stores == 0 then None else Some(s.stores[v.stores - 1].payload)
  {
    EveryRunKeeps(clock, actions);
    var s := Run(Init(clock), actions);
    assert s.served[i] in s.served;
    assert ServedOk(s.stores, s.served[i]);
    if s.served[i].stores > 0 {
      assert s.stores[s.served[i].stores - 1] in s.stores;
    }
  }

  /**
   How a response is marked: one that is not degraded is a payload stored at that moment, or a cached one
   that was stored less than 60 seconds before; a degraded one is cached and stale unless it is the default.
   */
  lemma {:induction false} ServedFresh(clock: nat, actions: seq<Action>, i: nat)
    requires i < |Run(Init(clock), actions).served|
    ensures var s := Run(Init(clock), actions);
            var v := s.served[i];
            && v.stores <= |s.stores|
            && (!v.resp.degraded ==> v.stores > 0 && !v.resp.stale && v.at - s.stores[v.stores - 1].at < 60)
            && (!v.resp.degraded && !v.resp.cached ==> v.at == s.stores[v.stores - 1].at)
            && (v.resp.degraded ==> v.resp.cached == v.resp.stale == (v.stores > 0))
  {
    EveryRunKeeps(clock, actions);
    var s := Run(Init(clock), actions);
    assert s.served[i] in s.served;
    assert ServedOk(s.stores, s.served[i]);
  }

  /** Something was stored less than 60 seconds ago. */
  predicate JustStored(s: State) {
    s.stores != [] && s.clock - s.stores[|s.stores| - 1].at < 60
  }

  /**
   In every reachable state a new request is answered at once with the payload stored last if that was
   less than 60 seconds ago, and starts nothing; otherwise it waits for the build that is running, or if
   none is, for one that it starts.
   */
  lemma {:induction false} RequestExactly(clock: nat, actions: seq<Action>, r: Rid)
    requires r !in Run(Init(clock), actions).waiting
    ensures var s := Run(Init(clock), actions);
            var after := Step(s, Request(r));
            && after.stores == s.stores
            && (JustStored(s) ==>
                  && after.builds == s.builds && after.waiting == s.waiting
                  && after.served == s.served + [Served(Response(Some(s.stores[|s.stores| - 1].payload), true, false, false), |s.stores|, s.clock)])
            && (!JustStored(s) ==> after.served == s.served && r in after.waiting)
            && (!JustStored(s) && (forall b | 0 <= b < |s.builds| :: !s.builds[b].Running?) ==>
                  after.builds == s.builds + [Running] && after.waiting == s.waiting[r := |s.builds|])
            && (forall b: nat | !JustStored(s) && b < |s.builds| && s.builds[b].Running? ::
                  after.builds == s.builds && after.waiting == s.waiting[r := b])
  {
    EveryRunKeeps(clock, actions);
  }

  /** A waiting request whose build is done stores and answers its payload; a failed build answers as a time-out does. */
  lemma {:induction false} ResumeExactly(clock: nat, actions: seq<Action>, r: Rid)
    requires var s := Run(Init(clock), actions); r in s.waiting && Done(s, s.waiting[r])
    ensures var s := Run(Init(clock), actions);
            var after := Step(s, Resume(r));
            && r !in after.waiting
            && match s.builds[s.waiting[r]]
               case Succeeded(p) =>
                 && after.stores == s.stores + [Stored(p, s.clock)]
                 && after.served == s.served + [Served(Response(Some(p), false, false, false), |s.stores| + 1, s.clock)]
               case _ => after == Step(s, Timeout(r)) && after.stores == s.stores && |after.served| == |s.served| + 1
  {
    EveryRunKeeps(clock, actions);
  }

  /** A success alone does not rule the default out: a request may time out before the callback has run. */
  lemma DefaultAfterUncachedSuccess(clock: nat, p: Payload)
    ensures var s := Step(Step(Step(Init(clock), Request(0)), Finish(0, Succeeded(p))), Timeout(0));
            s.builds[0] == Succeeded(p) && s.served[|s.served| - 1].resp.payload == None
  {
    var s1 := Step(Init(clock), Request(0));
    assert s1.builds == [Running] && s1.waiting == map[0 := 0];
    var s2 := Step(s1, Finish(0, Succeeded(p)));
    assert s2.builds == [Succeeded(p)] && 0 in s2.waiting;
  }
}
