/**
 The live push channel: bounded queues, one per subscriber, and a publisher that
 drops a subscriber whose queue is full.
 */
module SseHub {
  import opened Wrappers

  const QUEUE_SIZE := 100

  type Id = nat

  /** One subscriber: what it was sent, what still waits, and whether it is still published to. */
  datatype Sub<T> = Sub(start: nat, received: seq<T>, queue: seq<T>, subscribed: bool, closed: bool)

  /** The published log and every subscriber there has been. */
  datatype Channel<T> = Channel(log: seq<T>, subs: map<Id, Sub<T>>)

  function Empty<T>(): Channel<T> {
    Channel([], map[])
  }

  // ------------------------------------------------------ what each step does

  /** A published message reaches every subscriber with room and drops the others. */
  function Offer<T>(sub: Sub<T>, m: T): Sub<T> {
    if !sub.subscribed then sub
    else if |sub.queue| < QUEUE_SIZE then sub.(queue := sub.queue + [m])
    else sub.(subscribed := false)
  }

  datatype Op<T> = Subscribe(id: Id) | Publish(m: T) | Consume(id: Id) | Disconnect(id: Id)

  /** One step; a step that cannot happen leaves the state as it is. */
  function Step<T>(s: Channel<T>, op: Op<T>): Channel<T> {
    match op
    case Subscribe(id) =>
      if id in s.subs then s else s.(subs := s.subs[id := Sub(|s.log|, [], [], true, false)])
    case Publish(m) =>
      Channel(s.log + [m], map id | id in s.subs :: Offer(s.subs[id], m))
    case Consume(id) =>
      if id in s.subs && !s.subs[id].closed && s.subs[id].queue != [] then
        var sub := s.subs[id];
        s.(subs := s.subs[id := sub.(received := sub.received + [sub.queue[0]], queue := sub.queue[1..])])
      else s
    case Disconnect(id) =>
      if id in s.subs then s.(subs := s.subs[id := s.subs[id].(subscribed := false, closed := true)]) else s
  }

  function Run<T>(s: Channel<T>, ops: seq<Op<T>>): Channel<T> {
    if ops == [] then s else Step(Run(s, ops[..|ops| - 1]), ops[|ops| - 1])
  }

  // -------------------------------------------------------------- delivery

  /** What was received, then what waits, is a block of the log from the subscription on. */
  ghost predicate Delivered<T>(log: seq<T>, sub: Sub<T>) {
    && |sub.queue| <= 100
    && sub.start + |sub.received| + |sub.queue| <= |log|
    && sub.received + sub.queue == log[sub.start..sub.start + |sub.received| + |sub.queue|]
    && (sub.subscribed ==> sub.start + |sub.received| + |sub.queue| == |log|)
  }

  lemma OfferDelivers<T>(log: seq<T>, sub: Sub<T>, m: T)
    requires Delivered(log, sub)
    ensures Delivered(log + [m], Offer(sub, m))
  {
    var n := sub.start + |sub.received| + |sub.queue|;
    assert (log + [m])[sub.start..n] == log[sub.start..n];
    if sub.subscribed && |sub.queue| < QUEUE_SIZE {
      assert (log + [m])[sub.start..n + 1] == log[sub.start..n] + [m];
      assert sub.received + (sub.queue + [m]) == sub.received + sub.queue + [m];
    }
  }

  lemma ConsumeDelivers<T>(log: seq<T>, sub: Sub<T>)
    requires Delivered(log, sub) && sub.queue != []
    ensures Delivered(log, sub.(received := sub.received + [sub.queue[0]], queue := sub.queue[1..]))
  {
    assert sub.received + [sub.queue[0]] + sub.queue[1..] == sub.received + sub.queue;
  }

  ghost predicate AllDelivered<T>(s: Channel<T>) {
    forall id | id in s.subs :: Delivered(s.log, s.subs[id])
  }

  lemma StepDelivers<T>(s: Channel<T>, op: Op<T>)
    requires AllDelivered(s)
    ensures AllDelivered(Step(s, op))
  {
    match op
    case Publish(m) =>
      forall id | id in s.subs
        ensures Delivered(s.log + [m], Offer(s.subs[id], m))
      {
        OfferDelivers(s.log, s.subs[id], m);
      }
    case Consume(id) =>
      if id in s.subs && s.subs[id].queue != [] {
        ConsumeDelivers(s.log, s.subs[id]);
      }
    case _ =>
  }

  /** In every interleaving, every subscriber holds a contiguous block of the log. */
  lemma {:induction false} EveryRunDelivers<T>(ops: seq<Op<T>>)
    ensures AllDelivered(Run(Empty(), ops))
  {
    if ops != [] {
      EveryRunDelivers(ops[..|ops| - 1]);
      StepDelivers(Run(Empty(), ops[..|ops| - 1]), ops[|ops| - 1]);
    }
  }

  /** In one step a subscriber stops being published to only by disconnecting or with a full queue at a publication. */
  lemma DroppedOnlyWhenFull<T>(s: Channel<T>, op: Op<T>, id: Id)
    requires id in s.subs && s.subs[id].subscribed
    ensures id in Step(s, op).subs
    ensures !Step(s, op).subs[id].subscribed <==> op == Disconnect(id) || (op.Publish? && |s.subs[id].queue| >= QUEUE_SIZE)
  {
  }

  /** At this place of the run the subscriber disconnects, or something is published while its queue is full. */
  predicate EndsAt<T(==)>(ops: seq<Op<T>>, i: nat, id: Id) {
    && i < |ops| && id in Run(Empty(), ops[..i]).subs
    && (ops[i] == Disconnect(id) || (ops[i].Publish? && |Run(Empty(), ops[..i]).subs[id].queue| >= 100))
  }

  lemma {:induction false} SubscribersStay<T>(ops: seq<Op<T>>, i: nat, id: Id)
    requires i <= |ops| && id in Run(Empty(), ops[..i]).subs
    ensures id in Run(Empty(), ops).subs
  {
    if i < |ops| {
      assert ops[..|ops| - 1][..i] == ops[..i];
      SubscribersStay(ops[..|ops| - 1], i, id);
    } else {
      assert ops[..i] == ops;
    }
  }

  lemma EndsAtInit<T>(ops: seq<Op<T>>, i: nat, id: Id)
    requires i < |ops| - 1
    ensures EndsAt(ops, i, id) <==> EndsAt(ops[..|ops| - 1], i, id)
  {
    assert ops[..|ops| - 1][..i] == ops[..i];
  }

  /** In every interleaving, a subscriber is still published to exactly if it never disconnected and was never found full. */
  lemma {:induction false} SubscribedExactly<T>(ops: seq<Op<T>>, id: Id)
    requires id in Run(Empty(), ops).subs
    ensures Run(Empty(), ops).subs[id].subscribed <==> !exists i :: EndsAt(ops, i, id)
  {
    if ops != [] {
      var n := |ops| - 1;
      var before := Run(Empty(), ops[..n]);
      forall i: nat | i < n
        ensures EndsAt(ops, i, id) <==> EndsAt(ops[..n], i, id)
      {
        EndsAtInit(ops, i, id);
      }
      if id in before.subs {
        SubscribedExactly(ops[..n], id);
        if before.subs[id].subscribed {
          DroppedOnlyWhenFull(before, ops[n], id);
          assert EndsAt(ops, n, id) <==> !Run(Empty(), ops).subs[id].subscribed;
        } else {
          var i :| EndsAt(ops[..n], i, id);
          assert EndsAt(ops, i, id);
        }
      } else {
        forall i: nat | i < n
          ensures !EndsAt(ops[..n], i, id)
        {
          if EndsAt(ops[..n], i, id) {
            SubscribersStay(ops[..n], i, id);
          }
        }
      }
    }
  }

  // ------------------------------------------------------------- draining

  lemma SetAgain<K, V>(m: map<K, V>, k: K, a: V, b: V)
    ensures m[k := a][k := b] == m[k := b]
  {
  }

  /** The subscriber takes one message after the other. */
  function Takes<T>(id: Id, n: nat): seq<Op<T>> {
    if n == 0 then [] else Takes(id, n - 1) + [Consume(id)]
  }

  /** A connected subscriber that takes messages gets those that wait, each once and in order. */
  lemma {:induction false} TakesInOrder<T>(s: Channel<T>, id: Id, n: nat)
    requires id in s.subs && !s.subs[id].closed && n <= |s.subs[id].queue|
    ensures var sub := s.subs[id];
            Run(s, Takes(id, n)) == s.(subs := s.subs[id := sub.(received := sub.received + sub.queue[..n], queue := sub.queue[n..])])
  {
    var sub := s.subs[id];
    if n == 0 {
      assert sub.received + sub.queue[..0] == sub.received && sub.queue[0..] == sub.queue;
      assert s.subs[id := sub] == s.subs;
    } else {
      TakesInOrder(s, id, n - 1);
      assert (Takes<T>(id, n - 1) + [Consume(id)])[..|Takes<T>(id, n - 1)|] == Takes<T>(id, n - 1);
      assert sub.received + sub.queue[..n - 1] + [sub.queue[n - 1]] == sub.received + sub.queue[..n];
      assert sub.queue[n - 1..][1..] == sub.queue[n..] && sub.queue[n - 1..][0] == sub.queue[n - 1];
      SetAgain(s.subs, id, sub.(received := sub.received + sub.queue[..n - 1], queue := sub.queue[n - 1..]),
               sub.(received := sub.received + sub.queue[..n], queue := sub.queue[n..]));
    }
  }

  /** After any run, a subscriber still published to can take everything published since it subscribed. */
  lemma EverythingArrives<T>(ops: seq<Op<T>>, id: Id)
    requires var s := Run(Empty(), ops); id in s.subs && s.subs[id].subscribed && !s.subs[id].closed
    ensures var s := Run(Empty(), ops);
            s.subs[id].start <= |s.log| && id in Run(s, Takes(id, |s.subs[id].queue|)).subs
            && Run(s, Takes(id, |s.subs[id].queue|)).subs[id].received == s.log[s.subs[id].start..]
  {
    var s := Run(Empty(), ops);
    EveryRunDelivers(ops);
    TakesInOrder(s, id, |s.subs[id].queue|);
    assert s.subs[id].queue[..|s.subs[id].queue|] == s.subs[id].queue;
    assert Delivered(s.log, s.subs[id]);
  }

  // -------------------------------------------------------- independence

  predicate Concerns<T(==)>(op: Op<T>, id: Id) {
    op.Publish? || op.id == id
  }

  /** The publications and the steps of one subscriber. */
  function Own<T(==)>(ops: seq<Op<T>>, id: Id): seq<Op<T>> {
    if ops == [] then []
    else Own(ops[..|ops| - 1], id) + if Concerns(ops[|ops| - 1], id) then [ops[|ops| - 1]] else []
  }

  function SubOf<T>(s: Channel<T>, id: Id): Option<Sub<T>> {
    if id in s.subs then Some(s.subs[id]) else None
  }

  /** A step that does not concern a subscriber leaves it and the log alone. */
  lemma OtherStep<T>(s: Channel<T>, op: Op<T>, id: Id)
    requires !Concerns(op, id)
    ensures SubOf(Step(s, op), id) == SubOf(s, id) && Step(s, op).log == s.log
  {
  }

  /** What a step does to a subscriber and to the log depends on them alone. */
  lemma OwnStep<T>(s: Channel<T>, t: Channel<T>, op: Op<T>, id: Id)
    requires SubOf(s, id) == SubOf(t, id) && s.log == t.log && Concerns(op, id)
    ensures SubOf(Step(s, op), id) == SubOf(Step(t, op), id) && Step(s, op).log == Step(t, op).log
  {
  }

  /** A subscriber's fate is the same as if it were the only one. */
  lemma {:induction false} OthersDoNotMatter<T>(ops: seq<Op<T>>, id: Id)
    ensures SubOf(Run(Empty(), ops), id) == SubOf(Run(Empty(), Own(ops, id)), id)
    ensures Run(Empty(), ops).log == Run(Empty(), Own(ops, id)).log
  {
    if ops != [] {
      var init, last := ops[..|ops| - 1], ops[|ops| - 1];
      OthersDoNotMatter(init, id);
      var own := Own(init, id);
      if Concerns(last, id) {
        assert (own + [last])[..|own|] == own;
        OwnStep(Run(Empty(), init), Run(Empty(), own), last, id);
      } else {
        assert own + [] == own;
        OtherStep(Run(Empty(), init), last, id);
      }
    }
  }

  // ------------------------------------------------------- the module's code

  /** The queues after a message was offered to some of them. */
  function Offered<T>(queues: map<Id, seq<T>>, ids: seq<Id>, m: T): map<Id, seq<T>> {
    map id | id in queues ::
      if id in ids && |queues[id]| < QUEUE_SIZE then queues[id] + [m] else queues[id]
  }

  /** The ones among them that had no room. */
  function Full<T>(queues: map<Id, seq<T>>, ids: seq<Id>): seq<Id> {
    if ids == [] then []
    else
      var last := ids[|ids| - 1];
      Full(queues, ids[..|ids| - 1]) + if last in queues && |queues[last]| >= QUEUE_SIZE then [last] else []
  }

  predicate Distinct(ids: seq<Id>) {
    forall i, j | 0 <= i < j < |ids| :: ids[i] != ids[j]
  }

  lemma OfferedAppend<T>(queues: map<Id, seq<T>>, ids: seq<Id>, q: Id, m: T)
    requires q !in ids && q in queues
    ensures Offered(queues, ids, m)[q] == queues[q]
    ensures Offered(queues, ids + [q], m)
         == if |queues[q]| < QUEUE_SIZE then Offered(queues, ids, m)[q := queues[q] + [m]] else Offered(queues, ids, m)
    ensures Full(queues, ids + [q]) == Full(queues, ids) + if |queues[q]| >= QUEUE_SIZE then [q] else []
  {
    assert (ids + [q])[..|ids|] == ids;
  }

  lemma PrefixGrows(ids: seq<Id>, i: nat)
    requires Distinct(ids) && i < |ids|
    ensures ids[i] !in ids[..i] && ids[..i + 1] == ids[..i] + [ids[i]]
  {
  }

  lemma OfferedStep<T>(queues: map<Id, seq<T>>, ids: seq<Id>, i: nat, m: T)
    requires Distinct(ids) && i < |ids| && ids[i] in queues
    ensures var q, before, after := ids[i], Offered(queues, ids[..i], m), Offered(queues, ids[..i + 1], m);
            && before[q] == queues[q]
            && after == (if |queues[q]| < QUEUE_SIZE then before[q := queues[q] + [m]] else before)
            && Full(queues, ids[..i + 1]) == Full(queues, ids[..i]) + if |queues[q]| >= QUEUE_SIZE then [q] else []
  {
    PrefixGrows(ids, i);
    OfferedAppend(queues, ids[..i], ids[i], m);
  }

  lemma OfferedAll<T>(queues: map<Id, seq<T>>, ids: seq<Id>, m: T)
    ensures Offered(queues, ids[..0], m) == queues && Full(queues, ids[..0]) == []
    ensures ids[..|ids|] == ids
  {
  }

  lemma {:induction false} FullMeaning<T>(queues: map<Id, seq<T>>, ids: seq<Id>)
    requires Distinct(ids)
    ensures Distinct(Full(queues, ids))
    ensures forall id :: id in Full(queues, ids) <==> id in ids && id in queues && |queues[id]| >= QUEUE_SIZE
  {
    if ids != [] {
      var init, last := ids[..|ids| - 1], ids[|ids| - 1];
      FullMeaning(queues, init);
      assert ids == init + [last] && last !in init;
    }
  }

  function Recorded<T>(queues: map<Id, seq<T>>, start: map<Id, nat>, received: map<Id, seq<T>>,
                     subscribers: seq<Id>, closed: set<Id>): map<Id, Sub<T>>
    requires start.Keys == queues.Keys && received.Keys == queues.Keys
  {
    map id | id in queues :: Sub(start[id], received[id], queues[id], id in subscribers, id in closed)
  }

  lemma SubscribedRecords<T>(queues: map<Id, seq<T>>, start: map<Id, nat>, received: map<Id, seq<T>>,
                             subscribers: seq<Id>, closed: set<Id>, id: Id, at: nat)
    requires start.Keys == queues.Keys && received.Keys == queues.Keys && id !in queues && id !in closed
    ensures Recorded(queues[id := []], start[id := at], received[id := []], subscribers + [id], closed)
         == Recorded(queues, start, received, subscribers, closed)[id := Sub(at, [], [], true, false)]
  {
  }

  /** Offering to every subscriber and removing the full ones makes each of them what a publication makes of it. */
  lemma PublishedRecords<T>(queues: map<Id, seq<T>>, start: map<Id, nat>, received: map<Id, seq<T>>,
                         subscribers: seq<Id>, left: seq<Id>, closed: set<Id>, m: T)
    requires start.Keys == queues.Keys && received.Keys == queues.Keys
    requires forall id :: id in left <==> id in subscribers && !(id in queues && |queues[id]| >= QUEUE_SIZE)
    ensures var before := Recorded(queues, start, received, subscribers, closed);
            Recorded(Offered(queues, subscribers, m), start, received, left, closed)
              == map id | id in before :: Offer(before[id], m)
  {
  }

  /** `_subscribers` and the queues; what subscribers received is ghost. */
  class Hub<T(==)> {
    var subscribers: seq<Id>
    var queues: map<Id, seq<T>>
    ghost var log: seq<T>
    ghost var start: map<Id, nat>
    ghost var received: map<Id, seq<T>>
    ghost var closed: set<Id>

    ghost predicate Valid()
      reads this
    {
      && Distinct(subscribers)
      && (forall id | id in subscribers :: id in queues)
      && start.Keys == queues.Keys && received.Keys == queues.Keys
    }

    ghost function State(): Channel<T>
      requires Valid()
      reads this
    {
      Channel(log, Recorded(queues, start, received, subscribers, closed))
    }

    constructor ()
      ensures Valid() && State() == Empty()
    {
      subscribers, queues, log, start, received, closed := [], map[], [], map[], map[], {};
    }

    /** `sse_events`: a new bounded queue at the end of the list. */
    method SubscribeClient(id: Id)
      requires Valid() && id !in queues && id !in closed
      modifies this
      ensures Valid() && State() == Step(old(State()), Subscribe(id))
    {
      SubscribedRecords(queues, start, received, subscribers, closed, id, |log|);
      queues := queues[id := []];
      subscribers := subscribers + [id];
      start, received := start[id := |log|], received[id := []];
    }

    /** `put_nowait` on a bounded queue, which reports a full one instead of raising. */
    method PutNowait(q: Id, m: T) returns (full: bool)
      requires q in queues
      modifies this`queues
      ensures full <==> |old(queues)[q]| >= QUEUE_SIZE
      ensures queues == if full then old(queues) else old(queues)[q := old(queues)[q] + [m]]
    {
      full := |queues[q]| >= QUEUE_SIZE;
      if !full {
        queues := queues[q := queues[q] + [m]];
      }
    }

    /** The first loop of `publish_event`; the full queues are returned. */
    method OfferAll(m: T) returns (dead: seq<Id>)
      requires Valid()
      modifies this`queues
      ensures Valid() && queues == Offered(old(queues), subscribers, m) && dead == Full(old(queues), subscribers)
    {
      dead := [];
      OfferedAll(queues, subscribers, m);
      for i := 0 to |subscribers|
        invariant queues == Offered(old(queues), subscribers[..i], m)
        invariant dead == Full(old(queues), subscribers[..i])
      {
        OfferedStep(old(queues), subscribers, i, m);
        var full := PutNowait(subscribers[i], m);
        if full {
          dead := dead + [subscribers[i]];
        }
      }
    }

    /** `list.remove` on a list without repetitions. */
    method Remove(id: Id)
      requires Valid() && id in subscribers
      modifies this`subscribers
      ensures Valid()
      ensures forall x :: x in subscribers <==> x in old(subscribers) && x != id
    {
      var i :| 0 <= i < |subscribers| && subscribers[i] == id;
      subscribers := subscribers[..i] + subscribers[i + 1..];
      assert forall x :: x in old(subscribers) <==> x in old(subscribers)[..i] || x == id || x in old(subscribers)[i + 1..] by {
        assert old(subscribers) == old(subscribers)[..i] + [id] + old(subscribers)[i + 1..];
      }
    }

    /** The loop `for q in dead: _subscribers.remove(q)`. */
    method RemoveAll(dead: seq<Id>)
      requires Valid()
      requires forall id | id in dead :: id in subscribers
      requires Distinct(dead)
      modifies this`subscribers
      ensures Valid()
      ensures forall id :: id in subscribers <==> id in old(subscribers) && id !in dead
    {
      for i := 0 to |dead|
        invariant Valid()
        invariant forall id :: id in subscribers <==> id in old(subscribers) && id !in dead[..i]
      {
        assert dead[..i + 1] == dead[..i] + [dead[i]];
        Remove(dead[i]);
      }
      assert dead[..|dead|] == dead;
    }

    /** Offer to every queue, then remove the full ones. */
    method OfferAndDrop(m: T)
      requires Valid()
      modifies this`queues, this`subscribers
      ensures Valid()
      ensures Recorded(queues, start, received, subscribers, closed)
           == var before := old(Recorded(queues, start, received, subscribers, closed));
              map id | id in before :: Offer(before[id], m)
    {
      var dead := OfferAll(m);
      FullMeaning(old(queues), subscribers);
      RemoveAll(dead);
      PublishedRecords(old(queues), start, received, old(subscribers), subscribers, closed, m);
    }

    /** `publish_event`. */
    method PublishEvent(m: T)
      requires Valid()
      modifies this
      ensures Valid() && State() == Step(old(State()), Publish(m))
    {
      OfferAndDrop(m);
      log := log + [m];
    }

    /** One turn of `_event_generator`: the oldest waiting message goes to the client. */
    method ConsumeNext(id: Id) returns (m: T)
      requires Valid() && id in queues && queues[id] != [] && id !in closed
      modifies this
      ensures Valid() && State() == Step(old(State()), Consume(id))
      ensures m == old(queues)[id][0] && queues == old(queues)[id := old(queues)[id][1..]]
    {
      m := queues[id][0];
      received := received[id := received[id] + [m]];
      queues := queues[id := queues[id][1..]];
    }

    /** The generator's `finally` clause. */
    method Close(id: Id)
      requires Valid() && id in queues
      modifies this
      ensures Valid() && State() == Step(old(State()), Disconnect(id))
    {
      if id in subscribers {
        Remove(id);
      }
      closed := closed + {id};
    }
  }
}
