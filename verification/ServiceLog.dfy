/** The sample and event tables of the local service monitor, pruned after every snapshot. */
module ServiceLog {
  import opened Wrappers
  import opened Runs

  type Status = string

  datatype Service = Service(id: string, status: Status)

  /** A row of the samples table; rows stand in the order of their identifiers. */
  datatype Sample = Sample(service: string, status: Status)

  datatype Event = Event(service: string, old_: Option<Status>, new_: Status)

  /** The status of the service's newest sample. */
  function Newest(samples: seq<Sample>, id: string): Option<Status> {
    if samples == [] then None
    else if samples[|samples| - 1].service == id then Some(samples[|samples| - 1].status)
    else Newest(samples[..|samples| - 1], id)
  }

  /** The new status of the service's newest event. */
  function NewestEvent(events: seq<Event>, id: string): Option<Status> {
    if events == [] then None
    else if events[|events| - 1].service == id then Some(events[|events| - 1].new_)
    else NewestEvent(events[..|events| - 1], id)
  }

  /** The two tables, with everything ever inserted into them. */
  datatype Log = Log(samples: seq<Sample>, events: seq<Event>, allSamples: seq<Sample>, allEvents: seq<Event>)

  function Empty(): Log {
    Log([], [], [], [])
  }

  /** One service of a snapshot: an event if its status differs from its newest sample, then a sample. */
  function Add(l: Log, s: Service): Log {
    var old_ := Newest(l.samples, s.id);
    var e := if old_ != Some(s.status) then [Event(s.id, old_, s.status)] else [];
    var row := [Sample(s.id, s.status)];
    Log(l.samples + row, l.events + e, l.allSamples + row, l.allEvents + e)
  }

  function AddAll(l: Log, ss: seq<Service>): Log {
    if ss == [] then l else Add(AddAll(l, ss[..|ss| - 1]), ss[|ss| - 1])
  }

  /** The newest `n` rows. */
  function Keep<T>(rows: seq<T>, n: nat): seq<T> {
    if |rows| <= n then rows else rows[|rows| - n..]
  }

  function Prune(l: Log, retention: nat): Log {
    l.(samples := Keep(l.samples, retention), events := Keep(l.events, retention))
  }

  function Record(l: Log, ss: seq<Service>, retention: nat): Log {
    Prune(AddAll(l, ss), retention)
  }

  function RecordAll(snapshots: seq<seq<Service>>, retention: nat): Log {
    if snapshots == [] then Empty()
    else Record(RecordAll(snapshots[..|snapshots| - 1], retention), snapshots[|snapshots| - 1], retention)
  }

  // ------------------------------------------------------ the monitor's code

  class Monitor {
    const retention: nat
    var samples: seq<Sample>
    var events: seq<Event>
    ghost var allSamples: seq<Sample>
    ghost var allEvents: seq<Event>

    ghost function State(): Log
      reads this
    {
      Log(samples, events, allSamples, allEvents)
    }

    /** The constructor raises a retention below one to one. */
    constructor (retention: int)
      ensures this.retention == (if retention < 1 then 1 else retention) && State() == Empty()
    {
      this.retention := if retention < 1 then 1 else retention;
      samples, events, allSamples, allEvents := [], [], [], [];
    }

    /** The body of the loop over the services. */
    method RecordOne(s: Service)
      modifies this
      ensures State() == Add(old(State()), s)
    {
      var previous := Newest(samples, s.id);
      if previous != Some(s.status) {
        events := events + [Event(s.id, previous, s.status)];
        allEvents := allEvents + [Event(s.id, previous, s.status)];
      }
      samples := samples + [Sample(s.id, s.status)];
      allSamples := allSamples + [Sample(s.id, s.status)];
    }

    /** The two deletions that end `_record`. */
    method PruneTables()
      modifies this`samples, this`events
      ensures State() == Prune(old(State()), retention)
    {
      if |samples| > retention {
        samples := samples[|samples| - retention..];
      }
      if |events| > retention {
        events := events[|events| - retention..];
      }
    }

    /** `_record`. */
    method RecordServices(ss: seq<Service>)
      modifies this
      ensures State() == Record(old(State()), ss, retention)
    {
      for i := 0 to |ss|
        invariant State() == AddAll(old(State()), ss[..i])
      {
        assert ss[..i + 1][..i] == ss[..i];
        RecordOne(ss[i]);
      }
      assert ss[..|ss|] == ss;
      PruneTables();
    }
  }

  // -------------------------------------------------------------- agreement

  predicate AgreeAt(samples: seq<Sample>, events: seq<Event>, id: string) {
    Newest(samples, id).Some? && NewestEvent(events, id).Some? ==> Newest(samples, id) == NewestEvent(events, id)
  }

  /** A service with a sample and an event has the same status in the newest of both. */
  ghost predicate Agree(samples: seq<Sample>, events: seq<Event>) {
    forall id :: AgreeAt(samples, events, id)
  }

  lemma AddAgrees(l: Log, s: Service)
    requires Agree(l.samples, l.events)
    ensures Agree(Add(l, s).samples, Add(l, s).events)
  {
    var l' := Add(l, s);
    assert l'.samples[..|l.samples|] == l.samples;
    forall id
      ensures AgreeAt(l'.samples, l'.events, id)
    {
      assert AgreeAt(l.samples, l.events, id);
      if |l'.events| > |l.events| {
        assert l'.events[..|l.events|] == l.events;
      } else {
        assert l'.events == l.events;
      }
    }
  }

  /** Pruning removes a service's newest row only with all its others. */
  lemma {:induction false} KeepNewest(samples: seq<Sample>, n: nat, id: string)
    ensures Newest(Keep(samples, n), id).Some? ==> Newest(Keep(samples, n), id) == Newest(samples, id)
  {
    if n > 0 && |samples| > n {
      KeepNewest(samples[..|samples| - 1], n - 1, id);
      var k := Keep(samples, n);
      assert k[..|k| - 1] == Keep(samples[..|samples| - 1], n - 1);
    }
  }

  lemma {:induction false} KeepNewestEvent(events: seq<Event>, n: nat, id: string)
    ensures NewestEvent(Keep(events, n), id).Some? ==> NewestEvent(Keep(events, n), id) == NewestEvent(events, id)
  {
    if n > 0 && |events| > n {
      KeepNewestEvent(events[..|events| - 1], n - 1, id);
      var k := Keep(events, n);
      assert k[..|k| - 1] == Keep(events[..|events| - 1], n - 1);
    }
  }

  lemma {:induction false} AddAllAgrees(l: Log, ss: seq<Service>)
    requires Agree(l.samples, l.events)
    ensures Agree(AddAll(l, ss).samples, AddAll(l, ss).events)
  {
    if ss != [] {
      AddAllAgrees(l, ss[..|ss| - 1]);
      AddAgrees(AddAll(l, ss[..|ss| - 1]), ss[|ss| - 1]);
    }
  }

  /** After any snapshots and prunings, whatever is retained of both tables agrees. */
  lemma {:induction false} RetainedAgree(snapshots: seq<seq<Service>>, retention: nat)
    ensures Agree(RecordAll(snapshots, retention).samples, RecordAll(snapshots, retention).events)
  {
    if snapshots != [] {
      var l := RecordAll(snapshots[..|snapshots| - 1], retention);
      RetainedAgree(snapshots[..|snapshots| - 1], retention);
      AddAllAgrees(l, snapshots[|snapshots| - 1]);
      var full := AddAll(l, snapshots[|snapshots| - 1]);
      forall id
        ensures AgreeAt(Keep(full.samples, retention), Keep(full.events, retention), id)
      {
        assert AgreeAt(full.samples, full.events, id);
        KeepNewest(full.samples, retention, id);
        KeepNewestEvent(full.events, retention, id);
      }
    }
  }

  // -------------------------------------------------------------- retention

  /** The newest rows of `all`, `n` of them or all there are. */
  ghost predicate AreNewest<T>(rows: seq<T>, all: seq<T>, n: nat) {
    && |rows| == (if |all| < n then |all| else n)
    && rows == all[|all| - |rows|..]
  }

  lemma KeepNewestOf<T>(rows: seq<T>, all: seq<T>, more: seq<T>, n: nat)
    requires AreNewest(rows, all, n)
    ensures AreNewest(Keep(rows + more, n), all + more, n)
  {
  }

  lemma AppendTwice<T>(a: seq<T>, b: seq<T>, c: seq<T>)
    ensures a + (b + c) == a + b + c
  {
  }

  /** What a snapshot appends to the retained tables it appends to the complete ones. */
  lemma {:induction false} AppendedAlike(l: Log, ss: seq<Service>) returns (samples: seq<Sample>, events: seq<Event>)
    ensures var l' := AddAll(l, ss);
            && l'.samples == l.samples + samples && l'.allSamples == l.allSamples + samples
            && l'.events == l.events + events && l'.allEvents == l.allEvents + events
  {
    samples, events := [], [];
    if ss == [] {
      assert l.samples + [] == l.samples && l.allSamples + [] == l.allSamples;
      assert l.events + [] == l.events && l.allEvents + [] == l.allEvents;
    } else {
      var before, s := AddAll(l, ss[..|ss| - 1]), ss[|ss| - 1];
      var a, b := AppendedAlike(l, ss[..|ss| - 1]);
      var row := [Sample(s.id, s.status)];
      var e := if Newest(before.samples, s.id) != Some(s.status) then [Event(s.id, Newest(before.samples, s.id), s.status)] else [];
      samples, events := a + row, b + e;
      AppendTwice(l.samples, a, row);
      AppendTwice(l.allSamples, a, row);
      AppendTwice(l.events, b, e);
      AppendTwice(l.allEvents, b, e);
    }
  }

  /** Both tables hold exactly the newest rows ever inserted, as many as the retention allows. */
  lemma {:induction false} RetainsNewest(snapshots: seq<seq<Service>>, retention: nat)
    ensures var l := RecordAll(snapshots, retention);
            AreNewest(l.samples, l.allSamples, retention) && AreNewest(l.events, l.allEvents, retention)
  {
    if snapshots != [] {
      var init, last := snapshots[..|snapshots| - 1], snapshots[|snapshots| - 1];
      var l := RecordAll(init, retention);
      RetainsNewest(init, retention);
      var samples, events := AppendedAlike(l, last);
      KeepNewestOf(l.samples, l.allSamples, samples, retention);
      KeepNewestOf(l.events, l.allEvents, events, retention);
    }
  }

  function SamplesIn(ss: seq<Service>): seq<Sample> {
    seq(|ss|, i requires 0 <= i < |ss| => Sample(ss[i].id, ss[i].status))
  }

  /** Every service of every snapshot, in order. */
  function Sampled(snapshots: seq<seq<Service>>): seq<Sample> {
    if snapshots == [] then []
    else Sampled(snapshots[..|snapshots| - 1]) + SamplesIn(snapshots[|snapshots| - 1])
  }

  lemma {:induction false} AddAllSamples(l: Log, ss: seq<Service>)
    ensures AddAll(l, ss).allSamples == l.allSamples + SamplesIn(ss)
  {
    if ss == [] {
      assert l.allSamples + [] == l.allSamples;
    } else {
      var init, s := ss[..|ss| - 1], ss[|ss| - 1];
      AddAllSamples(l, init);
      assert SamplesIn(ss) == SamplesIn(init) + [Sample(s.id, s.status)];
      AppendTwice(l.allSamples, SamplesIn(init), [Sample(s.id, s.status)]);
    }
  }

  /** Everything ever sampled is every service of every snapshot, in order. */
  lemma {:induction false} EverySnapshotSampled(snapshots: seq<seq<Service>>, retention: nat)
    ensures RecordAll(snapshots, retention).allSamples == Sampled(snapshots)
  {
    if snapshots != [] {
      var init, last := snapshots[..|snapshots| - 1], snapshots[|snapshots| - 1];
      EverySnapshotSampled(init, retention);
      AddAllSamples(RecordAll(init, retention), last);
    }
  }

  // ------------------------------------------------------ the complete log

  function StatusesOf(samples: seq<Sample>, id: string): seq<Status> {
    if samples == [] then []
    else StatusesOf(samples[..|samples| - 1], id)
         + if samples[|samples| - 1].service == id then [samples[|samples| - 1].status] else []
  }

  function EventsOf(events: seq<Event>, id: string): seq<Event> {
    if events == [] then []
    else EventsOf(events[..|events| - 1], id) + if events[|events| - 1].service == id then [events[|events| - 1]] else []
  }

  /** The events of a status sequence: each old status is the previous new one, the first has none. */
  function Chain(id: string, statuses: seq<Status>): seq<Event> {
    seq(|statuses|, i requires 0 <= i < |statuses| =>
      Event(id, if i == 0 then None else Some(statuses[i - 1]), statuses[i]))
  }

  function Last(statuses: seq<Status>): Option<Status> {
    if statuses == [] then None else Some(statuses[|statuses| - 1])
  }

  /** The complete log is the chain of the sampled statuses, and the newest sample is retained. */
  ghost predicate Complete(l: Log, id: string) {
    && EventsOf(l.allEvents, id) == Chain(id, Squash(StatusesOf(l.allSamples, id)))
    && Newest(l.samples, id) == Last(StatusesOf(l.allSamples, id))
  }

  lemma StatusesAppend(samples: seq<Sample>, row: Sample, id: string)
    ensures StatusesOf(samples + [row], id) == StatusesOf(samples, id) + if row.service == id then [row.status] else []
  {
    assert (samples + [row])[..|samples|] == samples;
  }

  lemma EventsAppend(events: seq<Event>, e: Event, id: string)
    ensures EventsOf(events + [e], id) == EventsOf(events, id) + if e.service == id then [e] else []
  {
    assert (events + [e])[..|events|] == events;
  }

  lemma ChainAppend(id: string, statuses: seq<Status>, status: Status)
    ensures Chain(id, statuses + [status]) == Chain(id, statuses) + [Event(id, Last(statuses), status)]
  {
  }

  lemma NewestAppend(samples: seq<Sample>, row: Sample, id: string)
    ensures Newest(samples + [row], id) == if row.service == id then Some(row.status) else Newest(samples, id)
  {
    assert (samples + [row])[..|samples|] == samples;
  }

  lemma AddComplete(l: Log, s: Service, id: string)
    requires Complete(l, id)
    ensures Complete(Add(l, s), id)
  {
    var row, old_ := Sample(s.id, s.status), Newest(l.samples, s.id);
    StatusesAppend(l.allSamples, row, id);
    NewestAppend(l.samples, row, id);
    if old_ == Some(s.status) {
      assert l.allEvents + [] == l.allEvents;
    } else {
      EventsAppend(l.allEvents, Event(s.id, old_, s.status), id);
    }
    if s.id == id {
      var before := StatusesOf(l.allSamples, id);
      SquashAppend(before, s.status);
      SquashMeaning(before);
      ChainAppend(id, Squash(before), s.status);
    } else {
      assert StatusesOf(l.allSamples, id) + [] == StatusesOf(l.allSamples, id);
      assert EventsOf(l.allEvents, id) + [] == EventsOf(l.allEvents, id);
    }
  }

  lemma {:induction false} AddAllComplete(l: Log, ss: seq<Service>, id: string)
    requires Complete(l, id)
    ensures Complete(AddAll(l, ss), id)
  {
    if ss != [] {
      AddAllComplete(l, ss[..|ss| - 1], id);
      AddComplete(AddAll(l, ss[..|ss| - 1]), ss[|ss| - 1], id);
    }
  }

  predicate Appears(id: string, ss: seq<Service>) {
    exists i :: 0 <= i < |ss| && ss[i].id == id
  }

  lemma KeepAppend<T>(rows: seq<T>, row: T, n: nat)
    requires n > 0
    ensures Keep(rows + [row], n) == Keep(rows, n - 1) + [row]
  {
  }

  /** Pruning to `n` rows keeps a service's newest row if one of its rows is among the last `n`. */
  lemma {:induction false} KeepsRecent(rows: seq<Sample>, n: nat, i: nat, id: string)
    requires |rows| - n <= i < |rows| && rows[i].service == id
    ensures Newest(Keep(rows, n), id) == Newest(rows, id)
  {
    var init, last := rows[..|rows| - 1], rows[|rows| - 1];
    KeepAppend(init, last, n);
    NewestAppend(init, last, id);
    NewestAppend(Keep(init, n - 1), last, id);
    assert rows == init + [last];
    if last.service != id {
      KeepsRecent(init, n - 1, i, id);
    }
  }

  lemma {:induction false} AddAllRows(l: Log, ss: seq<Service>)
    ensures var rows := AddAll(l, ss).samples;
            |rows| == |l.samples| + |ss| && forall i | 0 <= i < |ss| :: rows[|l.samples| + i].service == ss[i].id
  {
    if ss != [] {
      AddAllRows(l, ss[..|ss| - 1]);
    }
  }

  /** A row of the last snapshot survives a pruning to at least the snapshot's size. */
  lemma RetainedAfter(l: Log, ss: seq<Service>, n: nat, id: string)
    requires |ss| <= n && Appears(id, ss)
    ensures Newest(Keep(AddAll(l, ss).samples, n), id) == Newest(AddAll(l, ss).samples, id)
  {
    var i :| 0 <= i < |ss| && ss[i].id == id;
    AddAllRows(l, ss);
    KeepsRecent(AddAll(l, ss).samples, n, |l.samples| + i, id);
  }

  /**
   For a service in every snapshot and a retention of at least the rows of each, the
   complete event log is the repetition-free list of its sampled statuses, chained.
   */
  lemma {:induction false} EventLogIsChain(snapshots: seq<seq<Service>>, retention: nat, id: string)
    requires forall ss | ss in snapshots :: |ss| <= retention && Appears(id, ss)
    ensures Complete(RecordAll(snapshots, retention), id)
  {
    if snapshots != [] {
      var init, last := snapshots[..|snapshots| - 1], snapshots[|snapshots| - 1];
      EventLogIsChain(init, retention, id);
      var l := RecordAll(init, retention);
      AddAllComplete(l, last, id);
      RetainedAfter(l, last, retention, id);
    }
  }
}
