/** Device events, their alerts, and what every recorded event keeps. */
module DeviceEvents {
  import opened Wrappers
  import opened DeviceTable

  datatype Kind = NewDevice | Disconnected | Connected

  datatype Event = Event(id: nat, mac: Mac, kind: Kind)

  datatype AlertKind = NewDeviceAlert | DeviceOfflineAlert

  datatype Alert = Alert(eventId: nat, mac: Mac, kind: AlertKind)

  /** This event calls for this alert: a new device is reported as new, a disconnected one as offline. */
  predicate CallsFor(e: Event, a: Alert) {
    && a.eventId == e.id && a.mac == e.mac
    && ((e.kind == NewDevice && a.kind == NewDeviceAlert) || (e.kind == Disconnected && a.kind == DeviceOfflineAlert))
  }

  /** The events and alerts tables; an unreliable store may fail on any call. */
  class EventService {
    const reliable: bool
    var events: seq<Event>
    var alerts: seq<Alert>

    constructor (reliable: bool)
      ensures this.reliable == reliable && events == [] && alerts == []
    {
      this.reliable, events, alerts := reliable, [], [];
    }

    /** `record_event`: the new event's identifier, or None when the store failed. */
    method RecordEvent(mac: Mac, kind: Kind) returns (id: Option<nat>)
      modifies this`events
      ensures id.Some? ==> events == old(events) + [Event(id.value, mac, kind)] && id.value == |old(events)|
      ensures id.None? ==> events == old(events) && !reliable
    {
      var fails: bool := *;
      if !reliable && fails {
        return None;
      }
      id := Some(|events|);
      events := events + [Event(|events|, mac, kind)];
    }

    /** `create_alert`. */
    method CreateAlert(mac: Mac, eventId: nat, kind: AlertKind) returns (ok: bool)
      modifies this`alerts
      ensures ok ==> alerts == old(alerts) + [Alert(eventId, mac, kind)]
      ensures !ok ==> alerts == old(alerts) && !reliable
    {
      var fails: bool := *;
      if !reliable && fails {
        return false;
      }
      alerts := alerts + [Alert(eventId, mac, kind)];
      return true;
    }
  }

  // -------------------------------------------------------------- the log

  /** Each device has at most one `new_device` event. */
  predicate NewOnce(es: seq<Event>) {
    forall i, j | 0 <= i < j < |es| && es[i].kind == NewDevice && es[j].kind == NewDevice :: es[i].mac != es[j].mac
  }

  // ------------------------------------------------- events added by a step

  ghost function KindsOf(es: seq<Event>): set<(Kind, Mac)> {
    set e | e in es :: (e.kind, e.mac)
  }

  /** The events are of distinct kind and device, all among `due`; a reliable store recorded every one of them. */
  ghost predicate Recorded(added: seq<Event>, due: set<(Kind, Mac)>, reliable: bool) {
    && KindsOf(added) <= due
    && (reliable ==> KindsOf(added) == due)
    && |added| == |KindsOf(added)|
  }

  /** The log grew by events recorded for `due`. */
  ghost predicate Grew(before: seq<Event>, after: seq<Event>, due: set<(Kind, Mac)>, reliable: bool) {
    before <= after && Recorded(after[|before|..], due, reliable)
  }

  lemma KindsOfConcat(a: seq<Event>, b: seq<Event>)
    ensures KindsOf(a + b) == KindsOf(a) + KindsOf(b)
  {
    assert forall e :: e in a + b <==> e in a || e in b;
  }

  lemma {:induction false} KindsOfSize(es: seq<Event>)
    ensures |KindsOf(es)| <= |es|
  {
    if es != [] {
      var init, e := es[..|es| - 1], es[|es| - 1];
      KindsOfSize(init);
      KindsOfConcat(init, [e]);
      assert es == init + [e];
      assert KindsOf([e]) == {(e.kind, e.mac)};
    }
  }

  /** No two events of one recording are alike. */
  lemma {:induction false} RecordedDistinct(added: seq<Event>, i: nat, j: nat)
    requires |added| == |KindsOf(added)| && i < j < |added|
    ensures (added[i].kind, added[i].mac) != (added[j].kind, added[j].mac)
  {
    if (added[i].kind, added[i].mac) == (added[j].kind, added[j].mac) {
      var rest := added[..j] + added[j + 1..];
      assert rest[i] == added[i];
      assert added == added[..j] + [added[j]] + added[j + 1..];
      assert KindsOf(rest) == KindsOf(added);
      KindsOfSize(rest);
    }
  }

  lemma GrewNothing(es: seq<Event>, reliable: bool)
    ensures Grew(es, es, {}, reliable)
  {
    assert es[|es|..] == [];
  }

  lemma GrewOne(es: seq<Event>, e: Event, reliable: bool)
    ensures Grew(es, es + [e], {(e.kind, e.mac)}, reliable)
  {
    assert (es + [e])[|es|..] == [e];
    assert KindsOf([e]) == {(e.kind, e.mac)};
  }

  lemma GrewMissed(es: seq<Event>, due: set<(Kind, Mac)>)
    ensures Grew(es, es, due, false)
  {
    assert es[|es|..] == [];
  }

  lemma GrewTwice(a: seq<Event>, b: seq<Event>, c: seq<Event>, s: set<(Kind, Mac)>, t: set<(Kind, Mac)>, reliable: bool)
    requires Grew(a, b, s, reliable) && Grew(b, c, t, reliable) && s !! t
    ensures Grew(a, c, s + t, reliable)
  {
    assert c[|a|..] == b[|a|..] + c[|b|..];
    KindsOfConcat(b[|a|..], c[|b|..]);
    assert KindsOf(b[|a|..]) !! KindsOf(c[|b|..]);
  }

  // ------------------------------------------------- what every event keeps

  predicate Numbered(events: seq<Event>) {
    forall i | 0 <= i < |events| :: events[i].id == i
  }

  /** Every alert stands once and is called for by an event. */
  ghost predicate Founded(events: seq<Event>, alerts: seq<Alert>) {
    && (forall i, j | 0 <= i < j < |alerts| :: alerts[i] != alerts[j])
    && (forall a | a in alerts :: exists e :: e in events && CallsFor(e, a))
  }

  /** Every alert that an event calls for is there. */
  ghost predicate Answered(events: seq<Event>, alerts: seq<Alert>) {
    forall e, a | e in events && CallsFor(e, a) :: a in alerts
  }

  /**
   No alert is without its event, and on a reliable store no event without its alert; each new device is in
   the table and was reported once.
   */
  ghost predicate Consistent(rows: map<Mac, Row>, events: seq<Event>, alerts: seq<Alert>, reliable: bool) {
    && Numbered(events) && Founded(events, alerts) && (reliable ==> Answered(events, alerts))
    && NewOnce(events)
    && (forall e | e in events && e.kind == NewDevice :: e.mac in rows)
  }

  /** The events of a store and its alerts, one for each `new_device` and each `disconnected` event and no others. */
  ghost predicate InStep(events: seq<Event>, alerts: seq<Alert>) {
    && (forall i, j | 0 <= i < j < |alerts| :: alerts[i] != alerts[j])
    && forall id, m, k :: Alert(id, m, k) in alerts <==>
         if k == NewDeviceAlert then Event(id, m, NewDevice) in events else Event(id, m, Disconnected) in events
  }

  lemma ReliableInStep(rows: map<Mac, Row>, events: seq<Event>, alerts: seq<Alert>)
    requires Consistent(rows, events, alerts, true)
    ensures InStep(events, alerts)
  {
    forall id, m, k
      ensures Alert(id, m, k) in alerts <==>
                if k == NewDeviceAlert then Event(id, m, NewDevice) in events else Event(id, m, Disconnected) in events
    {
      var e := Event(id, m, if k == NewDeviceAlert then NewDevice else Disconnected);
      assert CallsFor(e, Alert(id, m, k));
      if Alert(id, m, k) in alerts {
        var d :| d in events && CallsFor(d, Alert(id, m, k));
        assert d == e;
      }
    }
  }

  /** The event's alert is added, if it calls for one and the store does not fail. */
  ghost predicate Follows(e: Event, alerts: seq<Alert>, alerts': seq<Alert>, reliable: bool) {
    || (exists a :: CallsFor(e, a) && alerts' == alerts + [a])
    || (alerts' == alerts && (reliable ==> forall a :: !CallsFor(e, a)))
  }

  /** One attempt to record an event with its alert, on a store that may fail at either. */
  ghost predicate Attempted(mac: Mac, kind: Kind, events: seq<Event>, events': seq<Event>,
                            alerts: seq<Alert>, alerts': seq<Alert>, reliable: bool) {
    var e := Event(|events|, mac, kind);
    || (events' == events + [e] && Follows(e, alerts, alerts', reliable))
    || (!reliable && events' == events && alerts' == alerts)
  }

  lemma AttemptGrows(mac: Mac, kind: Kind, events: seq<Event>, events': seq<Event>,
                     alerts: seq<Alert>, alerts': seq<Alert>, reliable: bool)
    requires Attempted(mac, kind, events, events', alerts, alerts', reliable)
    ensures Grew(events, events', {(kind, mac)}, reliable)
  {
    GrewOne(events, Event(|events|, mac, kind), reliable);
    GrewMissed(events, {(kind, mac)});
  }

  lemma NewOnceAppend(events: seq<Event>, e: Event)
    requires NewOnce(events) && (e.kind == NewDevice ==> forall d | d in events && d.kind == NewDevice :: d.mac != e.mac)
    ensures NewOnce(events + [e])
  {
    forall i, j | 0 <= i < j < |events| + 1 && (events + [e])[i].kind == NewDevice && (events + [e])[j].kind == NewDevice
      ensures (events + [e])[i].mac != (events + [e])[j].mac
    {
      assert events[i] in events;
    }
  }

  lemma AnsweredAppend(events: seq<Event>, e: Event, alerts: seq<Alert>, alerts': seq<Alert>)
    requires Answered(events, alerts) && Follows(e, alerts, alerts', true)
    ensures Answered(events + [e], alerts')
  {
    forall d, a | d in events + [e] && CallsFor(d, a)
      ensures a in alerts'
    {
      if d != e {
        assert d in events;
      }
    }
  }

  lemma FoundedAppend(events: seq<Event>, e: Event, alerts: seq<Alert>, alerts': seq<Alert>, reliable: bool)
    requires Numbered(events) && e.id == |events| && Founded(events, alerts) && Follows(e, alerts, alerts', reliable)
    ensures Numbered(events + [e]) && Founded(events + [e], alerts')
  {
    assert e in events + [e];
    forall a | a in alerts
      ensures a.eventId < |events| && exists d :: d in events + [e] && CallsFor(d, a)
    {
      var d :| d in events && CallsFor(d, a);
      assert d in events + [e];
    }
  }

  /** An event of a device in the table, for a new device its first, keeps what is known of the log. */
  lemma AttemptKeeps(rows: map<Mac, Row>, mac: Mac, kind: Kind, events: seq<Event>, events': seq<Event>,
                     alerts: seq<Alert>, alerts': seq<Alert>, reliable: bool)
    requires Consistent(rows, events, alerts, reliable) && mac in rows
    requires kind == NewDevice ==> forall d | d in events && d.kind == NewDevice :: d.mac != mac
    requires Attempted(mac, kind, events, events', alerts, alerts', reliable)
    ensures Consistent(rows, events', alerts', reliable)
  {
    var e := Event(|events|, mac, kind);
    NewOnceAppend(events, e);
    if events' != events {
      FoundedAppend(events, e, alerts, alerts', reliable);
      if reliable {
        AnsweredAppend(events, e, alerts, alerts');
      }
    }
  }
}
