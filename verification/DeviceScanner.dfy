/**
 One scan of the network: local sources are merged, the router's snapshot overrides
 them, the device table is driven through its transitions and events are recorded.
 Sources may fail outright or at any entry.
 */
module DeviceScanner {
  import opened Wrappers
  import opened DeviceTable
  import opened ChesterNetwork
  import opened DeviceEvents

  // ------------------------------------------------------------- merging

  /** An ARP answer, its MAC normalised; None where normalisation fails. */
  datatype ArpDevice = ArpDevice(mac: Option<Mac>, ip: Ip, hostname: Option<string>)

  /** A parsed DHCP lease; the MAC may be the empty string. */
  datatype DhcpLease = DhcpLease(mac: Mac, ip: Ip, hostname: Option<string>)

  function WithArp(merged: map<Mac, Info>, d: ArpDevice): map<Mac, Info> {
    if d.mac.None? then merged else merged[d.mac.value := Info(d.mac.value, d.ip, d.hostname, "arp")]
  }

  function WithDhcp(merged: map<Mac, Info>, l: DhcpLease): map<Mac, Info> {
    if l.mac == "" then merged
    else if l.mac in merged then
      if !Given(merged[l.mac].hostname) && Given(l.hostname) then merged[l.mac := merged[l.mac].(hostname := l.hostname)]
      else merged
    else merged[l.mac := Info(l.mac, l.ip, l.hostname, "dhcp")]
  }

  function MergedArp(ds: seq<ArpDevice>): map<Mac, Info> {
    if ds == [] then map[] else WithArp(MergedArp(ds[..|ds| - 1]), ds[|ds| - 1])
  }

  function Merged(ds: seq<ArpDevice>, ls: seq<DhcpLease>): map<Mac, Info> {
    if ls == [] then MergedArp(ds) else WithDhcp(Merged(ds, ls[..|ls| - 1]), ls[|ls| - 1])
  }

  /** `_merge_arp_and_dhcp`. */
  method MergeArpAndDhcp(ds: seq<ArpDevice>, ls: seq<DhcpLease>) returns (merged: map<Mac, Info>)
    ensures merged == Merged(ds, ls)
  {
    merged := map[];
    for i := 0 to |ds|
      invariant merged == MergedArp(ds[..i])
    {
      assert ds[..i + 1][..i] == ds[..i];
      if ds[i].mac.Some? {
        merged := merged[ds[i].mac.value := Info(ds[i].mac.value, ds[i].ip, ds[i].hostname, "arp")];
      }
    }
    assert ds[..|ds|] == ds;
    for i := 0 to |ls|
      invariant merged == Merged(ds, ls[..i])
    {
      assert ls[..i + 1][..i] == ls[..i];
      var l := ls[i];
      if l.mac != "" {
        if l.mac in merged {
          if !Given(merged[l.mac].hostname) && Given(l.hostname) {
            merged := merged[l.mac := merged[l.mac].(hostname := l.hostname)];
          }
        } else {
          merged := merged[l.mac := Info(l.mac, l.ip, l.hostname, "dhcp")];
        }
      }
    }
    assert ls[..|ls|] == ls;
  }

  predicate IsLastArp(ds: seq<ArpDevice>, i: nat, m: Mac) {
    i < |ds| && ds[i].mac == Some(m) && forall j | i < j < |ds| :: ds[j].mac != Some(m)
  }

  lemma {:induction false} MergedArpMeaning(ds: seq<ArpDevice>, m: Mac)
    ensures m in MergedArp(ds) <==> exists i: nat :: IsLastArp(ds, i, m)
    ensures forall i: nat | IsLastArp(ds, i, m) ::
              m in MergedArp(ds) && MergedArp(ds)[m] == Info(m, ds[i].ip, ds[i].hostname, "arp")
  {
    if ds != [] {
      var n := |ds| - 1;
      var init := ds[..n];
      MergedArpMeaning(init, m);
      if ds[n].mac == Some(m) {
        assert IsLastArp(ds, n, m);
      } else {
        forall i: nat
          ensures IsLastArp(ds, i, m) <==> IsLastArp(init, i, m)
        {
        }
      }
    }
  }

  predicate IsFirstLease(ls: seq<DhcpLease>, i: nat, m: Mac) {
    i < |ls| && ls[i].mac == m && m != "" && forall j | 0 <= j < i :: ls[j].mac != m
  }

  /** Any lease of a device is its first or comes after its first. */
  lemma {:induction false} FirstOrEarlier(ls: seq<DhcpLease>, n: nat, m: Mac)
    requires n < |ls| && ls[n].mac == m && m != ""
    ensures exists i: nat :: i <= n && IsFirstLease(ls, i, m)
    ensures (forall i: nat | i < n :: !IsFirstLease(ls[..n], i, m)) ==> IsFirstLease(ls, n, m)
  {
    if j :| 0 <= j < n && ls[j].mac == m {
      FirstOrEarlier(ls, j, m);
      var i: nat :| i <= j && IsFirstLease(ls, i, m);
      assert IsFirstLease(ls[..n], i, m);
    } else {
      assert IsFirstLease(ls, n, m);
    }
  }

  lemma FirstLeaseOfInit(ls: seq<DhcpLease>, i: nat, m: Mac)
    requires i < |ls| - 1
    ensures IsFirstLease(ls, i, m) <==> IsFirstLease(ls[..|ls| - 1], i, m)
  {
    assert forall j | 0 <= j < |ls| - 1 :: ls[j] == ls[..|ls| - 1][j];
  }

  /** The last lease is a device's first if no earlier one is. */
  lemma FirstLeases(ls: seq<DhcpLease>, m: Mac)
    requires ls != []
    ensures var n := |ls| - 1;
            && (forall i: nat | i < n :: IsFirstLease(ls, i, m) <==> IsFirstLease(ls[..n], i, m))
            && (IsFirstLease(ls, n, m) <==>
                  ls[n].mac == m && m != "" && !exists i: nat :: IsFirstLease(ls[..n], i, m))
  {
    var n := |ls| - 1;
    forall i: nat | i < n
      ensures IsFirstLease(ls, i, m) <==> IsFirstLease(ls[..n], i, m)
    {
      FirstLeaseOfInit(ls, i, m);
    }
    if ls[n].mac == m && m != "" {
      FirstOrEarlier(ls, n, m);
    }
  }

  /** ARP decides the address of every device it saw; a device only DHCP knows has its first lease's address. */
  lemma {:induction false} MergedMeaning(ds: seq<ArpDevice>, ls: seq<DhcpLease>, m: Mac)
    ensures m in Merged(ds, ls) <==> m in MergedArp(ds) || exists i: nat :: IsFirstLease(ls, i, m)
    ensures m in Merged(ds, ls) ==> Merged(ds, ls)[m].mac == m
    ensures m in MergedArp(ds) ==>
              Merged(ds, ls)[m].ip == MergedArp(ds)[m].ip && Merged(ds, ls)[m].source == "arp"
    ensures forall i: nat | m !in MergedArp(ds) && IsFirstLease(ls, i, m) ::
              Merged(ds, ls)[m].ip == ls[i].ip && Merged(ds, ls)[m].source == "dhcp"
  {
    MergedArpMeaning(ds, m);
    if ls != [] {
      var n := |ls| - 1;
      var init := ls[..n];
      MergedMeaning(ds, init, m);
      FirstLeases(ls, m);
      if i: nat :| IsFirstLease(init, i, m) {
        assert IsFirstLease(ls, i, m);
      }
    }
  }

  /** The first lease of a device that carries a host name. */
  predicate IsFirstNamed(ls: seq<DhcpLease>, i: nat, m: Mac) {
    && i < |ls| && ls[i].mac == m && Given(ls[i].hostname)
    && forall j | 0 <= j < i :: ls[j].mac != m || !Given(ls[j].hostname)
  }

  lemma {:induction false} NamedOrEarlier(ls: seq<DhcpLease>, n: nat, m: Mac)
    requires n < |ls| && ls[n].mac == m && Given(ls[n].hostname)
    ensures exists i: nat :: i <= n && IsFirstNamed(ls, i, m)
  {
    if j :| 0 <= j < n && ls[j].mac == m && Given(ls[j].hostname) {
      NamedOrEarlier(ls, j, m);
    } else {
      assert IsFirstNamed(ls, n, m);
    }
  }

  lemma FirstNamed(ls: seq<DhcpLease>, m: Mac)
    requires ls != []
    ensures var n := |ls| - 1;
            && (forall i: nat | i < n :: IsFirstNamed(ls, i, m) <==> IsFirstNamed(ls[..n], i, m))
            && (IsFirstNamed(ls, n, m) <==>
                  ls[n].mac == m && Given(ls[n].hostname) && !exists i: nat :: IsFirstNamed(ls[..n], i, m))
  {
    var n := |ls| - 1;
    assert forall j | 0 <= j < n :: ls[j] == ls[..n][j];
    if j :| 0 <= j < n && ls[j].mac == m && Given(ls[j].hostname) {
      NamedOrEarlier(ls[..n], j, m);
    }
  }

  lemma NamedIsMerged(ds: seq<ArpDevice>, ls: seq<DhcpLease>, i: nat, m: Mac)
    requires IsFirstNamed(ls, i, m) && m != ""
    ensures m in Merged(ds, ls)
  {
    FirstOrEarlier(ls, i, m);
    MergedMeaning(ds, ls, m);
  }

  /** A host name that ARP gave stays; otherwise the first lease with one supplies it. */
  lemma {:induction false} HostnameMeaning(ds: seq<ArpDevice>, ls: seq<DhcpLease>, m: Mac)
    requires m in Merged(ds, ls) && m != ""
    ensures var name, known := Merged(ds, ls)[m].hostname, m in MergedArp(ds) && Given(MergedArp(ds)[m].hostname);
            && (known ==> name == MergedArp(ds)[m].hostname)
            && (!known ==> forall i: nat | IsFirstNamed(ls, i, m) :: name == ls[i].hostname)
            && (!known && (forall i: nat :: !IsFirstNamed(ls, i, m)) ==> !Given(name))
  {
    if ls != [] {
      var n := |ls| - 1;
      var init := ls[..n];
      FirstNamed(ls, m);
      assert IsFirstNamed(ls, n, m) || !IsFirstNamed(ls, n, m);
      if m in Merged(ds, init) {
        HostnameMeaning(ds, init, m);
      } else {
        forall i: nat
          ensures !IsFirstNamed(init, i, m)
        {
          if IsFirstNamed(init, i, m) {
            NamedIsMerged(ds, init, i, m);
          }
        }
        MergedMeaning(ds, init, m);
      }
    }
  }

  lemma MergedWellKeyed(ds: seq<ArpDevice>, ls: seq<DhcpLease>)
    ensures WellKeyed(Merged(ds, ls))
  {
    forall m | m in Merged(ds, ls)
      ensures Merged(ds, ls)[m].mac == m
    {
      MergedMeaning(ds, ls, m);
    }
  }

  // ---------------------------------------------------------- scan inputs

  /**
   A client in the Deco's answer. A malformed one raises when it is reached; one whose
   name cannot be stored raises after its device was written as present.
   */
  datatype DecoClient = MalformedClient | Client(online: bool, mac: Option<Mac>, ip: Ip, nameFails: bool)

  datatype DecoNode = MalformedNode | Node(mac: Option<Mac>)

  /** The Deco's two answers; Raised where the call itself fails. */
  datatype DecoFeed = DecoFeed(clients: Result<seq<DecoClient>>, nodes: Result<seq<DecoNode>>)

  /** Everything one scan observes. */
  datatype Feed = Feed(arp: Result<seq<ArpDevice>>, dhcp: Result<seq<DhcpLease>>, subnet: Subnet,
                       snapshot: Option<NetworkSnapshot>, now: nat, deco: Option<DecoFeed>, chester: Option<(Mac, string)>)

  /** The clients that the Deco reports present, up to the first that raises. */
  function PresentClients(es: seq<DecoClient>): set<Mac> {
    if es == [] || es[0].MalformedClient? then {}
    else if !es[0].online || es[0].mac.None? then PresentClients(es[1..])
    else if es[0].nameFails then {}
    else {es[0].mac.value} + PresentClients(es[1..])
  }

  /** The client written as present before storing its name raised, if it was not counted before. */
  function HalfWritten(es: seq<DecoClient>, counted: set<Mac>): set<Mac>
    decreases |es|
  {
    if es == [] || es[0].MalformedClient? then {}
    else if !es[0].online || es[0].mac.None? then HalfWritten(es[1..], counted)
    else if es[0].nameFails then {es[0].mac.value} - counted
    else HalfWritten(es[1..], counted + {es[0].mac.value})
  }

  /** All node MACs. */
  function NodeMacs(es: seq<DecoNode>): set<Mac> {
    set e | e in es && e.Node? && e.mac.Some? :: e.mac.value
  }

  /** A malformed node anywhere means the whole step is lost. */
  predicate NodesParse(es: seq<DecoNode>) {
    forall e | e in es :: e.Node?
  }

  /** The merged view a scan writes, or Raised where the scan stops before writing. */
  function View(f: Feed): Result<map<Mac, Info>> {
    var arp :- f.arp;
    var dhcp :- f.dhcp;
    var merged := Merged(arp, dhcp);
    if f.snapshot.None? then Ok(merged)
    else ApplySnapshot(merged, Online(f.snapshot.value.neighbors, DEFAULT_MAX_STALE_AGE), f.subnet)
  }

  function Seen(f: Feed): set<Mac> {
    if View(f).Ok? then View(f).value.Keys else {}
  }

  function Clients(f: Feed): seq<DecoClient> {
    if f.deco.Some? && f.deco.value.clients.Ok? then f.deco.value.clients.value else []
  }

  predicate NodesKnown(f: Feed) {
    f.deco.Some? && f.deco.value.nodes.Ok? && NodesParse(f.deco.value.nodes.value)
  }

  /** The node MACs remembered after a scan: those of the last answer that had any. */
  function Remembered(f: Feed, nodes: set<Mac>): set<Mac> {
    if View(f).Ok? && NodesKnown(f) && NodeMacs(f.deco.value.nodes.value) != {} then NodeMacs(f.deco.value.nodes.value)
    else nodes
  }

  /** The node MACs a scan adds to the online set. */
  function DecoNodes(f: Feed, nodes: set<Mac>): set<Mac> {
    if NodesKnown(f) then Remembered(f, nodes) else {}
  }

  function ChesterMac(f: Feed): set<Mac> {
    if f.chester.Some? then {f.chester.value.0} else {}
  }

  /** The devices a scan writes as present and counts as online. */
  function Written(f: Feed): set<Mac> {
    Seen(f) + PresentClients(Clients(f)) + ChesterMac(f)
  }

  /** The device it writes as present without counting it. */
  function Half(f: Feed): set<Mac> {
    HalfWritten(Clients(f), Seen(f))
  }

  /** The online set a scan compares the table with. */
  function OnlineSet(f: Feed, nodes: set<Mac>): set<Mac> {
    Written(f) + DecoNodes(f, nodes)
  }

  // ------------------------------------------------- what a scan makes of it

  /** The table with the given devices of a view written as present. */
  function Persisted(rows: map<Mac, Row>, view: map<Mac, Info>, done: set<Mac>): map<Mac, Row>
    requires done <= view.Keys
  {
    map m | m in rows.Keys + done ::
      if m !in done then rows[m] else if m in rows then Refreshed(rows[m], view[m].ip) else NewRow(view[m].ip)
  }

  /** The table after the view and the router's addresses and reservations are written. */
  function WithView(f: Feed, view: map<Mac, Info>, rows: map<Mac, Row>): map<Mac, Row> {
    var persisted := Persisted(rows, view, view.Keys);
    if f.snapshot.Some? then Mirrored(persisted, f.snapshot.value, f.now) else persisted
  }

  /** A table and the online set so far. */
  datatype Progress = Progress(rows: map<Mac, Row>, online: set<Mac>)

  /** The address written for a client: the Deco's, or the one already known. */
  function ClientIp(rows: map<Mac, Row>, mac: Mac, ip: Ip): Ip {
    if mac !in rows || Given(ip) then ip else rows[mac].ip
  }

  /** The clients loop. */
  function WithClients(rows: map<Mac, Row>, online: set<Mac>, es: seq<DecoClient>): Progress
    decreases |es|
  {
    if es == [] || es[0].MalformedClient? then Progress(rows, online)
    else if !es[0].online || es[0].mac.None? then WithClients(rows, online, es[1..])
    else
      var mac := es[0].mac.value;
      var rows' := if mac in online then rows else WithPresent(rows, mac, ClientIp(rows, mac, es[0].ip));
      if es[0].nameFails then Progress(rows', online) else WithClients(rows', online + {mac}, es[1..])
  }

  /** The table when the transitions begin. */
  function Gathered(f: Feed, view: map<Mac, Info>, rows: map<Mac, Row>): map<Mac, Row> {
    var supplemented := WithClients(WithView(f, view, rows), view.Keys, Clients(f)).rows;
    if f.chester.Some? then WithPresent(supplemented, f.chester.value.0, Some(f.chester.value.1)) else supplemented
  }

  /** Every status agrees with the online set. */
  function Settled(rows: map<Mac, Row>, online: set<Mac>): map<Mac, Row> {
    map m | m in rows :: rows[m].(online := m in online)
  }

  /** The whole table after a scan, from the one it found and the node MACs remembered before. */
  function Scanned(f: Feed, nodes: set<Mac>, rows: map<Mac, Row>): map<Mac, Row> {
    if View(f).Raised? then rows
    else
      var gathered := Gathered(f, View(f).value, rows);
      if OnlineSet(f, nodes) == {} then gathered else Settled(gathered, OnlineSet(f, nodes))
  }

  ghost function NewAmong(done: set<Mac>, rows: map<Mac, Row>): set<(Kind, Mac)> {
    set m | m in done && m !in rows :: (NewDevice, m)
  }

  ghost function NewDue(view: map<Mac, Info>, rows: map<Mac, Row>): set<(Kind, Mac)> {
    NewAmong(view.Keys, rows)
  }

  ghost function LeftDue(rows: map<Mac, Row>, online: set<Mac>): set<(Kind, Mac)> {
    set m | m in rows && rows[m].online && m !in online :: (Disconnected, m)
  }

  ghost function ReturnedDue(rows: map<Mac, Row>, online: set<Mac>): set<(Kind, Mac)> {
    set m | m in rows && !rows[m].online && m in online :: (Connected, m)
  }

  ghost function TransitionsDue(rows: map<Mac, Row>, online: set<Mac>): set<(Kind, Mac)> {
    if online == {} then {} else LeftDue(rows, online) + ReturnedDue(rows, online)
  }

  /** The events a scan owes. */
  ghost function Due(f: Feed, nodes: set<Mac>, rows: map<Mac, Row>): set<(Kind, Mac)> {
    if View(f).Raised? then {}
    else NewDue(View(f).value, rows) + TransitionsDue(Gathered(f, View(f).value, rows), OnlineSet(f, nodes))
  }

  // ----------------------------------------------------------- what it means

  /** The clients loop writes the counted clients and the one whose name fails, and no other row. */
  lemma {:induction false} ClientsMeaning(rows: map<Mac, Row>, online: set<Mac>, es: seq<DecoClient>)
    ensures var r, touched := WithClients(rows, online, es), PresentClients(es) - online + HalfWritten(es, online);
            && r.online == online + PresentClients(es)
            && r.rows.Keys == rows.Keys + touched
            && forall m | m in r.rows :: if m in touched then r.rows[m].online else r.rows[m] == rows[m]
    decreases |es|
  {
    if es != [] && es[0].Client? {
      if !es[0].online || es[0].mac.None? {
        ClientsMeaning(rows, online, es[1..]);
      } else if !es[0].nameFails {
        var mac := es[0].mac.value;
        var rows' := if mac in online then rows else WithPresent(rows, mac, ClientIp(rows, mac, es[0].ip));
        ClientsMeaning(rows', online + {mac}, es[1..]);
      }
    }
  }

  lemma {:induction false} HalfIsUncounted(es: seq<DecoClient>, counted: set<Mac>)
    ensures HalfWritten(es, counted) !! counted
    decreases |es|
  {
    if es != [] && es[0].Client? {
      HalfIsUncounted(es[1..], counted);
      if es[0].mac.Some? {
        HalfIsUncounted(es[1..], counted + {es[0].mac.value});
      }
    }
  }

  /** The first entry that reports this device present, among those the loop reaches. */
  predicate IsFirstClient(es: seq<DecoClient>, i: nat, m: Mac) {
    && i < |es| && es[i].Client? && es[i].online && es[i].mac == Some(m)
    && forall j | 0 <= j < i :: es[j].Client? && (es[j].online && es[j].mac.Some? ==> es[j].mac != Some(m) && !es[j].nameFails)
  }

  lemma FirstClientOfRest(es: seq<DecoClient>, i: nat, m: Mac)
    requires es != [] && es[0].Client? && IsFirstClient(es[1..], i, m)
    requires es[0].online && es[0].mac.Some? ==> es[0].mac != Some(m) && !es[0].nameFails
    ensures IsFirstClient(es, i + 1, m)
  {
    assert forall j | 1 <= j < |es| :: es[1..][j - 1] == es[j];
  }

  /** Every device the clients loop writes is the one its first entry reports, at that entry's address or the one known. */
  lemma {:induction false} ClientAddress(rows: map<Mac, Row>, online: set<Mac>, es: seq<DecoClient>, m: Mac) returns (i: nat)
    requires m in PresentClients(es) - online + HalfWritten(es, online)
    ensures IsFirstClient(es, i, m) && m !in online
    ensures var r := WithClients(rows, online, es).rows;
            m in r && r[m] == WithPresent(rows, m, ClientIp(rows, m, es[i].ip))[m]
    decreases |es|
  {
    if !es[0].online || es[0].mac.None? {
      i := ClientAddress(rows, online, es[1..], m);
      FirstClientOfRest(es, i, m);
      i := i + 1;
    } else {
      var mac := es[0].mac.value;
      var rows' := if mac in online then rows else WithPresent(rows, mac, ClientIp(rows, mac, es[0].ip));
      if mac == m {
        i := 0;
        HalfIsUncounted(es[1..], online + {mac});
        ClientsMeaning(rows', online + {mac}, es[1..]);
      } else {
        i := ClientAddress(rows', online + {mac}, es[1..], m);
        FirstClientOfRest(es, i, m);
        i := i + 1;
      }
    }
  }

  lemma ViewKeepsStatuses(f: Feed, view: map<Mac, Info>, rows: map<Mac, Row>)
    ensures var after := WithView(f, view, rows);
            && after.Keys == rows.Keys + view.Keys
            && forall m | m in after :: after[m].online <==> m in view || rows[m].online
  {
    var persisted := Persisted(rows, view, view.Keys);
    if f.snapshot.Some? {
      var s := f.snapshot.value;
      SyncedMeaning(persisted, Online(s.neighbors, DEFAULT_MAX_STALE_AGE).Keys, IpHints(s, f.now), ReservedIps(s));
    }
  }

  /** Before its transitions a scan sets online exactly what it writes as present. */
  lemma GatheredMeaning(f: Feed, view: map<Mac, Info>, rows: map<Mac, Row>)
    requires View(f) == Ok(view)
    ensures var mid := Gathered(f, view, rows);
            && mid.Keys == rows.Keys + Written(f) + Half(f)
            && forall m | m in mid :: mid[m].online <==> m in Written(f) || m in Half(f) || rows[m].online
  {
    ViewKeepsStatuses(f, view, rows);
    ClientsMeaning(WithView(f, view, rows), view.Keys, Clients(f));
  }

  /**
   A completed scan knows the devices it found and those it wrote. With a device in its
   online set, a device is online exactly if it is in that set; without one, a status
   differs only for a client whose name could not be stored.
   */
  lemma ScannedMeaning(f: Feed, nodes: set<Mac>, rows: map<Mac, Row>)
    requires View(f).Ok?
    ensures var after, online := Scanned(f, nodes, rows), OnlineSet(f, nodes);
            && after.Keys == rows.Keys + Written(f) + Half(f)
            && (online != {} ==> forall m | m in after :: after[m].online <==> m in online)
            && (online == {} ==> forall m | m in after :: after[m].online <==> m in Half(f) || rows[m].online)
  {
    GatheredMeaning(f, View(f).value, rows);
  }

  /** Which events are due, in terms of the table the scan found. */
  lemma DueMeaning(f: Feed, nodes: set<Mac>, rows: map<Mac, Row>, m: Mac)
    requires View(f).Ok?
    ensures (NewDevice, m) in Due(f, nodes, rows) <==> m in View(f).value && m !in rows
    ensures (Disconnected, m) in Due(f, nodes, rows) <==>
              OnlineSet(f, nodes) != {} && m !in OnlineSet(f, nodes) && (m in Half(f) || (m in rows && rows[m].online))
    ensures (Connected, m) in Due(f, nodes, rows) <==>
              m in DecoNodes(f, nodes) && m !in Written(f) + Half(f) && m in rows && !rows[m].online
  {
    GatheredMeaning(f, View(f).value, rows);
  }

  // ---------------------------------------- the online set in terms of the feed

  /** The entry reports this device present. */
  predicate SaysPresent(e: DecoClient, m: Mac) {
    e.Client? && e.online && e.mac == Some(m)
  }

  /** No entry before this one makes the loop raise. */
  predicate Reached(es: seq<DecoClient>, i: nat) {
    i < |es| && forall j | 0 <= j < i :: es[j].Client? && !(es[j].online && es[j].mac.Some? && es[j].nameFails)
  }

  lemma ReachedInRest(es: seq<DecoClient>, i: nat)
    requires es != [] && es[0].Client? && !(es[0].online && es[0].mac.Some? && es[0].nameFails)
    ensures Reached(es, i + 1) <==> Reached(es[1..], i)
  {
    assert forall j | 0 < j < |es| :: es[1..][j - 1] == es[j];
  }

  /** The client is counted at this entry. */
  predicate CountedAt(es: seq<DecoClient>, i: nat, m: Mac) {
    Reached(es, i) && SaysPresent(es[i], m) && !es[i].nameFails
  }

  /** A client is counted exactly if the loop reaches an entry that reports it present and stores its name. */
  lemma {:induction false} PresentMeaning(es: seq<DecoClient>, m: Mac)
    ensures m in PresentClients(es) <==> exists i: nat :: CountedAt(es, i, m)
  {
    if es != [] {
      if es[0].Client? && !(es[0].online && es[0].mac.Some? && es[0].nameFails) {
        PresentMeaning(es[1..], m);
        forall i: nat
          ensures CountedAt(es, i + 1, m) <==> CountedAt(es[1..], i, m)
        {
          ReachedInRest(es, i);
        }
        assert CountedAt(es, 0, m) <==> SaysPresent(es[0], m);
        if i: nat :| CountedAt(es, i, m) {
          assert i > 0 ==> CountedAt(es[1..], i - 1, m);
        }
      } else {
        assert forall i: nat | i > 0 :: !Reached(es, i);
      }
    }
  }

  /** An entry after the first is a device's first exactly if the first entry is not its and raises nothing. */
  lemma FirstClients(es: seq<DecoClient>, m: Mac)
    requires es != [] && es[0].Client? && !(es[0].online && es[0].mac.Some? && es[0].nameFails)
    ensures forall i: nat :: IsFirstClient(es, i + 1, m) <==> !SaysPresent(es[0], m) && IsFirstClient(es[1..], i, m)
  {
    assert forall j | 0 < j < |es| :: es[1..][j - 1] == es[j];
    forall i: nat
      ensures IsFirstClient(es, i + 1, m) <==> !SaysPresent(es[0], m) && IsFirstClient(es[1..], i, m)
    {
    }
  }

  lemma {:induction false} HalfMeaning(es: seq<DecoClient>, counted: set<Mac>, m: Mac)
    ensures m in HalfWritten(es, counted) <==>
              m !in counted && exists i: nat :: IsFirstClient(es, i, m) && es[i].nameFails
    decreases |es|
  {
    if es != [] {
      if es[0].Client? && !(es[0].online && es[0].mac.Some? && es[0].nameFails) {
        var more := if es[0].online && es[0].mac.Some? then counted + {es[0].mac.value} else counted;
        HalfMeaning(es[1..], more, m);
        FirstClients(es, m);
        assert IsFirstClient(es, 0, m) <==> SaysPresent(es[0], m);
      } else {
        assert forall i: nat | i > 0 :: !IsFirstClient(es, i, m);
      }
    }
  }

  /** The view of a scan whose local sources answer: theirs alone, or under the authority of the router's live rows. */
  lemma ViewMeaning(f: Feed, m: Mac)
    ensures View(f).Ok? ==> f.arp.Ok? && f.dhcp.Ok?
    ensures f.arp.Ok? && f.dhcp.Ok? ==>
              var merged := Merged(f.arp.value, f.dhcp.value);
              && (f.snapshot.None? ==> View(f) == Ok(merged))
              && (f.snapshot.Some? ==>
                    var live := Online(f.snapshot.value.neighbors, 120);
                    && (View(f).Raised? <==> SomeFailsToParse(f.subnet, merged))
                    && (View(f).Ok? ==>
                          var view := View(f).value;
                          && (m in view <==> m in live || (m in merged && !OnSubnet(f.subnet, merged[m].ip)))
                          && (m in live ==> view[m].ip == Some(live[m].ip))
                          && (m in view && m !in live ==> view[m] == merged[m])))
  {
    if f.arp.Ok? && f.dhcp.Ok? && f.snapshot.Some? {
      var merged, live := Merged(f.arp.value, f.dhcp.value), Online(f.snapshot.value.neighbors, 120);
      MergedWellKeyed(f.arp.value, f.dhcp.value);
      AppliedContents(merged, live, f.subnet);
      assert View(f) == ApplySnapshot(merged, live, f.subnet);
    }
  }

  /** Node MACs from an answer without a malformed entry; one without any MAC falls back on the remembered ones. */
  ghost predicate AmongNodes(es: seq<DecoNode>, nodes: set<Mac>, m: Mac) {
    && (forall e | e in es :: e.Node?)
    && if exists e :: e in es && e.Node? && e.mac.Some? then Node(Some(m)) in es else m in nodes
  }

  lemma NodeMeaning(es: seq<DecoNode>, m: Mac)
    ensures m in NodeMacs(es) <==> Node(Some(m)) in es
    ensures NodeMacs(es) == {} <==> !exists e :: e in es && e.Node? && e.mac.Some?
  {
    if e :| e in es && e.Node? && e.mac.Some? {
      assert e.mac.value in NodeMacs(es);
    }
  }

  /** A device is in the online set if a local source or the router shows it, the Deco counts it or names it as a node, or it is the router. */
  lemma OnlineSetMeaning(f: Feed, nodes: set<Mac>, m: Mac)
    requires View(f).Ok?
    ensures m in OnlineSet(f, nodes) <==>
              || m in View(f).value
              || (f.deco.Some? && f.deco.value.clients.Ok? && exists i: nat :: CountedAt(f.deco.value.clients.value, i, m))
              || (f.chester.Some? && f.chester.value.0 == m)
              || (f.deco.Some? && f.deco.value.nodes.Ok? && AmongNodes(f.deco.value.nodes.value, nodes, m))
  {
    PresentMeaning(Clients(f), m);
    if f.deco.Some? && f.deco.value.nodes.Ok? {
      NodeMeaning(f.deco.value.nodes.value, m);
    }
  }

  /** The clients loop does not write what the view already holds. */
  lemma ClientsSpareView(f: Feed, view: map<Mac, Info>, rows: map<Mac, Row>, m: Mac)
    requires m in view && view.Keys <= rows.Keys
    ensures var after := WithClients(rows, view.Keys, Clients(f)).rows; m in after && after[m] == rows[m]
  {
    ClientsMeaning(rows, view.Keys, Clients(f));
    HalfIsUncounted(Clients(f), view.Keys);
  }

  lemma ViewAddress(f: Feed, view: map<Mac, Info>, rows: map<Mac, Row>, m: Mac)
    requires m in view && (f.snapshot.None? || m in Online(f.snapshot.value.neighbors, 120))
    ensures var after := WithView(f, view, rows); view.Keys <= after.Keys && after[m].ip == view[m].ip
  {
    if f.snapshot.Some? {
      MirroredMeaning(Persisted(rows, view, view.Keys), f.snapshot.value, f.now, m);
    }
  }

  /** The address a scan leaves: the router's own, or that of the merged view where no reservation or lease corrects it. */
  lemma ScannedAddress(f: Feed, nodes: set<Mac>, rows: map<Mac, Row>, m: Mac)
    requires View(f).Ok?
    ensures f.chester.Some? && f.chester.value.0 == m ==>
              m in Scanned(f, nodes, rows) && Scanned(f, nodes, rows)[m].ip == Some(f.chester.value.1)
    ensures m in View(f).value && !(f.chester.Some? && f.chester.value.0 == m)
            && (f.snapshot.None? || m in Online(f.snapshot.value.neighbors, 120)) ==>
              m in Scanned(f, nodes, rows) && Scanned(f, nodes, rows)[m].ip == View(f).value[m].ip
  {
    var view := View(f).value;
    if m in view && (f.snapshot.None? || m in Online(f.snapshot.value.neighbors, 120)) {
      ViewAddress(f, view, rows, m);
      ClientsSpareView(f, view, WithView(f, view, rows), m);
    }
  }

  /** The clients loop keeps the reservation of every row. */
  lemma {:induction false} ClientsKeepReservations(rows: map<Mac, Row>, online: set<Mac>, es: seq<DecoClient>, m: Mac)
    requires m in rows
    ensures var after := WithClients(rows, online, es).rows;
            m in after && after[m].staticIp == rows[m].staticIp && after[m].reservedIp == rows[m].reservedIp
    decreases |es|
  {
    if es != [] && es[0].Client? {
      if !es[0].online || es[0].mac.None? {
        ClientsKeepReservations(rows, online, es[1..], m);
      } else if !es[0].nameFails {
        var mac := es[0].mac.value;
        var rows' := if mac in online then rows else WithPresent(rows, mac, ClientIp(rows, mac, es[0].ip));
        ClientsKeepReservations(rows', online + {mac}, es[1..], m);
      }
    }
  }

  lemma GatheredKeepsReservations(f: Feed, view: map<Mac, Info>, rows: map<Mac, Row>, m: Mac)
    requires m in WithView(f, view, rows)
    ensures var before, after := WithView(f, view, rows), Gathered(f, view, rows);
            m in after && after[m].staticIp == before[m].staticIp && after[m].reservedIp == before[m].reservedIp
  {
    ClientsKeepReservations(WithView(f, view, rows), view.Keys, Clients(f), m);
  }

  /** After a scan, with a reservation in the snapshot, a device of the table or the view is static exactly if it has one, at its last. */
  lemma ScannedReservations(f: Feed, nodes: set<Mac>, rows: map<Mac, Row>, m: Mac)
    requires View(f).Ok? && f.snapshot.Some? && f.snapshot.value.reservations != []
    requires m in rows || m in View(f).value
    ensures m in Scanned(f, nodes, rows)
    ensures Scanned(f, nodes, rows)[m].staticIp <==> exists i: nat :: IsLastReservation(f.snapshot.value.reservations, i, m)
    ensures forall i: nat | IsLastReservation(f.snapshot.value.reservations, i, m) ::
              Scanned(f, nodes, rows)[m].reservedIp == Some(f.snapshot.value.reservations[i].ip)
  {
    var view := View(f).value;
    var persisted := Persisted(rows, view, view.Keys);
    MirroredMeaning(persisted, f.snapshot.value, f.now, m);
    assert WithView(f, view, rows) == Mirrored(persisted, f.snapshot.value, f.now);
    GatheredKeepsReservations(f, view, rows, m);
  }

  // --------------------------------------------------- steps of the loops

  function TakenDown(rows: map<Mac, Row>, online: set<Mac>, done: set<Mac>): map<Mac, Row> {
    map m | m in rows :: if m in done && rows[m].online && m !in online then rows[m].(online := false) else rows[m]
  }

  function BroughtUp(rows: map<Mac, Row>, online: set<Mac>, done: set<Mac>): map<Mac, Row> {
    map m | m in rows :: if m in done && !rows[m].online && m in online then rows[m].(online := true) else rows[m]
  }

  ghost function LeftAmong(done: set<Mac>, rows: map<Mac, Row>, online: set<Mac>): set<(Kind, Mac)> {
    set m | m in done && m in rows && rows[m].online && m !in online :: (Disconnected, m)
  }

  ghost function ReturnedAmong(done: set<Mac>, rows: map<Mac, Row>, online: set<Mac>): set<(Kind, Mac)> {
    set m | m in done && m in rows && !rows[m].online && m in online :: (Connected, m)
  }

  lemma TakenDownMore(rows: map<Mac, Row>, online: set<Mac>, done: set<Mac>, mac: Mac)
    requires mac in rows && rows[mac].online && mac !in done
    ensures TakenDown(rows, online, done)[mac] == rows[mac]
    ensures TakenDown(rows, online, done + {mac}) ==
              if mac in online then TakenDown(rows, online, done)
              else TakenDown(rows, online, done)[mac := rows[mac].(online := false)]
    ensures LeftAmong(done + {mac}, rows, online) ==
              LeftAmong(done, rows, online) + if mac in online then {} else {(Disconnected, mac)}
    ensures (Disconnected, mac) !in LeftAmong(done, rows, online)
  {
  }

  lemma BroughtUpMore(rows: map<Mac, Row>, online: set<Mac>, done: set<Mac>, mac: Mac)
    requires mac in rows && !rows[mac].online && mac !in done
    ensures BroughtUp(rows, online, done)[mac] == rows[mac]
    ensures BroughtUp(rows, online, done + {mac}) ==
              if mac in online then BroughtUp(rows, online, done)[mac := rows[mac].(online := true)]
              else BroughtUp(rows, online, done)
    ensures ReturnedAmong(done + {mac}, rows, online) ==
              ReturnedAmong(done, rows, online) + if mac in online then {(Connected, mac)} else {}
    ensures (Connected, mac) !in ReturnedAmong(done, rows, online)
  {
  }

  lemma ListedAreAll(rows: map<Mac, Row>, online: set<Mac>, listed: set<Mac>)
    requires forall m :: m in listed <==> m in rows && rows[m].online
    ensures TakenDown(rows, online, listed) == TakenDown(rows, online, rows.Keys)
    ensures LeftAmong(listed, rows, online) == LeftDue(rows, online)
  {
  }

  lemma UnlistedAreUp(rows: map<Mac, Row>, online: set<Mac>, listed: set<Mac>)
    requires forall m :: m in listed <==> m in rows && !rows[m].online
    ensures BroughtUp(rows, online, listed) == BroughtUp(rows, online, rows.Keys)
    ensures ReturnedAmong(listed, rows, online) == ReturnedDue(rows, online)
  {
  }

  lemma DownThenUp(rows: map<Mac, Row>, online: set<Mac>)
    ensures var down := TakenDown(rows, online, rows.Keys);
            && BroughtUp(down, online, down.Keys) == Settled(rows, online)
            && ReturnedDue(down, online) == ReturnedDue(rows, online)
            && LeftDue(rows, online) !! ReturnedDue(rows, online)
  {
  }

  lemma MoveOver<T>(all: set<T>, todo: set<T>, done: set<T>, x: T)
    requires x in todo && todo <= all && done == all - todo
    ensures done + {x} == all - (todo - {x})
  {
  }

  lemma NewAmongMore(done: set<Mac>, mac: Mac, rows: map<Mac, Row>)
    ensures NewAmong(done + {mac}, rows) == NewAmong(done, rows) + if mac in rows then {} else {(NewDevice, mac)}
  {
  }

  lemma PersistedMore(rows: map<Mac, Row>, view: map<Mac, Info>, done: set<Mac>, mac: Mac)
    requires done <= view.Keys && mac in view && mac !in done
    ensures mac in Persisted(rows, view, done) <==> mac in rows
    ensures mac in rows ==> Persisted(rows, view, done)[mac] == rows[mac]
    ensures Persisted(rows, view, done + {mac})
         == WithPresent(Persisted(rows, view, done), mac, view[mac].ip)
  {
  }

  lemma NewIsApart(view: map<Mac, Info>, before: map<Mac, Row>, after: map<Mac, Row>, online: set<Mac>)
    ensures NewDue(view, before) !! TransitionsDue(after, online)
  {
  }

  // ------------------------------------------------- writers between scans

  /**
   A write to the table that no scan makes: a topology request marks a node online, a device
   is registered by hand, a reservation is set, or the search service moves an address.
   */
  datatype Write = MarksOnline(mac: Mac) | Registers(mac: Mac, ip: Ip) | Reserves(mac: Mac, enabled: bool, ip: Ip)
                 | Readdresses(mac: Mac, address: string)

  function Rewrite(rows: map<Mac, Row>, w: Write): map<Mac, Row> {
    match w
    case Registers(mac, ip) => WithPresent(rows, mac, ip)
    case MarksOnline(mac) => if mac in rows then rows[mac := rows[mac].(online := true)] else rows
    case Reserves(mac, enabled, ip) => if mac in rows then rows[mac := Reserved(rows[mac], enabled, ip)] else rows
    case Readdresses(mac, address) => if mac in rows then rows[mac := Searched(rows[mac], address)] else rows
  }

  function Rewritten(rows: map<Mac, Row>, ws: seq<Write>): map<Mac, Row> {
    if ws == [] then rows else Rewrite(Rewritten(rows, ws[..|ws| - 1]), ws[|ws| - 1])
  }

  /** The devices these writes may set online. */
  function RaisedBy(ws: seq<Write>): set<Mac> {
    set w | w in ws && (w.MarksOnline? || w.Registers?) :: w.mac
  }

  predicate Offline(rows: map<Mac, Row>, m: Mac) {
    m in rows ==> !rows[m].online
  }

  lemma {:induction false} WritesKeep(rows: map<Mac, Row>, ws: seq<Write>)
    ensures rows.Keys <= Rewritten(rows, ws).Keys
    ensures forall m | Offline(rows, m) && m !in RaisedBy(ws) :: Offline(Rewritten(rows, ws), m)
  {
    if ws != [] {
      var init, w := ws[..|ws| - 1], ws[|ws| - 1];
      WritesKeep(rows, init);
      assert RaisedBy(init) <= RaisedBy(ws) && w in ws;
    }
  }

  /** What one such write does to its device's row, and to no other. */
  lemma WriteMeaning(rows: map<Mac, Row>, w: Write)
    ensures var after := Rewrite(rows, w);
            && (forall m | m in rows && m != w.mac :: m in after && after[m] == rows[m])
            && (w.mac in after <==> w.mac in rows || w.Registers?)
            && (w.mac in after ==>
                  var row := after[w.mac];
                  && (w.MarksOnline? || w.Registers? ==> row.online)
                  && (w.Registers? ==> row.ip == w.ip)
                  && (w.Reserves? ==> row.staticIp == w.enabled && row.reservedIp == if w.enabled then w.ip else None)
                  && (w.Readdresses? && w.address != "" ==> row.ip == Some(w.address))
                  && (!w.MarksOnline? && !w.Registers? ==> row.online == rows[w.mac].online))
  {
  }

  method WriteElsewhere(repo: Repository, ws: seq<Write>)
    modifies repo
    ensures repo.rows == Rewritten(old(repo.rows), ws)
  {
    for i := 0 to |ws|
      invariant repo.rows == Rewritten(old(repo.rows), ws[..i])
    {
      assert ws[..i + 1][..i] == ws[..i];
      match ws[i]
      case Registers(mac, ip) => repo.CreateOrUpdate(mac, ip);
      case MarksOnline(mac) => repo.MarkOnline(mac);
      case Reserves(mac, enabled, ip) => repo.SetStaticIpReservation(mac, enabled, ip);
      case Readdresses(mac, address) => var updated := repo.UpdateIpHistory(mac, address);
    }
    assert ws[..|ws|] == ws;
  }

  // ------------------------------------------------------------ whole runs

  /** What other writers did to the table, and what the scan after them observed. */
  datatype Round = Round(writes: seq<Write>, feed: Feed)

  /** The devices a scan wrote as present, and those of its online set that it found in the table. */
  function Lifted(f: Feed, nodes: set<Mac>, rows: map<Mac, Row>): set<Mac> {
    if View(f).Raised? then {} else Written(f) + Half(f) + rows.Keys * OnlineSet(f, nodes)
  }

  /** The client it wrote as present without counting it. */
  function Unnamed(f: Feed): set<Mac> {
    if View(f).Raised? then {} else Half(f)
  }

  /**
   A scan of a run: the writes before it, what it observed, the table and node MACs it found
   and left, the devices it set online and the events it added to the log.
   */
  datatype Scan = Scan(round: Round, nodes: set<Mac>, before: map<Mac, Row>, nodes': set<Mac>, after: map<Mac, Row>,
                       lifted: set<Mac>, unnamed: set<Mac>, added: seq<Event>)

  ghost predicate Performed(s: Scan, reliable: bool) {
    && s.nodes' == Remembered(s.round.feed, s.nodes)
    && s.after == Scanned(s.round.feed, s.nodes, s.before)
    && s.lifted == Lifted(s.round.feed, s.nodes, s.before) && s.unnamed == Unnamed(s.round.feed)
    && Recorded(s.added, Due(s.round.feed, s.nodes, s.before), reliable)
  }

  predicate Succeeds(s: Scan, t: Scan) {
    t.before == Rewritten(s.after, t.round.writes) && t.nodes == s.nodes'
  }

  predicate Chained(scans: seq<Scan>) {
    forall i, j | 0 <= i && j == i + 1 < |scans| :: Succeeds(scans[i], scans[j])
  }

  /** Scans performed one after the other, each on the table that the previous one and other writers left. */
  ghost predicate IsRun(scans: seq<Scan>, reliable: bool) {
    && Chained(scans)
    && (forall i {:trigger Performed(scans[i], reliable)} | 0 <= i < |scans| :: Performed(scans[i], reliable))
  }

  /** The run takes the first table and node MACs to the last. */
  ghost predicate Leads(scans: seq<Scan>, rows: map<Mac, Row>, nodes: set<Mac>, rows': map<Mac, Row>, nodes': set<Mac>) {
    if scans == [] then rows' == rows && nodes' == nodes
    else
      var first, last := scans[0], scans[|scans| - 1];
      first.before == Rewritten(rows, first.round.writes) && first.nodes == nodes && rows' == last.after && nodes' == last.nodes'
  }

  function RoundsOf(scans: seq<Scan>): seq<Round> {
    if scans == [] then [] else RoundsOf(scans[..|scans| - 1]) + [scans[|scans| - 1].round]
  }

  /** Everything the run added to the log. */
  function Added(scans: seq<Scan>): seq<Event> {
    if scans == [] then [] else Added(scans[..|scans| - 1]) + scans[|scans| - 1].added
  }

  /** What a run from one table, node MACs and log to others consists of. */
  ghost predicate Account(scans: seq<Scan>, rounds: seq<Round>,
                          rows: map<Mac, Row>, nodes: set<Mac>, events: seq<Event>,
                          rows': map<Mac, Row>, nodes': set<Mac>, events': seq<Event>, reliable: bool) {
    && IsRun(scans, reliable) && RoundsOf(scans) == rounds
    && Leads(scans, rows, nodes, rows', nodes')
    && events' == events + Added(scans)
  }

  lemma AccountEmpty(rows: map<Mac, Row>, nodes: set<Mac>, events: seq<Event>, reliable: bool)
    ensures Account([], [], rows, nodes, events, rows, nodes, events, reliable)
  {
  }

  /** A place of a longer run holds what was performed there. */
  lemma PerformedThere(s: Scan, scans: seq<Scan>, i: nat, reliable: bool)
    requires i < |scans| && scans[i] == s && Performed(s, reliable)
    ensures Performed(scans[i], reliable)
  {
  }

  lemma ChainAppend(scans: seq<Scan>, s: Scan)
    requires Chained(scans) && (scans != [] ==> Succeeds(scans[|scans| - 1], s))
    ensures Chained(scans + [s])
  {
  }

  lemma RunAppend(scans: seq<Scan>, s: Scan, reliable: bool)
    requires IsRun(scans, reliable) && Performed(s, reliable)
    requires scans != [] ==> Succeeds(scans[|scans| - 1], s)
    ensures IsRun(scans + [s], reliable)
  {
    ChainAppend(scans, s);
    forall i | 0 <= i < |scans| + 1
      ensures Performed((scans + [s])[i], reliable)
    {
      PerformedThere(if i < |scans| then scans[i] else s, scans + [s], i, reliable);
    }
  }

  lemma AddedAppend(scans: seq<Scan>, s: Scan, events: seq<Event>)
    ensures events + Added(scans + [s]) == events + Added(scans) + s.added
    ensures RoundsOf(scans + [s]) == RoundsOf(scans) + [s.round]
  {
    assert (scans + [s])[..|scans|] == scans;
  }

  lemma AccountAppend(scans: seq<Scan>, rounds: seq<Round>, s: Scan, left: map<Mac, Row>,
                      rows: map<Mac, Row>, nodes: set<Mac>, events: seq<Event>, before: seq<Event>, reliable: bool)
    requires Account(scans, rounds, rows, nodes, events, left, s.nodes, before, reliable)
    requires Performed(s, reliable) && s.before == Rewritten(left, s.round.writes)
    ensures Account(scans + [s], rounds + [s.round], rows, nodes, events, s.after, s.nodes', before + s.added, reliable)
  {
    RunAppend(scans, s, reliable);
    AddedAppend(scans, s, events);
  }

  // -------------------------------------- disconnections over a whole run

  ghost predicate Reports(s: Scan, m: Mac) {
    (Disconnected, m) in KindsOf(s.added)
  }

  /**
   What a scan does to one device: without setting it online it leaves it offline, and a
   reported disconnection leaves it offline and found it online, or could not store its name.
   */
  ghost predicate SoundFor(s: Scan, m: Mac) {
    && (Offline(s.before, m) && m !in s.lifted ==> Offline(s.after, m))
    && (Reports(s, m) ==> Offline(s.after, m) && (Offline(s.before, m) ==> m in s.unnamed))
  }

  ghost predicate Sound(scans: seq<Scan>, m: Mac) {
    && Chained(scans)
    && forall i | 0 <= i < |scans| :: SoundFor(scans[i], m) && |scans[i].added| == |KindsOf(scans[i].added)|
  }

  lemma PerformedIsSound(s: Scan, reliable: bool, m: Mac)
    requires Performed(s, reliable)
    ensures SoundFor(s, m)
  {
    if View(s.round.feed).Ok? {
      ScannedMeaning(s.round.feed, s.nodes, s.before);
      DueMeaning(s.round.feed, s.nodes, s.before, m);
    }
  }

  lemma RunIsSound(scans: seq<Scan>, reliable: bool, m: Mac)
    requires IsRun(scans, reliable)
    ensures Sound(scans, m)
  {
    forall i | 0 <= i < |scans|
      ensures SoundFor(scans[i], m) && |scans[i].added| == |KindsOf(scans[i].added)|
    {
      assert Performed(scans[i], reliable);
      PerformedIsSound(scans[i], reliable, m);
    }
  }

  lemma {:induction false} OfflineUntil(scans: seq<Scan>, i: nat, j: nat, m: Mac)
    requires Sound(scans, m) && i < j < |scans| && Offline(scans[i].after, m)
    requires forall k | i < k < j :: m !in scans[k].lifted
    requires forall k | i < k <= j :: m !in RaisedBy(scans[k].round.writes)
    ensures Offline(scans[j].before, m)
  {
    assert Succeeds(scans[j - 1], scans[j]);
    if j - 1 > i {
      OfflineUntil(scans, i, j - 1, m);
    }
    WritesKeep(scans[j - 1].after, scans[j].round.writes);
  }

  /** Before scan `k` another writer, or in scan `k` the scan itself, may have set the device online. */
  predicate SetsOnline(s: Scan, m: Mac) {
    m in RaisedBy(s.round.writes) || m in s.lifted
  }

  /**
   Between two reports that a device disconnected, an earlier scan than the second or another
   writer set it online, or the second scan could not store its name.
   */
  lemma ReportsSeparated(scans: seq<Scan>, i: nat, j: nat, m: Mac)
    requires Sound(scans, m) && i < j < |scans| && Reports(scans[i], m) && Reports(scans[j], m)
    ensures || (exists k :: i < k < j && SetsOnline(scans[k], m))
            || m in RaisedBy(scans[j].round.writes) || m in scans[j].unnamed
  {
    if (forall k | i < k < j :: !SetsOnline(scans[k], m)) && m !in RaisedBy(scans[j].round.writes) {
      assert forall k | i < k <= j :: k < j ==> !SetsOnline(scans[k], m);
      OfflineUntil(scans, i, j, m);
    }
  }

  /** The event at this place of the log was added by this scan. */
  ghost predicate AddedBy(scans: seq<Scan>, p: nat, i: nat) {
    i < |scans| && |Added(scans[..i])| <= p < |Added(scans[..i + 1])|
  }

  /** The place of the event within its scan. */
  lemma {:induction false} Locate(scans: seq<Scan>, p: nat) returns (i: nat, a: nat)
    requires p < |Added(scans)|
    ensures AddedBy(scans, p, i) && a < |scans[i].added|
    ensures p == |Added(scans[..i])| + a && Added(scans)[p] == scans[i].added[a]
  {
    var n := |scans| - 1;
    var init := scans[..n];
    assert scans[..n + 1] == scans;
    if p < |Added(init)| {
      i, a := Locate(init, p);
      assert init[..i] == scans[..i] && init[..i + 1] == scans[..i + 1];
    } else {
      i, a := n, p - |Added(init)|;
    }
  }

  lemma {:induction false} AddedGrows(scans: seq<Scan>, i: nat, j: nat)
    requires i <= j <= |scans|
    ensures |Added(scans[..i])| <= |Added(scans[..j])|
  {
    if i < j {
      AddedGrows(scans, i, j - 1);
      assert scans[..j][..j - 1] == scans[..j - 1];
    }
  }

  lemma InOrder(scans: seq<Scan>, p: nat, q: nat, i: nat, j: nat)
    requires p < q && AddedBy(scans, p, i) && AddedBy(scans, q, j)
    ensures i <= j
  {
    if j < i {
      AddedGrows(scans, j + 1, i);
    }
  }

  predicate IsDisconnect(e: Event, m: Mac) {
    e.kind == Disconnected && e.mac == m
  }

  lemma DisconnectIsReported(s: Scan, a: nat, m: Mac)
    requires a < |s.added| && IsDisconnect(s.added[a], m)
    ensures Reports(s, m)
  {
    assert s.added[a] in s.added;
  }

  /** In the log, two such events come from different scans. */
  lemma DisconnectedTwiceIn(scans: seq<Scan>, p: nat, q: nat, m: Mac) returns (i: nat, j: nat)
    requires Sound(scans, m) && p < q < |Added(scans)|
    requires IsDisconnect(Added(scans)[p], m) && IsDisconnect(Added(scans)[q], m)
    ensures AddedBy(scans, p, i) && AddedBy(scans, q, j) && i < j && Reports(scans[i], m) && Reports(scans[j], m)
  {
    var a, b;
    i, a := Locate(scans, p);
    j, b := Locate(scans, q);
    InOrder(scans, p, q, i, j);
    DisconnectIsReported(scans[i], a, m);
    DisconnectIsReported(scans[j], b, m);
    if i == j {
      RecordedDistinct(scans[i].added, a, b);
    }
  }

  /**
   In the log of any run, two `disconnected` events of one device come from different scans
   `i < j`. After the first and before the second, a scan strictly between them wrote the
   device as present or found it in its online set and the table, or another writer set it
   online; only a client whose name scan `j` could not store needs neither.
   */
  lemma DisconnectionsSeparated(scans: seq<Scan>, reliable: bool, p: nat, q: nat, m: Mac) returns (i: nat, j: nat)
    requires IsRun(scans, reliable) && p < q < |Added(scans)|
    requires IsDisconnect(Added(scans)[p], m) && IsDisconnect(Added(scans)[q], m)
    ensures AddedBy(scans, p, i) && AddedBy(scans, q, j) && i < j
    ensures || (exists k :: i < k < j && m in Lifted(scans[k].round.feed, scans[k].nodes, scans[k].before))
            || (exists k :: i < k <= j && m in RaisedBy(scans[k].round.writes))
            || (View(scans[j].round.feed).Ok? && m in Half(scans[j].round.feed))
  {
    RunIsSound(scans, reliable, m);
    i, j := DisconnectedTwiceIn(scans, p, q, m);
    ReportsSeparated(scans, i, j, m);
    assert Performed(scans[j], reliable);
    if k :| i < k < j && SetsOnline(scans[k], m) {
      assert Performed(scans[k], reliable);
    }
  }

  // ----------------------------------------------------------- the service

  datatype ScanResult = ScanResult(error: bool, skipped: bool)

  class NetworkDeviceService {
    const repo: Repository
    const log: EventService
    var decoNodeMacs: set<Mac>

    ghost predicate Valid()
      reads repo, log
    {
      Consistent(repo.rows, log.events, log.alerts, log.reliable)
    }

    constructor (repo: Repository, log: EventService)
      requires log.events == [] && log.alerts == []
      ensures this.repo == repo && this.log == log && decoNodeMacs == {} && Valid()
    {
      this.repo, this.log, this.decoNodeMacs := repo, log, {};
    }

    /** `_record_device_event`: failures of the store are swallowed. */
    method RecordDeviceEvent(mac: Mac, kind: Kind)
      modifies log
      ensures Attempted(mac, kind, old(log.events), log.events, old(log.alerts), log.alerts, log.reliable)
    {
      var id := log.RecordEvent(mac, kind);
      if id.None? {
        return;
      }
      ghost var e := Event(id.value, mac, kind);
      if kind == NewDevice {
        assert CallsFor(e, Alert(id.value, mac, NewDeviceAlert));
        var ok := log.CreateAlert(mac, id.value, NewDeviceAlert);
      } else if kind == Disconnected {
        assert CallsFor(e, Alert(id.value, mac, DeviceOfflineAlert));
        var ok := log.CreateAlert(mac, id.value, DeviceOfflineAlert);
      }
    }

    /** The body of step 4 for one device. */
    method PersistOne(mac: Mac, ip: Ip)
      requires Valid()
      modifies repo, log
      ensures Valid()
      ensures repo.rows == WithPresent(old(repo.rows), mac, ip)
      ensures Grew(old(log.events), log.events, if mac in old(repo.rows) then {} else {(NewDevice, mac)}, log.reliable)
    {
      GrewNothing(log.events, log.reliable);
      var known := repo.GetByMac(mac);
      repo.CreateOrUpdate(mac, ip);
      if known.None? {
        RecordDeviceEvent(mac, NewDevice);
        AttemptGrows(mac, NewDevice, old(log.events), log.events, old(log.alerts), log.alerts, log.reliable);
        AttemptKeeps(repo.rows, mac, NewDevice, old(log.events), log.events, old(log.alerts), log.alerts, log.reliable);
      }
    }

    /** One more device of the view, on a table where those in `done` are already written. */
    method PersistNext(view: map<Mac, Info>, mac: Mac, ghost done: set<Mac>, ghost rows: map<Mac, Row>, ghost events: seq<Event>)
      requires Valid() && mac in view && mac !in done && done <= view.Keys
      requires repo.rows == Persisted(rows, view, done)
      requires Grew(events, log.events, NewAmong(done, rows), log.reliable)
      modifies repo, log
      ensures Valid()
      ensures repo.rows == Persisted(rows, view, done + {mac})
      ensures Grew(events, log.events, NewAmong(done + {mac}, rows), log.reliable)
    {
      PersistedMore(rows, view, done, mac);
      NewAmongMore(done, mac, rows);
      PersistOne(mac, view[mac].ip);
      GrewTwice(events, old(log.events), log.events, NewAmong(done, rows), if mac in rows then {} else {(NewDevice, mac)}, log.reliable);
    }

    /** Step 4: every merged device is written as present, new ones with an event. */
    method PersistMerged(view: map<Mac, Info>)
      requires Valid()
      modifies repo, log
      ensures Valid()
      ensures repo.rows == Persisted(old(repo.rows), view, view.Keys)
      ensures Grew(old(log.events), log.events, NewDue(view, old(repo.rows)), log.reliable)
    {
      ghost var rows, events := repo.rows, log.events;
      ghost var done: set<Mac> := {};
      GrewNothing(events, log.reliable);
      var todo := view.Keys;
      while todo != {}
        invariant todo <= view.Keys && done == view.Keys - todo
        invariant Valid()
        invariant repo.rows == Persisted(rows, view, done)
        invariant Grew(events, log.events, NewAmong(done, rows), log.reliable)
      {
        var mac :| mac in todo;
        assert mac !in done;
        PersistNext(view, mac, done, rows, events);
        MoveOver(view.Keys, todo, done, mac);
        todo := todo - {mac};
        done := done + {mac};
      }
      assert done == view.Keys;
    }

    // ------------------------------------------------ the Deco supplement

    /** The clients loop; an entry that raises ends it. */
    method DecoSupplement(entries: seq<DecoClient>, online: set<Mac>) returns (online': set<Mac>)
      modifies repo
      ensures Progress(repo.rows, online') == WithClients(old(repo.rows), online, entries)
    {
      online' := online;
      for i := 0 to |entries|
        invariant WithClients(repo.rows, online', entries[i..]) == WithClients(old(repo.rows), online, entries)
      {
        assert entries[i..][0] == entries[i] && entries[i..][1..] == entries[i + 1..];
        var client := entries[i];
        if client.MalformedClient? {
          return;
        }
        if !client.online || client.mac.None? {
          continue;
        }
        var mac := client.mac.value;
        if mac !in online' {
          var existing := repo.GetByMac(mac);
          repo.CreateOrUpdate(mac, if existing.None? || Given(client.ip) then client.ip else existing.value.ip);
        }
        if client.nameFails {
          return;
        }
        online' := online' + {mac};
      }
    }

    /** The node MACs to treat as online; a non-empty answer replaces the remembered ones. */
    method DecoNodeSupplement(entries: seq<DecoNode>) returns (macs: set<Mac>)
      modifies this`decoNodeMacs
      ensures var current := NodeMacs(entries);
              if !NodesParse(entries) then macs == {} && decoNodeMacs == old(decoNodeMacs)
              else decoNodeMacs == (if current != {} then current else old(decoNodeMacs)) && macs == decoNodeMacs
    {
      var current: set<Mac> := {};
      for i := 0 to |entries|
        invariant forall j | 0 <= j < i :: entries[j].Node?
        invariant current == NodeMacs(entries[..i])
      {
        assert entries[..i + 1] == entries[..i] + [entries[i]];
        if entries[i].MalformedNode? {
          assert entries[i] in entries;
          return {};
        }
        if entries[i].mac.Some? {
          current := current + {entries[i].mac.value};
        }
      }
      assert entries[..|entries|] == entries;
      if current != {} {
        decoNodeMacs := current;
      }
      macs := decoNodeMacs;
    }

    // --------------------------------------------------------- transitions

    /** One device found online by the table but not by the scan. */
    method TakeDown(mac: Mac)
      requires Valid() && mac in repo.rows
      modifies repo, log
      ensures Valid()
      ensures repo.rows == old(repo.rows)[mac := old(repo.rows)[mac].(online := false)]
      ensures Grew(old(log.events), log.events, {(Disconnected, mac)}, log.reliable)
    {
      repo.MarkOffline(mac);
      RecordDeviceEvent(mac, Disconnected);
      AttemptGrows(mac, Disconnected, old(log.events), log.events, old(log.alerts), log.alerts, log.reliable);
      AttemptKeeps(repo.rows, mac, Disconnected, old(log.events), log.events, old(log.alerts), log.alerts, log.reliable);
    }

    /** The body of the first transition loop, with the devices in `done` already treated. */
    method TakeDownNext(online: set<Mac>, mac: Mac, ghost done: set<Mac>, ghost rows: map<Mac, Row>, ghost events: seq<Event>)
      requires Valid() && mac in rows && rows[mac].online && mac !in done
      requires repo.rows == TakenDown(rows, online, done)
      requires Grew(events, log.events, LeftAmong(done, rows, online), log.reliable)
      modifies repo, log
      ensures Valid()
      ensures repo.rows == TakenDown(rows, online, done + {mac})
      ensures Grew(events, log.events, LeftAmong(done + {mac}, rows, online), log.reliable)
    {
      TakenDownMore(rows, online, done, mac);
      if mac !in online {
        TakeDown(mac);
        GrewTwice(events, old(log.events), log.events, LeftAmong(done, rows, online), {(Disconnected, mac)}, log.reliable);
      }
    }

    /** Every device the table shows online and the scan did not see goes offline with an event. */
    method TakeDownMissing(online: set<Mac>)
      requires Valid()
      modifies repo, log
      ensures Valid()
      ensures repo.rows == TakenDown(old(repo.rows), online, old(repo.rows).Keys)
      ensures Grew(old(log.events), log.events, LeftDue(old(repo.rows), online), log.reliable)
    {
      ghost var rows, events := repo.rows, log.events;
      ghost var done: set<Mac> := {};
      var listed := repo.ListByStatus(true);
      GrewNothing(events, log.reliable);
      assert LeftAmong(done, rows, online) == {};
      assert TakenDown(rows, online, done) == rows;
      var todo := listed;
      while todo != {}
        invariant todo <= listed && done == listed - todo
        invariant Valid()
        invariant repo.rows == TakenDown(rows, online, done)
        invariant Grew(events, log.events, LeftAmong(done, rows, online), log.reliable)
      {
        var mac :| mac in todo;
        assert mac in listed && mac !in done;
        TakeDownNext(online, mac, done, rows, events);
        MoveOver(listed, todo, done, mac);
        todo := todo - {mac};
        done := done + {mac};
      }
      assert done == listed;
      ListedAreAll(rows, online, listed);
    }

    /** One device found offline by the table and seen by the scan. */
    method BringUp(mac: Mac)
      requires Valid() && mac in repo.rows
      modifies repo, log
      ensures Valid()
      ensures repo.rows == old(repo.rows)[mac := old(repo.rows)[mac].(online := true)]
      ensures Grew(old(log.events), log.events, {(Connected, mac)}, log.reliable)
    {
      repo.MarkOnline(mac);
      RecordDeviceEvent(mac, Connected);
      AttemptGrows(mac, Connected, old(log.events), log.events, old(log.alerts), log.alerts, log.reliable);
      AttemptKeeps(repo.rows, mac, Connected, old(log.events), log.events, old(log.alerts), log.alerts, log.reliable);
    }

    /** The body of the second transition loop. */
    method BringUpNext(online: set<Mac>, mac: Mac, ghost done: set<Mac>, ghost rows: map<Mac, Row>, ghost events: seq<Event>)
      requires Valid() && mac in rows && !rows[mac].online && mac !in done
      requires repo.rows == BroughtUp(rows, online, done)
      requires Grew(events, log.events, ReturnedAmong(done, rows, online), log.reliable)
      modifies repo, log
      ensures Valid()
      ensures repo.rows == BroughtUp(rows, online, done + {mac})
      ensures Grew(events, log.events, ReturnedAmong(done + {mac}, rows, online), log.reliable)
    {
      BroughtUpMore(rows, online, done, mac);
      if mac in online {
        BringUp(mac);
        GrewTwice(events, old(log.events), log.events, ReturnedAmong(done, rows, online), {(Connected, mac)}, log.reliable);
      }
    }

    /** Every device the table shows offline and the scan saw comes online with an event. */
    method BringUpPresent(online: set<Mac>)
      requires Valid()
      modifies repo, log
      ensures Valid()
      ensures repo.rows == BroughtUp(old(repo.rows), online, old(repo.rows).Keys)
      ensures Grew(old(log.events), log.events, ReturnedDue(old(repo.rows), online), log.reliable)
    {
      ghost var rows, events := repo.rows, log.events;
      ghost var done: set<Mac> := {};
      var listed := repo.ListByStatus(false);
      GrewNothing(events, log.reliable);
      assert ReturnedAmong(done, rows, online) == {};
      assert BroughtUp(rows, online, done) == rows;
      var todo := listed;
      while todo != {}
        invariant todo <= listed && done == listed - todo
        invariant Valid()
        invariant repo.rows == BroughtUp(rows, online, done)
        invariant Grew(events, log.events, ReturnedAmong(done, rows, online), log.reliable)
      {
        var mac :| mac in todo;
        assert mac in listed && mac !in done;
        BringUpNext(online, mac, done, rows, events);
        MoveOver(listed, todo, done, mac);
        todo := todo - {mac};
        done := done + {mac};
      }
      assert done == listed;
      UnlistedAreUp(rows, online, listed);
    }

    /** The transition phase; an empty online set is read as a failed scan and changes nothing. */
    method Transitions(online: set<Mac>) returns (skipped: bool)
      requires Valid()
      modifies repo, log
      ensures Valid() && (skipped <==> online == {})
      ensures repo.rows == if skipped then old(repo.rows) else Settled(old(repo.rows), online)
      ensures Grew(old(log.events), log.events, TransitionsDue(old(repo.rows), online), log.reliable)
    {
      ghost var rows, events := repo.rows, log.events;
      skipped := online == {};
      GrewNothing(events, log.reliable);
      if !skipped {
        TakeDownMissing(online);
        ghost var down, midway := repo.rows, log.events;
        BringUpPresent(online);
        DownThenUp(rows, online);
        GrewTwice(events, midway, log.events, LeftDue(rows, online), ReturnedDue(down, online), log.reliable);
      }
    }

    // ------------------------------------------------------------ the scan

    /** The merging steps of `scan_and_update` (backend/services/device_scanner.py:814-830): the merged view under the router's authority, or Raised. */
    method BuildView(f: Feed) returns (view: Result<map<Mac, Info>>)
      ensures view == View(f)
    {
      if f.arp.Raised? || f.dhcp.Raised? {
        return Raised;
      }
      var merged := MergeArpAndDhcp(f.arp.value, f.dhcp.value);
      if f.snapshot.None? {
        return Ok(merged);
      }
      MergedWellKeyed(f.arp.value, f.dhcp.value);
      var online := OnlineNeighbors(f.snapshot.value, DEFAULT_MAX_STALE_AGE);
      view := ApplyChesterSnapshot(merged, online, f.subnet);
    }

    /** Step 4 of `scan_and_update` (backend/services/device_scanner.py:841-882): writing the view and the router's addresses and reservations. */
    method WriteView(f: Feed, view: map<Mac, Info>)
      requires Valid()
      modifies repo, log
      ensures Valid()
      ensures repo.rows == WithView(f, view, old(repo.rows))
      ensures Grew(old(log.events), log.events, NewDue(view, old(repo.rows)), log.reliable)
    {
      PersistMerged(view);
      if f.snapshot.Some? {
        SyncIpsAndReservations(repo, f.snapshot.value, f.now);
      }
    }

    /** The supplements of `scan_and_update` (backend/services/device_scanner.py:888-1013): the Deco's clients and nodes and the reachable router join the online set. */
    method Supplement(f: Feed, view: map<Mac, Info>, ghost rows: map<Mac, Row>) returns (online: set<Mac>)
      requires View(f) == Ok(view) && repo.rows == WithView(f, view, rows)
      modifies repo, this`decoNodeMacs
      ensures online == OnlineSet(f, old(decoNodeMacs)) && decoNodeMacs == Remembered(f, old(decoNodeMacs))
      ensures repo.rows == Gathered(f, view, rows)
    {
      online := view.Keys;
      ClientsMeaning(repo.rows, online, Clients(f));
      if f.deco.Some? {
        if f.deco.value.clients.Ok? {
          online := DecoSupplement(f.deco.value.clients.value, online);
        }
        if f.deco.value.nodes.Ok? {
          var macs := DecoNodeSupplement(f.deco.value.nodes.value);
          online := online + macs;
        }
      }
      if f.chester.Some? {
        online := online + {f.chester.value.0};
        repo.CreateOrUpdate(f.chester.value.0, Some(f.chester.value.1));
      }
    }

    /** Every write of a scan before its transitions. */
    method Gather(f: Feed, view: map<Mac, Info>) returns (online: set<Mac>)
      requires Valid() && View(f) == Ok(view)
      modifies repo, log, this`decoNodeMacs
      ensures Valid()
      ensures online == OnlineSet(f, old(decoNodeMacs)) && decoNodeMacs == Remembered(f, old(decoNodeMacs))
      ensures repo.rows == Gathered(f, view, old(repo.rows))
      ensures Grew(old(log.events), log.events, NewDue(view, old(repo.rows)), log.reliable)
    {
      WriteView(f, view);
      ghost var written := repo.rows;
      online := Supplement(f, view, old(repo.rows));
      GatheredMeaning(f, view, old(repo.rows));
      ViewKeepsStatuses(f, view, old(repo.rows));
      assert written.Keys <= repo.rows.Keys;
    }

    /** `scan_and_update`. */
    method ScanAndUpdate(f: Feed) returns (res: ScanResult)
      requires Valid()
      modifies repo, log, this`decoNodeMacs
      ensures Valid()
      ensures res.error <==> View(f).Raised?
      ensures !res.error ==> (res.skipped <==> OnlineSet(f, old(decoNodeMacs)) == {})
      ensures repo.rows == Scanned(f, old(decoNodeMacs), old(repo.rows))
      ensures decoNodeMacs == Remembered(f, old(decoNodeMacs))
      ensures Grew(old(log.events), log.events, Due(f, old(decoNodeMacs), old(repo.rows)), log.reliable)
    {
      GrewNothing(log.events, log.reliable);
      var view := BuildView(f);
      if view.Raised? {
        return ScanResult(true, false);
      }
      var online := Gather(f, view.value);
      ghost var midEvents, midRows := log.events, repo.rows;
      var skipped := Transitions(online);
      NewIsApart(view.value, old(repo.rows), midRows, online);
      GrewTwice(old(log.events), midEvents, log.events, NewDue(view.value, old(repo.rows)),
                TransitionsDue(midRows, online), log.reliable);
      return ScanResult(false, skipped);
    }

    /** Other writers, and then one more scan of a run. */
    method RunNext(round: Round, ghost scans: seq<Scan>, ghost rounds: seq<Round>,
                   ghost rows: map<Mac, Row>, ghost nodes: set<Mac>, ghost events: seq<Event>)
      returns (ghost s: Scan)
      requires Valid() && Account(scans, rounds, rows, nodes, events, repo.rows, decoNodeMacs, log.events, log.reliable)
      modifies repo, log, this`decoNodeMacs
      ensures Valid() && Account(scans + [s], rounds + [round], rows, nodes, events, repo.rows, decoNodeMacs, log.events, log.reliable)
    {
      WritesKeep(repo.rows, round.writes);
      WriteElsewhere(repo, round.writes);
      ghost var found := repo.rows;
      var r := ScanAndUpdate(round.feed);
      s := Scan(round, old(decoNodeMacs), found, decoNodeMacs, repo.rows,
                Lifted(round.feed, old(decoNodeMacs), found), Unnamed(round.feed), log.events[|old(log.events)|..]);
      AccountAppend(scans, rounds, s, old(repo.rows), rows, nodes, events, old(log.events), log.reliable);
    }

    /** Any run of scans with other writers in between; `scans` tells what each found and did. */
    method Run(rounds: seq<Round>) returns (ghost scans: seq<Scan>)
      requires Valid()
      modifies repo, log, this`decoNodeMacs
      ensures Valid()
      ensures Account(scans, rounds, old(repo.rows), old(decoNodeMacs), old(log.events),
                      repo.rows, decoNodeMacs, log.events, log.reliable)
      ensures log.reliable ==> InStep(log.events, log.alerts)
    {
      scans := [];
      AccountEmpty(repo.rows, decoNodeMacs, log.events, log.reliable);
      for i := 0 to |rounds|
        invariant Valid()
        invariant Account(scans, rounds[..i], old(repo.rows), old(decoNodeMacs), old(log.events),
                          repo.rows, decoNodeMacs, log.events, log.reliable)
      {
        ghost var s := RunNext(rounds[i], scans, rounds[..i], old(repo.rows), old(decoNodeMacs), old(log.events));
        scans := scans + [s];
        assert rounds[..i + 1] == rounds[..i] + [rounds[i]];
      }
      assert rounds[..|rounds|] == rounds;
      if log.reliable {
        ReliableInStep(repo.rows, log.events, log.alerts);
      }
    }
  }
}
