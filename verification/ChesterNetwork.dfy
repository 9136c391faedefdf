/** The router's snapshot and the two ways a scan lets it override local knowledge. */
module ChesterNetwork {
  import opened Wrappers
  import opened DeviceTable

  datatype Neighbor = Neighbor(mac: Mac, ip: string, state: string, confirmedAge: Option<nat>)

  datatype Lease = Lease(mac: Mac, ip: string, hostname: Option<string>, expiry: nat)

  datatype Reservation = Reservation(mac: Mac, ip: string, name: string)

  datatype NetworkSnapshot = NetworkSnapshot(neighbors: seq<Neighbor>, leases: seq<Lease>, reservations: seq<Reservation>)

  const DEFAULT_MAX_STALE_AGE := 120

  // ------------------------------------------------------ online neighbors

  predicate Alive(n: Neighbor, maxStaleAge: nat) {
    || n.state == "REACHABLE" || n.state == "DELAY" || n.state == "PROBE"
    || (n.state == "STALE" && n.confirmedAge.Some? && n.confirmedAge.value <= maxStaleAge)
  }

  function Age(n: Neighbor): nat {
    if n.confirmedAge.Some? then n.confirmedAge.value else 0
  }

  /** Row `i` is the first live row of least confirmed age for its device. */
  ghost predicate IsBest(ns: seq<Neighbor>, maxStaleAge: nat, i: nat) {
    && i < |ns| && Alive(ns[i], maxStaleAge)
    && forall j | 0 <= j < |ns| && Alive(ns[j], maxStaleAge) && ns[j].mac == ns[i].mac ::
         Age(ns[i]) <= Age(ns[j]) && (j < i ==> Age(ns[i]) < Age(ns[j]))
  }

  /** The dictionary holds the best row of each device that has a live row, and nothing else. */
  ghost predicate HoldsBest(online: map<Mac, Neighbor>, ns: seq<Neighbor>, maxStaleAge: nat) {
    && (forall i | 0 <= i < |ns| && Alive(ns[i], maxStaleAge) :: ns[i].mac in online)
    && (forall m | m in online :: exists i: nat :: IsBest(ns, maxStaleAge, i) && ns[i].mac == m && online[m] == ns[i])
  }

  /** The condition determines the dictionary. */
  lemma HoldsBestUnique(a: map<Mac, Neighbor>, b: map<Mac, Neighbor>, ns: seq<Neighbor>, maxStaleAge: nat)
    requires HoldsBest(a, ns, maxStaleAge) && HoldsBest(b, ns, maxStaleAge)
    ensures a == b
  {
    assert a.Keys == b.Keys;
    forall m | m in a
      ensures a[m] == b[m]
    {
      var i: nat :| IsBest(ns, maxStaleAge, i) && ns[i].mac == m && a[m] == ns[i];
      var j: nat :| IsBest(ns, maxStaleAge, j) && ns[j].mac == m && b[m] == ns[j];
    }
  }

  function Keep(online: map<Mac, Neighbor>, n: Neighbor, maxStaleAge: nat): map<Mac, Neighbor> {
    if Alive(n, maxStaleAge) && (n.mac !in online || Age(n) < Age(online[n.mac])) then online[n.mac := n] else online
  }

  function Online(ns: seq<Neighbor>, maxStaleAge: nat): map<Mac, Neighbor> {
    if ns == [] then map[] else Keep(Online(ns[..|ns| - 1], maxStaleAge), ns[|ns| - 1], maxStaleAge)
  }

  lemma OldBest(ns: seq<Neighbor>, i: nat, maxStaleAge: nat)
    requires ns != [] && IsBest(ns[..|ns| - 1], maxStaleAge, i)
    requires var n := ns[|ns| - 1];
             Alive(n, maxStaleAge) && n.mac == ns[i].mac ==> Age(ns[i]) <= Age(n)
    ensures IsBest(ns, maxStaleAge, i)
  {
    var init := ns[..|ns| - 1];
    forall j | 0 <= j < |ns| && Alive(ns[j], maxStaleAge) && ns[j].mac == ns[i].mac
      ensures Age(ns[i]) <= Age(ns[j]) && (j < i ==> Age(ns[i]) < Age(ns[j]))
    {
      if j < |init| {
        assert ns[j] == init[j];
      }
    }
  }

  lemma NewBest(ns: seq<Neighbor>, before: map<Mac, Neighbor>, maxStaleAge: nat)
    requires ns != [] && HoldsBest(before, ns[..|ns| - 1], maxStaleAge)
    requires var n := ns[|ns| - 1];
             Alive(n, maxStaleAge) && (n.mac !in before || Age(n) < Age(before[n.mac]))
    ensures IsBest(ns, maxStaleAge, |ns| - 1)
  {
    var init, n := ns[..|ns| - 1], ns[|ns| - 1];
    if n.mac in before {
      var i: nat :| IsBest(init, maxStaleAge, i) && init[i].mac == n.mac && before[n.mac] == init[i];
      forall j | 0 <= j < |ns| - 1 && Alive(ns[j], maxStaleAge) && ns[j].mac == n.mac
        ensures Age(n) < Age(ns[j])
      {
        assert ns[j] == init[j];
      }
    } else {
      forall j | 0 <= j < |ns| - 1 && Alive(ns[j], maxStaleAge)
        ensures ns[j].mac != n.mac
      {
        assert ns[j] == init[j];
      }
    }
  }

  lemma {:induction false} OnlineHoldsBest(ns: seq<Neighbor>, maxStaleAge: nat)
    ensures HoldsBest(Online(ns, maxStaleAge), ns, maxStaleAge)
  {
    if ns != [] {
      var init, n := ns[..|ns| - 1], ns[|ns| - 1];
      OnlineHoldsBest(init, maxStaleAge);
      var before, after := Online(init, maxStaleAge), Online(ns, maxStaleAge);
      forall m | m in after
        ensures exists i: nat :: IsBest(ns, maxStaleAge, i) && ns[i].mac == m && after[m] == ns[i]
      {
        if m == n.mac && after[m] == n && (m !in before || before[m] != n) {
          NewBest(ns, before, maxStaleAge);
        } else {
          var i: nat :| IsBest(init, maxStaleAge, i) && init[i].mac == m && before[m] == init[i];
          OldBest(ns, i, maxStaleAge);
        }
      }
    }
  }

  /** `online_neighbors`. */
  method OnlineNeighbors(s: NetworkSnapshot, maxStaleAge: nat) returns (online: map<Mac, Neighbor>)
    ensures online == Online(s.neighbors, maxStaleAge)
    ensures HoldsBest(online, s.neighbors, maxStaleAge)
  {
    online := map[];
    for i := 0 to |s.neighbors|
      invariant online == Online(s.neighbors[..i], maxStaleAge)
    {
      var n := s.neighbors[i];
      assert s.neighbors[..i + 1] == s.neighbors[..i] + [n];
      if Alive(n, maxStaleAge) {
        if n.mac !in online || Age(n) < Age(online[n.mac]) {
          online := online[n.mac := n];
        }
      }
    }
    assert s.neighbors[..|s.neighbors|] == s.neighbors;
    OnlineHoldsBest(s.neighbors, maxStaleAge);
  }

  /**
   A device is online exactly if a row shows it reachable, delayed or probed, or stale and confirmed lately enough;
   its entry is such a row, and none is confirmed more recently, one without an age counting as just confirmed.
   */
  lemma OnlineExactly(ns: seq<Neighbor>, maxStaleAge: nat, m: Mac)
    ensures m in Online(ns, maxStaleAge) <==>
              exists n :: n in ns && n.mac == m
                          && (n.state in {"REACHABLE", "DELAY", "PROBE"}
                              || (n.state == "STALE" && n.confirmedAge.Some? && n.confirmedAge.value <= maxStaleAge))
    ensures m in Online(ns, maxStaleAge) ==>
              var best := Online(ns, maxStaleAge)[m];
              && best in ns && best.mac == m && Alive(best, maxStaleAge)
              && forall n | n in ns && n.mac == m && Alive(n, maxStaleAge) ::
                   best.confirmedAge.None? || best.confirmedAge.value == 0
                   || (n.confirmedAge.Some? && best.confirmedAge.value <= n.confirmedAge.value)
  {
    OnlineHoldsBest(ns, maxStaleAge);
    if n :| n in ns && n.mac == m && Alive(n, maxStaleAge) {
      assert m in Online(ns, maxStaleAge);
    }
  }

  // ------------------------------------------------------------- IP hints

  /** A dictionary built from pairs in order: the last pair of a key wins. */
  function LastWins(ps: seq<(Mac, string)>): map<Mac, string> {
    if ps == [] then map[] else LastWins(ps[..|ps| - 1])[ps[|ps| - 1].0 := ps[|ps| - 1].1]
  }

  lemma {:induction false} LastWinsMeaning(ps: seq<(Mac, string)>)
    ensures forall i | 0 <= i < |ps| :: ps[i].0 in LastWins(ps)
    ensures forall m | m in LastWins(ps) ::
              exists i :: 0 <= i < |ps| && ps[i] == (m, LastWins(ps)[m]) && forall j | i < j < |ps| :: ps[j].0 != m
  {
    if ps != [] {
      var init, last := ps[..|ps| - 1], ps[|ps| - 1];
      LastWinsMeaning(init);
      forall m | m in LastWins(ps)
        ensures exists i :: 0 <= i < |ps| && ps[i] == (m, LastWins(ps)[m]) && forall j | i < j < |ps| :: ps[j].0 != m
      {
        if m == last.0 {
          assert ps[|ps| - 1] == (m, LastWins(ps)[m]);
        } else {
          assert m in LastWins(init) && LastWins(ps)[m] == LastWins(init)[m];
          var i :| 0 <= i < |init| && init[i] == (m, LastWins(init)[m]) && forall j | i < j < |init| :: init[j].0 != m;
          assert ps[i] == (m, LastWins(ps)[m]);
        }
      }
    }
  }

  predicate Current(l: Lease, now: nat) {
    l.expiry == 0 || l.expiry > now
  }

  function LeasePairs(ls: seq<Lease>, now: nat): seq<(Mac, string)> {
    if ls == [] then []
    else LeasePairs(ls[..|ls| - 1], now) + if Current(ls[|ls| - 1], now) then [(ls[|ls| - 1].mac, ls[|ls| - 1].ip)] else []
  }

  function ReservationPairs(rs: seq<Reservation>): seq<(Mac, string)> {
    seq(|rs|, i requires 0 <= i < |rs| => (rs[i].mac, rs[i].ip))
  }

  function ReservedIps(s: NetworkSnapshot): map<Mac, string> {
    LastWins(ReservationPairs(s.reservations))
  }

  /** `ip_hints` at a given time: reservations over unexpired leases. */
  function IpHints(s: NetworkSnapshot, now: nat): map<Mac, string> {
    LastWins(LeasePairs(s.leases, now)) + ReservedIps(s)
  }

  // ------------------------------------------------- applying the snapshot

  /** What a scan knows of a device before it reaches the table. */
  datatype Info = Info(mac: Mac, ip: Ip, hostname: Option<string>, source: string)

  /** The scanned subnet; an address that is not an IP address makes the test raise. */
  datatype Subnet = Unparsed | Network(contains: string -> Option<bool>)

  ghost predicate WellKeyed(merged: map<Mac, Info>) {
    forall m | m in merged :: merged[m].mac == m
  }

  /** The test of `on_lan` on an address; None where `ipaddress` raises. */
  function Contains(subnet: Subnet, ip: Ip): Option<bool> {
    if subnet.Unparsed? || !Given(ip) then Some(false) else subnet.contains(ip.value)
  }

  /** `on_lan`. */
  function OnLan(subnet: Subnet, info: Info): Option<bool> {
    Contains(subnet, info.ip)
  }

  predicate Parses(merged: map<Mac, Info>, subnet: Subnet) {
    forall m | m in merged :: OnLan(subnet, merged[m]).Some?
  }

  predicate Confirmed(m: Mac, merged: map<Mac, Info>, online: map<Mac, Neighbor>, subnet: Subnet)
    requires m in merged
  {
    m in online || OnLan(subnet, merged[m]) != Some(true)
  }

  function Kept(merged: map<Mac, Info>, online: map<Mac, Neighbor>, subnet: Subnet): map<Mac, Info> {
    map m | m in merged && Confirmed(m, merged, online, subnet) :: merged[m]
  }

  function WithLive(kept: map<Mac, Info>, online: map<Mac, Neighbor>): map<Mac, Info> {
    map m | m in kept.Keys + online.Keys ::
      if m !in online then kept[m]
      else if m in kept then kept[m].(ip := Some(online[m].ip)) else Info(m, Some(online[m].ip), None, "chester")
  }

  /** The merged view after the router has overridden it. */
  function Applied(merged: map<Mac, Info>, online: map<Mac, Neighbor>, subnet: Subnet): map<Mac, Info> {
    WithLive(Kept(merged, online, subnet), online)
  }

  /** `_apply_chester_snapshot`: an address of the merged view that does not parse makes it raise. */
  function ApplySnapshot(merged: map<Mac, Info>, online: map<Mac, Neighbor>, subnet: Subnet): Result<map<Mac, Info>> {
    if Parses(merged, subnet) then Ok(Applied(merged, online, subnet)) else Raised
  }

  /** The first loop: entries on the subnet that the router does not confirm are dropped. */
  method KeepConfirmed(merged: map<Mac, Info>, online: map<Mac, Neighbor>, subnet: Subnet)
    returns (res: Result<map<Mac, Info>>)
    requires WellKeyed(merged)
    ensures res == if Parses(merged, subnet) then Ok(Kept(merged, online, subnet)) else Raised
  {
    var result: map<Mac, Info> := map[];
    var todo := merged.Keys;
    while todo != {}
      invariant todo <= merged.Keys
      invariant forall m | m in merged && m !in todo :: OnLan(subnet, merged[m]).Some?
      invariant result == map m | m in merged && m !in todo && Confirmed(m, merged, online, subnet) :: merged[m]
    {
      var mac :| mac in todo;
      todo := todo - {mac};
      var info := merged[mac];
      var onLan := OnLan(subnet, info);
      if onLan.None? {
        return Raised;
      }
      if !(onLan.value && info.mac !in online) {
        result := result[mac := info];
      }
    }
    assert result == Kept(merged, online, subnet);
    assert Parses(merged, subnet);
    return Ok(result);
  }

  /** The second loop: every device the router sees is present with the router's address. */
  method AddLive(kept: map<Mac, Info>, online: map<Mac, Neighbor>) returns (result: map<Mac, Info>)
    ensures result == WithLive(kept, online)
  {
    result := kept;
    var todo := online.Keys;
    while todo != {}
      invariant todo <= online.Keys
      invariant result.Keys == kept.Keys + (online.Keys - todo)
      invariant forall m | m in result :: result[m] == if m in todo then kept[m] else WithLive(kept, online)[m]
    {
      var mac :| mac in todo;
      todo := todo - {mac};
      if mac in result {
        result := result[mac := result[mac].(ip := Some(online[mac].ip))];
      } else {
        result := result[mac := Info(mac, Some(online[mac].ip), None, "chester")];
      }
    }
  }

  /** `_apply_chester_snapshot` on the router's live devices. */
  method ApplyChesterSnapshot(merged: map<Mac, Info>, online: map<Mac, Neighbor>, subnet: Subnet)
    returns (res: Result<map<Mac, Info>>)
    requires WellKeyed(merged)
    ensures res == ApplySnapshot(merged, online, subnet)
  {
    res := KeepConfirmed(merged, online, subnet);
    if res.Ok? {
      var result := AddLive(res.value, online);
      res := Ok(result);
    }
  }

  /** A non-empty address that lies in a subnet that parsed. */
  predicate OnSubnet(subnet: Subnet, ip: Ip) {
    subnet.Network? && ip.Some? && ip.value != "" && subnet.contains(ip.value) == Some(true)
  }

  /** A non-empty address that `ipaddress` rejects, where the subnet parsed. */
  predicate FailsToParse(subnet: Subnet, ip: Ip) {
    subnet.Network? && ip.Some? && ip.value != "" && subnet.contains(ip.value) == None
  }

  predicate SomeFailsToParse(subnet: Subnet, merged: map<Mac, Info>) {
    exists m | m in merged :: FailsToParse(subnet, merged[m].ip)
  }

  /** The result holds the router's live devices and the entries the router cannot judge. */
  lemma AppliedContents(merged: map<Mac, Info>, online: map<Mac, Neighbor>, subnet: Subnet)
    requires WellKeyed(merged)
    ensures var a := Applied(merged, online, subnet);
            && WellKeyed(a)
            && (forall m :: m in a <==> m in online || (m in merged && !OnSubnet(subnet, merged[m].ip)))
            && (forall m | m in online :: a[m].ip == Some(online[m].ip))
            && (forall m | m in a && m !in online :: a[m] == merged[m])
    ensures ApplySnapshot(merged, online, subnet) ==
              if SomeFailsToParse(subnet, merged) then Raised else Ok(Applied(merged, online, subnet))
  {
    if m :| m in merged && FailsToParse(subnet, merged[m].ip) {
      assert OnLan(subnet, merged[m]).None?;
    }
  }

  /** As a table transformation, the router's view of its own result is that result. */
  lemma AppliedIdempotent(merged: map<Mac, Info>, online: map<Mac, Neighbor>, subnet: Subnet)
    requires WellKeyed(merged)
    ensures var a := Applied(merged, online, subnet);
            Applied(a, online, subnet) == a
  {
    var a := Applied(merged, online, subnet);
    assert Applied(a, online, subnet).Keys == a.Keys;
  }

  /** Every live device's address passes the address parser. */
  predicate LiveParse(online: map<Mac, Neighbor>, subnet: Subnet) {
    forall m | m in online :: Contains(subnet, Some(online[m].ip)).Some?
  }

  lemma ResultParses(merged: map<Mac, Info>, online: map<Mac, Neighbor>, subnet: Subnet)
    requires Parses(merged, subnet)
    ensures Parses(Applied(merged, online, subnet), subnet) <==> LiveParse(online, subnet)
  {
    var a := Applied(merged, online, subnet);
    assert forall m | m in online :: m in a && a[m].ip == Some(online[m].ip);
    assert forall m | m in a && m !in online :: m in merged && a[m] == merged[m];
  }

  /**
   Applying the same snapshot to its own result gives that result again if and only if
   every live router address parses; otherwise the second application raises.
   */
  lemma AppliedTwice(merged: map<Mac, Info>, online: map<Mac, Neighbor>, subnet: Subnet)
    requires WellKeyed(merged) && ApplySnapshot(merged, online, subnet).Ok?
    ensures var first := ApplySnapshot(merged, online, subnet);
            ApplySnapshot(first.value, online, subnet) == if LiveParse(online, subnet) then first else Raised
  {
    ResultParses(merged, online, subnet);
    AppliedIdempotent(merged, online, subnet);
  }

  /** A row that the neighbor pattern accepts, with an address that no address parser does. */
  function UnparsableNeighbor(): Neighbor {
    Neighbor("02:00:00:00:00:77", "999.1.1.1", "REACHABLE", None)
  }

  /** On a scan that found nothing else, such a row is applied once and makes the second application raise. */
  lemma SecondApplicationRaises(subnet: Subnet, maxStaleAge: nat)
    requires subnet.Network? && subnet.contains(UnparsableNeighbor().ip) == None
    ensures var online := Online([UnparsableNeighbor()], maxStaleAge);
            var first := ApplySnapshot(map[], online, subnet);
            first.Ok? && ApplySnapshot(first.value, online, subnet) == Raised
  {
    var n := UnparsableNeighbor();
    assert Online([n], maxStaleAge) == map[n.mac := n] by {
      assert [n][..0] == [];
    }
    AppliedTwice(map[], map[n.mac := n], subnet);
    assert Contains(subnet, Some(map[n.mac := n][n.mac].ip)).None?;
  }

  /** With the router's rows: every live device carries the address of its first least-aged live row. */
  lemma AppliedAddress(merged: map<Mac, Info>, s: NetworkSnapshot, maxStaleAge: nat, subnet: Subnet, m: Mac)
    requires m in Online(s.neighbors, maxStaleAge)
    ensures var a := Applied(merged, Online(s.neighbors, maxStaleAge), subnet);
            m in a && exists i: nat :: IsBest(s.neighbors, maxStaleAge, i) && s.neighbors[i].mac == m
                                       && a[m].ip == Some(s.neighbors[i].ip)
  {
    OnlineHoldsBest(s.neighbors, maxStaleAge);
    var i: nat :| IsBest(s.neighbors, maxStaleAge, i) && s.neighbors[i].mac == m
                  && Online(s.neighbors, maxStaleAge)[m] == s.neighbors[i];
  }

  // -------------------------------------------- addresses and reservations

  /** What `_sync_ips_and_reservations` should make of one row. */
  function Synced(m: Mac, row: Row, online: set<Mac>, hints: map<Mac, string>, reserved: map<Mac, string>): Row {
    var r := if m in hints && m !in online then Corrected(row, hints[m]) else row;
    if m in reserved then Reserved(r, true, Some(reserved[m]))
    else if reserved != map[] && r.staticIp then Reserved(r, false, None)
    else r
  }

  function SyncedRows(rows: map<Mac, Row>, online: set<Mac>, hints: map<Mac, string>, reserved: map<Mac, string>): map<Mac, Row> {
    map m | m in rows :: Synced(m, rows[m], online, hints, reserved)
  }

  /** What `_sync_ips_and_reservations` makes of a table, for a snapshot and a time. */
  function Mirrored(rows: map<Mac, Row>, s: NetworkSnapshot, now: nat): map<Mac, Row> {
    SyncedRows(rows, Online(s.neighbors, DEFAULT_MAX_STALE_AGE).Keys, IpHints(s, now), ReservedIps(s))
  }

  /** The table after each of the three loops. */
  function WithIps(rows: map<Mac, Row>, online: set<Mac>, hints: map<Mac, string>): map<Mac, Row> {
    map m | m in rows :: if m in hints && m !in online then Corrected(rows[m], hints[m]) else rows[m]
  }

  function WithMarks(rows: map<Mac, Row>, reserved: map<Mac, string>): map<Mac, Row> {
    map m | m in rows :: if m in reserved then Reserved(rows[m], true, Some(reserved[m])) else rows[m]
  }

  function WithoutUnreserved(rows: map<Mac, Row>, reserved: map<Mac, string>): map<Mac, Row> {
    map m | m in rows :: if m !in reserved && rows[m].staticIp then Reserved(rows[m], false, None) else rows[m]
  }

  lemma LoopsCompose(rows: map<Mac, Row>, online: set<Mac>, hints: map<Mac, string>, reserved: map<Mac, string>)
    ensures var marked := WithMarks(WithIps(rows, online, hints), reserved);
            SyncedRows(rows, online, hints, reserved) == if reserved == map[] then marked else WithoutUnreserved(marked, reserved)
  {
  }

  /** If the three loops together change nothing, none of them does. */
  lemma LoopsFixed(rows: map<Mac, Row>, online: set<Mac>, hints: map<Mac, string>, reserved: map<Mac, string>)
    requires SyncedRows(rows, online, hints, reserved) == rows
    ensures WithIps(rows, online, hints) == rows && WithMarks(rows, reserved) == rows
  {
    forall m | m in rows
      ensures WithIps(rows, online, hints)[m] == rows[m] && WithMarks(rows, reserved)[m] == rows[m]
    {
      assert Synced(m, rows[m], online, hints, reserved) == rows[m];
    }
  }

  /** The first loop: addresses of devices that are not present. */
  method SyncIps(repo: Repository, online: map<Mac, Neighbor>, hints: map<Mac, string>)
    modifies repo
    ensures repo.rows == WithIps(old(repo.rows), online.Keys, hints)
    ensures repo.rows == old(repo.rows) ==> repo.writes == old(repo.writes)
  {
    var todo := hints.Keys;
    while todo != {}
      invariant todo <= hints.Keys
      invariant repo.rows == map m | m in old(repo.rows) ::
                               if m in hints && m !in online && m !in todo then Corrected(old(repo.rows)[m], hints[m])
                               else old(repo.rows)[m]
      invariant repo.writes == old(repo.writes)
                || exists m :: m in old(repo.rows) && m in hints && m !in online && old(repo.rows)[m].ip != Some(hints[m])
    {
      var mac :| mac in todo;
      todo := todo - {mac};
      if mac !in online {
        var device := repo.GetByMac(mac);
        if device.Some? && device.value.ip != Some(hints[mac]) {
          assert old(repo.rows)[mac].ip != Some(hints[mac]);
          repo.UpdateCurrentIp(mac, hints[mac]);
        }
      }
    }
    if repo.writes != old(repo.writes) {
      var m :| m in old(repo.rows) && m in hints && m !in online && old(repo.rows)[m].ip != Some(hints[m]);
      assert repo.rows[m].ip == Some(hints[m]);
    }
  }

  /** The second loop: reserved devices become static with the reserved address. */
  method MarkReserved(repo: Repository, reserved: map<Mac, string>)
    modifies repo
    ensures repo.rows == WithMarks(old(repo.rows), reserved)
    ensures repo.rows == old(repo.rows) ==> repo.writes == old(repo.writes)
  {
    var todo := reserved.Keys;
    while todo != {}
      invariant todo <= reserved.Keys
      invariant repo.rows == map m | m in old(repo.rows) ::
                               if m in reserved && m !in todo then Reserved(old(repo.rows)[m], true, Some(reserved[m]))
                               else old(repo.rows)[m]
      invariant repo.writes == old(repo.writes)
                || exists m :: m in old(repo.rows) && m in reserved && old(repo.rows)[m] != Reserved(old(repo.rows)[m], true, Some(reserved[m]))
    {
      var mac :| mac in todo;
      todo := todo - {mac};
      var device := repo.GetByMac(mac);
      if device.Some? && (!device.value.staticIp || device.value.reservedIp != Some(reserved[mac])) {
        assert old(repo.rows)[mac] != Reserved(old(repo.rows)[mac], true, Some(reserved[mac]));
        repo.SetStaticIpReservation(mac, true, Some(reserved[mac]));
      }
    }
    if repo.writes != old(repo.writes) {
      var m :| m in old(repo.rows) && m in reserved && old(repo.rows)[m] != Reserved(old(repo.rows)[m], true, Some(reserved[m]));
      assert repo.rows[m] != old(repo.rows)[m];
    }
  }

  /** The third loop: devices without a reservation lose the flag. */
  method ClearUnreserved(repo: Repository, reserved: map<Mac, string>)
    modifies repo
    ensures repo.rows == WithoutUnreserved(old(repo.rows), reserved)
    ensures repo.rows == old(repo.rows) ==> repo.writes == old(repo.writes)
  {
    var devices := repo.rows;
    var todo := devices.Keys;
    while todo != {}
      invariant todo <= devices.Keys
      invariant repo.rows == map m | m in devices ::
                               if m !in reserved && devices[m].staticIp && m !in todo then Reserved(devices[m], false, None)
                               else devices[m]
      invariant repo.writes == old(repo.writes) || exists m :: m in devices && m !in reserved && devices[m].staticIp
    {
      var mac :| mac in todo;
      todo := todo - {mac};
      if devices[mac].staticIp && mac !in reserved {
        repo.SetStaticIpReservation(mac, false, None);
      }
    }
    if repo.writes != old(repo.writes) {
      var m :| m in devices && m !in reserved && devices[m].staticIp;
      assert repo.rows[m].staticIp != devices[m].staticIp;
    }
  }

  /** `_sync_ips_and_reservations` at a given time; a table already in agreement is not written. */
  method SyncIpsAndReservations(repo: Repository, s: NetworkSnapshot, now: nat)
    modifies repo
    ensures repo.rows == Mirrored(old(repo.rows), s, now)
    ensures repo.rows == old(repo.rows) ==> repo.writes == old(repo.writes)
  {
    var online := OnlineNeighbors(s, DEFAULT_MAX_STALE_AGE);
    var hints, reserved := IpHints(s, now), ReservedIps(s);
    LoopsCompose(repo.rows, online.Keys, hints, reserved);
    if SyncedRows(repo.rows, online.Keys, hints, reserved) == repo.rows {
      LoopsFixed(repo.rows, online.Keys, hints, reserved);
    }
    SyncIps(repo, online, hints);
    MarkReserved(repo, reserved);
    if reserved != map[] {
      ClearUnreserved(repo, reserved);
    }
  }

  /** The synchronised table, row by row, in the router's terms. */
  lemma SyncedMeaning(rows: map<Mac, Row>, online: set<Mac>, hints: map<Mac, string>, reserved: map<Mac, string>)
    ensures var after := SyncedRows(rows, online, hints, reserved);
            && after.Keys == rows.Keys
            && (forall m | m in after :: after[m].online == rows[m].online)
            && (forall m | m in after && m in hints && m !in online :: after[m].ip == Some(hints[m]))
            && (forall m | m in after && (m !in hints || m in online) :: after[m].ip == rows[m].ip)
            && (reserved != map[] ==> forall m | m in after ::
                  && (after[m].staticIp <==> m in reserved)
                  && after[m].reservedIp == (if m in reserved then Some(reserved[m]) else if rows[m].staticIp then None else rows[m].reservedIp))
            && (reserved == map[] ==> forall m | m in after ::
                  after[m].staticIp == rows[m].staticIp && after[m].reservedIp == rows[m].reservedIp)
  {
  }

  lemma SyncedIdempotent(rows: map<Mac, Row>, online: set<Mac>, hints: map<Mac, string>, reserved: map<Mac, string>)
    ensures var after := SyncedRows(rows, online, hints, reserved);
            SyncedRows(after, online, hints, reserved) == after
  {
  }

  /** On a table that was synchronised with the same snapshot and time, nothing changes and nothing is written. */
  method SyncAgain(repo: Repository, s: NetworkSnapshot, now: nat, ghost before: map<Mac, Row>)
    requires repo.rows == Mirrored(before, s, now)
    modifies repo
    ensures repo.rows == old(repo.rows) && repo.writes == old(repo.writes)
  {
    SyncedIdempotent(before, Online(s.neighbors, DEFAULT_MAX_STALE_AGE).Keys, IpHints(s, now), ReservedIps(s));
    SyncIpsAndReservations(repo, s, now);
  }

  // ------------------------------------------------ in the snapshot's terms

  ghost predicate IsLastReservation(rs: seq<Reservation>, i: nat, m: Mac) {
    i < |rs| && rs[i].mac == m && forall j | i < j < |rs| :: rs[j].mac != m
  }

  ghost predicate IsLastLease(ls: seq<Lease>, now: nat, i: nat, m: Mac) {
    && i < |ls| && ls[i].mac == m && (ls[i].expiry == 0 || ls[i].expiry > now)
    && forall j | i < j < |ls| && (ls[j].expiry == 0 || ls[j].expiry > now) :: ls[j].mac != m
  }

  /** The reserved address of a device is that of its last reservation. */
  lemma ReservedIpsMeaning(s: NetworkSnapshot, m: Mac)
    ensures m in ReservedIps(s) <==> exists i: nat :: IsLastReservation(s.reservations, i, m)
    ensures forall i: nat | IsLastReservation(s.reservations, i, m) :: m in ReservedIps(s) && ReservedIps(s)[m] == s.reservations[i].ip
    ensures ReservedIps(s) == map[] <==> s.reservations == []
  {
    var ps := ReservationPairs(s.reservations);
    LastWinsMeaning(ps);
    forall i: nat | IsLastReservation(s.reservations, i, m)
      ensures m in ReservedIps(s) && ReservedIps(s)[m] == s.reservations[i].ip
    {
      assert ps[i].0 == m;
      var j :| 0 <= j < |ps| && ps[j] == (m, LastWins(ps)[m]) && forall k | j < k < |ps| :: ps[k].0 != m;
      assert s.reservations[j].mac == m;
    }
    if m in ReservedIps(s) {
      var j: nat :| 0 <= j < |ps| && ps[j] == (m, LastWins(ps)[m]) && forall k | j < k < |ps| :: ps[k].0 != m;
      assert forall k | j < k < |ps| :: ps[k].0 == s.reservations[k].mac;
      assert IsLastReservation(s.reservations, j, m);
    }
    if s.reservations != [] {
      assert ps[0].0 in ReservedIps(s);
    }
  }

  lemma LastLeaseOfInit(ls: seq<Lease>, now: nat, i: nat, m: Mac)
    requires ls != [] && !(ls[|ls| - 1].mac == m && Current(ls[|ls| - 1], now))
    ensures IsLastLease(ls, now, i, m) <==> IsLastLease(ls[..|ls| - 1], now, i, m)
  {
    assert forall j | 0 <= j < |ls| - 1 :: ls[..|ls| - 1][j] == ls[j];
  }

  lemma {:induction false} LeaseHints(ls: seq<Lease>, now: nat, m: Mac)
    ensures var hints := LastWins(LeasePairs(ls, now));
            && (m in hints <==> exists i: nat :: IsLastLease(ls, now, i, m))
            && forall i: nat | IsLastLease(ls, now, i, m) :: m in hints && hints[m] == ls[i].ip
  {
    if ls != [] {
      var n := |ls| - 1;
      var init, last := ls[..n], ls[n];
      LeaseHints(init, now, m);
      if Current(last, now) {
        var pairs := LeasePairs(init, now);
        assert (pairs + [(last.mac, last.ip)])[..|pairs|] == pairs;
      } else {
        assert LeasePairs(init, now) + [] == LeasePairs(init, now);
      }
      if last.mac == m && Current(last, now) {
        assert IsLastLease(ls, now, n, m);
      } else {
        forall i: nat
          ensures IsLastLease(ls, now, i, m) <==> IsLastLease(init, now, i, m)
        {
          LastLeaseOfInit(ls, now, i, m);
        }
      }
    }
  }

  /**
   The synchronised table in the snapshot's terms. With a reservation in the snapshot, a
   device is static exactly if it has one, at the address of its last; without one, no flag
   moves. A device that is not live takes the address of its last reservation, without one
   that of its last unexpired lease; every other address stays, and so does every status.
   */
  lemma MirroredMeaning(rows: map<Mac, Row>, s: NetworkSnapshot, now: nat, m: Mac)
    requires m in rows
    ensures var after, live := Mirrored(rows, s, now), Online(s.neighbors, 120).Keys;
            && after.Keys == rows.Keys && after[m].online == rows[m].online
            && (s.reservations == [] ==> after[m].staticIp == rows[m].staticIp && after[m].reservedIp == rows[m].reservedIp)
            && (s.reservations != [] ==> (after[m].staticIp <==> exists i: nat :: IsLastReservation(s.reservations, i, m)))
            && (s.reservations != [] && (forall i: nat :: !IsLastReservation(s.reservations, i, m)) ==>
                  after[m].reservedIp == if rows[m].staticIp then None else rows[m].reservedIp)
            && (forall i: nat | IsLastReservation(s.reservations, i, m) ::
                  && after[m].reservedIp == Some(s.reservations[i].ip)
                  && (m !in live ==> after[m].ip == Some(s.reservations[i].ip)))
            && (forall i: nat | IsLastLease(s.leases, now, i, m) && !exists j: nat :: IsLastReservation(s.reservations, j, m) ::
                  m !in live ==> after[m].ip == Some(s.leases[i].ip))
            && (m in live || !(exists i: nat :: IsLastLease(s.leases, now, i, m) || IsLastReservation(s.reservations, i, m))
                ==> after[m].ip == rows[m].ip)
  {
    ReservedIpsMeaning(s, m);
    LeaseHints(s.leases, now, m);
    SyncedMeaning(rows, Online(s.neighbors, DEFAULT_MAX_STALE_AGE).Keys, IpHints(s, now), ReservedIps(s));
  }
}
