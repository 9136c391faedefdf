/**
 The device table and the three writers of a device's address history. Device
 identifiers are a function of the MAC address, so rows are keyed by MAC.
 */
module DeviceTable {
  import opened Wrappers
  import opened ByteStrings
  import opened Runs

  type Mac = string

  /** A missing or empty address counts as none. */
  type Ip = Option<string>

  predicate Given(ip: Ip) {
    ip.Some? && ip.value != ""
  }

  datatype Row = Row(ip: Ip, history: seq<string>, online: bool, staticIp: bool, reservedIp: Ip)

  // ---------------------------------------------------- effect on one row

  function NewRow(ip: Ip): Row {
    Row(ip, [], true, false, None)
  }

  /** `create_or_update` on an existing row: the address is replaced even by a missing one. */
  function Refreshed(row: Row, ip: Ip): Row {
    var history := if Given(ip) && Given(row.ip) && row.ip != ip then row.history + [row.ip.value] else row.history;
    row.(ip := ip, history := history, online := true)
  }

  /** `create_or_update` on the table. */
  function WithPresent(rows: map<Mac, Row>, mac: Mac, ip: Ip): map<Mac, Row> {
    rows[mac := if mac in rows then Refreshed(rows[mac], ip) else NewRow(ip)]
  }

  /** `update_current_ip` on an existing row. */
  function Corrected(row: Row, ip: string): Row {
    if row.ip == Some(ip) then row
    else row.(ip := Some(ip), history := if Given(row.ip) then row.history + [row.ip.value] else row.history)
  }

  /** `update_ip_history` on an existing row. */
  function Searched(row: Row, ip: string): Row {
    if row.ip != Some(ip) && ip != "" then
      row.(ip := Some(ip), history := if Given(row.ip) then row.history + [row.ip.value] else row.history)
    else row
  }

  /** `set_static_ip_reservation` on an existing row. */
  function Reserved(row: Row, enabled: bool, ip: Ip): Row {
    row.(staticIp := enabled, reservedIp := if enabled then ip else None)
  }

  // ------------------------------------------------------------ the table

  class Repository {
    var rows: map<Mac, Row>
    /** How many INSERT and UPDATE statements have run. */
    var writes: nat

    constructor ()
      ensures rows == map[] && writes == 0
    {
      rows, writes := map[], 0;
    }

    function GetByMac(mac: Mac): (r: Option<Row>)
      reads this
      ensures r.Some? <==> mac in rows
      ensures r.Some? ==> r.value == rows[mac]
    {
      if mac in rows then Some(rows[mac]) else None
    }

    /** `list_by_status`; the order by last_seen is not modelled. */
    method ListByStatus(online: bool) returns (macs: set<Mac>)
      ensures forall m :: m in macs <==> m in rows && rows[m].online == online
    {
      macs := set m | m in rows && rows[m].online == online;
    }

    method CreateOrUpdate(mac: Mac, ip: Ip)
      modifies this
      ensures rows == WithPresent(old(rows), mac, ip)
      ensures writes == old(writes) + 1
    {
      if mac in rows {
        var row := rows[mac];
        var history := row.history;
        if Given(ip) && Given(row.ip) && row.ip != ip {
          history := history + [row.ip.value];
        }
        rows := rows[mac := row.(ip := ip, history := history, online := true)];
      } else {
        rows := rows[mac := NewRow(ip)];
      }
      writes := writes + 1;
    }

    method UpdateCurrentIp(mac: Mac, ip: string)
      modifies this
      ensures rows == if mac in old(rows) then old(rows)[mac := Corrected(old(rows)[mac], ip)] else old(rows)
      ensures writes == old(writes) + if mac in old(rows) && old(rows)[mac].ip != Some(ip) then 1 else 0
    {
      if mac !in rows || rows[mac].ip == Some(ip) {
        return;
      }
      var row := rows[mac];
      var history := row.history;
      if Given(row.ip) {
        history := history + [row.ip.value];
      }
      rows := rows[mac := row.(ip := Some(ip), history := history)];
      writes := writes + 1;
    }

    /** `update_ip_history` of the search service, which writes the same table. */
    method UpdateIpHistory(mac: Mac, ip: string) returns (updated: bool)
      modifies this
      ensures rows == if mac in old(rows) then old(rows)[mac := Searched(old(rows)[mac], ip)] else old(rows)
      ensures updated <==> rows != old(rows)
    {
      if mac !in rows {
        return false;
      }
      var row := rows[mac];
      if row.ip == Some(ip) || ip == "" {
        return false;
      }
      var history := row.history;
      if Given(row.ip) {
        history := history + [row.ip.value];
      }
      rows := rows[mac := row.(ip := Some(ip), history := history)];
      assert rows[mac] != old(rows)[mac];
      writes := writes + 1;
      return true;
    }

    method SetStaticIpReservation(mac: Mac, enabled: bool, ip: Ip)
      modifies this
      ensures rows == if mac in old(rows) then old(rows)[mac := Reserved(old(rows)[mac], enabled, ip)] else old(rows)
      ensures writes == old(writes) + 1
    {
      if mac in rows {
        rows := rows[mac := rows[mac].(staticIp := enabled, reservedIp := if enabled then ip else None)];
      }
      writes := writes + 1;
    }

    method MarkOffline(mac: Mac)
      modifies this
      ensures rows == if mac in old(rows) then old(rows)[mac := old(rows)[mac].(online := false)] else old(rows)
    {
      if mac in rows {
        rows := rows[mac := rows[mac].(online := false)];
      }
      writes := writes + 1;
    }

    method MarkOnline(mac: Mac)
      modifies this
      ensures rows == if mac in old(rows) then old(rows)[mac := old(rows)[mac].(online := true)] else old(rows)
    {
      if mac in rows {
        rows := rows[mac := rows[mac].(online := true)];
      }
      writes := writes + 1;
    }
  }

  // ------------------------------------------------------ address history

  datatype Writer = ScanWriter | RouterWriter | SearchWriter

  datatype Update = Update(writer: Writer, ip: string)

  function Apply(row: Row, u: Update): Row {
    match u.writer
    case ScanWriter => Refreshed(row, Some(u.ip))
    case RouterWriter => Corrected(row, u.ip)
    case SearchWriter => Searched(row, u.ip)
  }

  function ApplyAll(row: Row, us: seq<Update>): Row {
    if us == [] then row else Apply(ApplyAll(row, us[..|us| - 1]), us[|us| - 1])
  }

  /** The stored history followed by the current address. */
  function Trail(row: Row): seq<string> {
    row.history + if Given(row.ip) then [row.ip.value] else []
  }

  function Addresses(us: seq<Update>): seq<string> {
    seq(|us|, i requires 0 <= i < |us| => us[i].ip)
  }

  /** No writer of addresses touches a reservation, and only the scan touches the status. */
  lemma WritersKeepTheRest(row: Row, u: Update)
    ensures var after := Apply(row, u);
            && after.staticIp == row.staticIp && after.reservedIp == row.reservedIp
            && after.online == (u.writer == ScanWriter || row.online)
  {
  }

  /** The row of a device written as present: online at the address given, even a missing one, with its reservation kept. */
  lemma PresentMeaning(rows: map<Mac, Row>, mac: Mac, ip: Ip)
    ensures var after := WithPresent(rows, mac, ip);
            && mac in after && after[mac].ip == ip && after[mac].online
            && (mac in rows ==> after[mac].staticIp == rows[mac].staticIp && after[mac].reservedIp == rows[mac].reservedIp)
            && (mac in rows && !Given(ip) ==> after[mac].history == rows[mac].history)
            && (mac !in rows ==> after[mac].history == [] && !after[mac].staticIp && after[mac].reservedIp == None)
            && forall m | m != mac :: (m in after <==> m in rows) && (m in rows ==> after[m] == rows[m])
  {
  }

  /** Any of the three writers extends the trail by an address that differs from the current one. */
  lemma EveryWriterExtendsTrail(row: Row, u: Update)
    requires Given(row.ip) && u.ip != ""
    ensures Apply(row, u).ip == Some(u.ip)
    ensures Trail(Apply(row, u)) == if row.ip.value == u.ip then Trail(row) else Trail(row) + [u.ip]
  {
  }

  lemma SquashBehind(earlier: seq<string>, supplied: seq<string>, x: string)
    requires supplied != []
    ensures earlier + Squash(supplied + [x])
         == if supplied[|supplied| - 1] == x then earlier + Squash(supplied) else earlier + Squash(supplied) + [x]
  {
    SquashAppend(supplied, x);
    ConcatAssociates(earlier, Squash(supplied), [x]);
  }

  lemma AddressesAppend(first: string, us: seq<Update>, u: Update)
    ensures [first] + Addresses(us + [u]) == [first] + Addresses(us) + [u.ip]
  {
  }

  /** The address after any updates is the last one supplied. */
  lemma {:induction false} LastAddress(row: Row, us: seq<Update>)
    requires Given(row.ip) && forall u | u in us :: u.ip != ""
    ensures Given(ApplyAll(row, us).ip)
    ensures ApplyAll(row, us).ip.value == ([row.ip.value] + Addresses(us))[|us|]
  {
    if us != [] {
      var init, last := us[..|us| - 1], us[|us| - 1];
      LastAddress(row, init);
      EveryWriterExtendsTrail(ApplyAll(row, init), last);
    }
  }

  /**
   However the writers interleave, the trail of a row with an address is its earlier history and
   then its address and every supplied one with consecutive repeats removed.
   */
  lemma {:induction false} TrailIsSquashed(row: Row, us: seq<Update>)
    requires Given(row.ip) && forall u | u in us :: u.ip != ""
    ensures Given(ApplyAll(row, us).ip)
    ensures Trail(ApplyAll(row, us)) == row.history + Squash([row.ip.value] + Addresses(us))
  {
    if us == [] {
      assert [row.ip.value] + Addresses(us) == [row.ip.value];
    } else {
      var init, last := us[..|us| - 1], us[|us| - 1];
      TrailIsSquashed(row, init);
      LastAddress(row, init);
      LastAddress(row, us);
      EveryWriterExtendsTrail(ApplyAll(row, init), last);
      AddressesAppend(row.ip.value, init, last);
      assert us == init + [last];
      SquashBehind(row.history, [row.ip.value] + Addresses(init), last.ip);
    }
  }

  /** A scan keeps the trail exactly when it supplies an address; a missing one drops the current address. */
  lemma TrailKeptIffGiven(row: Row, ip: Ip)
    requires Given(row.ip)
    ensures Trail(row) <= Trail(Refreshed(row, ip)) <==> Given(ip)
  {
    assert |Trail(row)| == |row.history| + 1;
  }
}
