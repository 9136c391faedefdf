/**
 * Printing the router's three marked tables and reading them back.  The printed text may hold what real output
 * holds besides the snapshot: a banner before the first marker, neighbor rows without a link-layer address,
 * interface and counter columns, upper-case addresses, options other than name, mac and ip, and unusable hosts.
 */
module ChesterRoundTrip {
  import opened Wrappers
  import opened TextTools
  import opened ChesterNetwork
  import opened ChesterText

  predicate Unmarked(line: string) {
    IsLine(line) && !IsMarker(line)
  }

  predicate AllUnmarked(lines: seq<string>) {
    forall l | l in lines :: Unmarked(l)
  }

  predicate AllWords(words: seq<string>) {
    forall w | w in words :: IsWord(w)
  }

  /** Words on one line cannot be taken for a marker or break the line. */
  lemma JoinUnmarked(words: seq<string>)
    requires words != [] && AllWords(words) && words[0] != "" && words[0][0] != '#'
    ensures Unmarked(Join(words))
  {
    JoinIsLine(words);
  }

  // ------------------------------------------------------------- neighbors

  datatype NeighborRow =
    | Known(neighbor: Neighbor, printedMac: string, dev: Option<string>, counters: seq<string>, used: nat,
            updated: nat, probes: seq<string>)
    | Unresolved(line: string)

  predicate PlainWords(words: seq<string>) {
    forall w | w in words :: IsWord(w) && !EndsInUsed(w)
  }

  /** The state is the last word of the row, if any word follows the address. */
  predicate WellFormedNeighbor(n: Neighbor) {
    && IsDotted(n.ip) && IsMac(n.mac)
    && (IsWord(n.state) || (n.state == "" && n.confirmedAge.None?))
  }

  predicate PrintableNeighbor(row: NeighborRow) {
    match row
    case Unresolved(line) => Unmarked(line) && "lladdr" !in Split(line)
    case Known(n, printedMac, dev, counters, _, _, probes) =>
      && WellFormedNeighbor(n) && Lower(printedMac) == n.mac
      && (n.state == "" ==> counters == probes == [])
      && (dev.Some? ==> IsWord(dev.value)) && PlainWords(counters) && PlainWords(probes)
  }

  function AgesText(used: nat, confirmed: nat, updated: nat): string {
    Decimal(used) + ("/" + (Decimal(confirmed) + ("/" + Decimal(updated))))
  }

  function AgeWords(row: NeighborRow): seq<string>
    requires row.Known?
  {
    if row.neighbor.confirmedAge.None? then []
    else ["used", AgesText(row.used, row.neighbor.confirmedAge.value, row.updated)]
  }

  function LastWord(n: Neighbor): seq<string> {
    if n.state == "" then [] else [n.state]
  }

  function StateWords(row: NeighborRow): seq<string>
    requires row.Known?
  {
    row.counters + (AgeWords(row) + (row.probes + LastWord(row.neighbor)))
  }

  function RowWords(row: NeighborRow): seq<string>
    requires row.Known?
  {
    var dev := if row.dev.Some? then ["dev", row.dev.value] else [];
    [row.neighbor.ip] + dev + ["lladdr", row.printedMac] + StateWords(row)
  }

  function NeighborLine(row: NeighborRow): string {
    match row
    case Unresolved(line) => line
    case Known(_, _, _, _, _, _, _) => Join(RowWords(row))
  }

  function NeighborLines(rows: seq<NeighborRow>): seq<string> {
    if rows == [] then [] else [NeighborLine(rows[0])] + NeighborLines(rows[1..])
  }

  function Neighbors(rows: seq<NeighborRow>): seq<Neighbor> {
    if rows == [] then [] else (if rows[0].Known? then [rows[0].neighbor] else []) + Neighbors(rows[1..])
  }

  lemma DigitRunBefore(number: string, c: char, rest: string)
    requires IsNumber(number) && !IsDigit(c)
    ensures DigitRun(number + ([c] + rest)) == |number|
  {
    DigitRunOf(number, [c] + rest);
  }

  lemma MiddleOfAges(used: nat, confirmed: nat, updated: nat)
    ensures MiddleOf(AgesText(used, confirmed, updated)) == Some(confirmed)
  {
    var a, b, c := Decimal(used), Decimal(confirmed), Decimal(updated);
    var rest := b + ("/" + c);
    var word := a + ("/" + rest);
    DigitRunBefore(a, '/', rest);
    assert word[|a|] == '/' && word[|a| + 1..] == rest;
    DigitRunBefore(b, '/', c);
    assert rest[|b|] == '/' && rest[|b| + 1] == c[0] && rest[..|b|] == b;
    assert c[0] in c;
    DecimalRoundTrip(confirmed);
  }

  lemma AgesTextIsWord(used: nat, confirmed: nat, updated: nat)
    ensures IsWord(AgesText(used, confirmed, updated))
  {
  }

  lemma {:induction false} UsedAgeSkips(plain: seq<string>, rest: seq<string>)
    requires PlainWords(plain)
    ensures UsedAge(plain + rest) == UsedAge(rest)
  {
    if plain == [] {
      assert plain + rest == rest;
    } else {
      assert plain[0] in plain;
      assert (plain + rest)[0] == plain[0] && (plain + rest)[1..] == plain[1..] + rest;
      UsedAgeSkips(plain[1..], rest);
    }
  }

  lemma UsedAgeStarts(used: nat, confirmed: nat, updated: nat, rest: seq<string>)
    ensures UsedAge(["used", AgesText(used, confirmed, updated)] + rest) == Some(confirmed)
  {
    MiddleOfAges(used, confirmed, updated);
    var words := ["used", AgesText(used, confirmed, updated)] + rest;
    assert words[0] == "used" && words[1] == AgesText(used, confirmed, updated);
  }

  lemma UsedAgeOfRow(row: NeighborRow)
    requires PrintableNeighbor(row) && row.Known?
    ensures UsedAge(StateWords(row)) == row.neighbor.confirmedAge
  {
    var rest := row.probes + LastWord(row.neighbor);
    UsedAgeSkips(row.counters, AgeWords(row) + rest);
    if row.neighbor.confirmedAge.Some? {
      UsedAgeStarts(row.used, row.neighbor.confirmedAge.value, row.updated, rest);
    } else {
      assert AgeWords(row) + rest == rest;
      UsedAgeSkips(row.probes, LastWord(row.neighbor));
    }
  }

  lemma StateWordsAreWords(row: NeighborRow)
    requires PrintableNeighbor(row) && row.Known?
    ensures AllWords(StateWords(row))
  {
    if row.neighbor.confirmedAge.Some? {
      AgesTextIsWord(row.used, row.neighbor.confirmedAge.value, row.updated);
    }
    assert AllWords(AgeWords(row));
    assert AllWords(row.probes + LastWord(row.neighbor));
  }

  lemma RowWordsAreWords(row: NeighborRow)
    requires PrintableNeighbor(row) && row.Known?
    ensures AllWords(RowWords(row))
  {
    DottedIsWord(row.neighbor.ip);
    MacIsWord(row.printedMac);
    StateWordsAreWords(row);
    var dev := if row.dev.Some? then ["dev", row.dev.value] else [];
    var start := [row.neighbor.ip] + dev + ["lladdr", row.printedMac];
    assert AllWords(start);
    assert RowWords(row) == start + StateWords(row);
  }

  function AddressIndex(row: NeighborRow): nat
    requires row.Known?
  {
    if row.dev.Some? then 3 else 1
  }

  lemma RowLayout(row: NeighborRow)
    requires row.Known?
    ensures var words, at := RowWords(row), AddressIndex(row);
            && |words| == at + 2 + |StateWords(row)|
            && words[0] == row.neighbor.ip && words[at] == "lladdr" && words[at + 1] == row.printedMac
            && (words[1] == "dev" <==> row.dev.Some?) && words[at + 2..] == StateWords(row)
  {
    var lladdr := "lladdr";
    assert lladdr[0] == 'l';
  }

  lemma StateOfRow(row: NeighborRow)
    requires PrintableNeighbor(row) && row.Known?
    ensures row.neighbor.state == if StateWords(row) == [] then "" else StateWords(row)[|StateWords(row)| - 1]
  {
  }

  lemma NeighborOfRow(line: string, row: NeighborRow)
    requires PrintableNeighbor(row) && row.Known? && Split(line) == RowWords(row)
    ensures NeighborOf(line) == Some(row.neighbor)
  {
    RowLayout(row);
    UsedAgeOfRow(row);
    StateOfRow(row);
  }

  lemma KnownRowReadsBack(row: NeighborRow)
    requires PrintableNeighbor(row) && row.Known?
    ensures NeighborOf(NeighborLine(row)) == Some(row.neighbor)
    ensures Unmarked(NeighborLine(row))
  {
    var words := RowWords(row);
    RowWordsAreWords(row);
    SplitJoin(words);
    NeighborOfRow(Join(words), row);
    RowLayout(row);
    assert words[0] in words && words[0][0] in words[0];
    JoinUnmarked(words);
  }

  lemma {:induction false} NeighborsReadBack(rows: seq<NeighborRow>)
    requires forall r | r in rows :: PrintableNeighbor(r)
    ensures Gather(NeighborLines(rows), NeighborOf) == Neighbors(rows)
    ensures AllUnmarked(NeighborLines(rows))
  {
    if rows != [] {
      var row := rows[0];
      assert row in rows;
      NeighborsReadBack(rows[1..]);
      if row.Known? {
        KnownRowReadsBack(row);
      } else {
        assert NeighborOf(row.line).None?;
      }
      assert NeighborLines(rows)[1..] == NeighborLines(rows[1..]);
    }
  }

  // ---------------------------------------------------------------- leases

  /** `client` is the identifier column with whatever follows it. */
  datatype LeaseRow = LeaseRow(lease: Lease, printedMac: string, client: seq<string>)

  predicate WellFormedLease(l: Lease) {
    IsIpv4(l.ip) && IsMac(l.mac) && (l.hostname.Some? ==> IsWord(l.hostname.value) && l.hostname.value != "*")
  }

  predicate PrintableLease(row: LeaseRow) {
    WellFormedLease(row.lease) && Lower(row.printedMac) == row.lease.mac && AllWords(row.client)
  }

  function LeaseWords(row: LeaseRow): seq<string> {
    var l := row.lease;
    [Decimal(l.expiry), row.printedMac, l.ip, if l.hostname.Some? then l.hostname.value else "*"] + row.client
  }

  function LeaseLines(rows: seq<LeaseRow>): seq<string> {
    if rows == [] then [] else [Join(LeaseWords(rows[0]))] + LeaseLines(rows[1..])
  }

  function Leases(rows: seq<LeaseRow>): seq<Lease> {
    if rows == [] then [] else [rows[0].lease] + Leases(rows[1..])
  }

  lemma LeaseReadsBack(row: LeaseRow)
    requires PrintableLease(row)
    ensures LeaseOf(Join(LeaseWords(row))) == Some(row.lease)
    ensures Unmarked(Join(LeaseWords(row)))
  {
    var words := LeaseWords(row);
    DottedIsWord(row.lease.ip);
    MacIsWord(row.printedMac);
    assert AllWords(words);
    SplitJoin(words);
    DecimalRoundTrip(row.lease.expiry);
    assert words[0][0] in words[0];
    JoinUnmarked(words);
  }

  lemma {:induction false} LeasesReadBack(rows: seq<LeaseRow>)
    requires forall r | r in rows :: PrintableLease(r)
    ensures Gather(LeaseLines(rows), LeaseOf) == Leases(rows)
    ensures AllUnmarked(LeaseLines(rows))
  {
    if rows != [] {
      assert rows[0] in rows;
      LeaseReadsBack(rows[0]);
      LeasesReadBack(rows[1..]);
      assert LeaseLines(rows)[1..] == LeaseLines(rows[1..]);
    }
  }

  // ---------------------------------------------------------- reservations

  datatype UciItem = Section(host: Host) | Other(line: string)

  predicate NoBreak(value: Option<string>) {
    value.Some? ==> IsUnbroken(value.value)
  }

  predicate PrintableItem(item: UciItem) {
    match item
    case Other(line) => Unmarked(line) && FieldOf(line).None?
    case Section(h) => NoBreak(h.name) && NoBreak(h.mac) && NoBreak(h.ip)
  }

  /** An option up to its value, as `uci show dhcp` prints it. */
  function OptionText(key: Key): string {
    match key
    case NameKey => "].name='"
    case MacKey => "].mac='"
    case IpKey => "].ip='"
  }

  function FieldLine(i: nat, key: Key, value: string): string {
    "dhcp.@host[" + Decimal(i) + OptionText(key) + value + "'"
  }

  function OptionLines(i: nat, key: Key, value: Option<string>): seq<string> {
    if value.Some? then [FieldLine(i, key, value.value)] else []
  }

  function HostLine(i: nat): string {
    "dhcp.@host[" + Decimal(i) + "]=host"
  }

  function HostLines(i: nat, h: Host): seq<string> {
    [HostLine(i)] + (OptionLines(i, NameKey, h.name) + (OptionLines(i, MacKey, h.mac) + OptionLines(i, IpKey, h.ip)))
  }

  function ItemLines(i: nat, item: UciItem): seq<string> {
    if item.Other? then [item.line] else HostLines(i, item.host)
  }

  function NextIndex(i: nat, item: UciItem): nat {
    if item.Other? then i else i + 1
  }

  /** Host sections are numbered in order, from `i` on. */
  function UciLines(items: seq<UciItem>, i: nat): seq<string>
    decreases |items|
  {
    if items == [] then [] else ItemLines(i, items[0]) + UciLines(items[1..], NextIndex(i, items[0]))
  }

  function ItemReservation(item: UciItem): seq<Reservation> {
    if item.Section? then Found(ReservationOf(item.host)) else []
  }

  function Reservations(items: seq<UciItem>): seq<Reservation> {
    if items == [] then []
    else ItemReservation(items[0]) + Reservations(items[1..])
  }

  lemma StripIdentity(s: string)
    requires s != "" && !IsSpace(s[0]) && !IsSpace(s[|s| - 1])
    ensures Strip(s) == s
  {
  }

  lemma HeadOf(i: nat, tail: string)
    requires tail != "" && !IsDigit(tail[0]) && !IsSpace(tail[|tail| - 1])
    ensures var line := HEAD + (Decimal(i) + tail);
            Strip(line) == line && line[|HEAD|..] == Decimal(i) + tail && DigitRun(Decimal(i) + tail) == |Decimal(i)|
  {
    var line := HEAD + (Decimal(i) + tail);
    assert line[0] == 'd' && line[|line| - 1] == tail[|tail| - 1];
    StripIdentity(line);
    DigitRunOf(Decimal(i), tail);
  }

  lemma QuotedOf(key: Key, other: Key, value: string)
    ensures Quoted(KeyText(key) + value + "'", other) == if key == other then Some(value) else None
  {
    var text := KeyText(key) + value + "'";
    assert KeyText(key) <= text;
    assert text[0] == KeyText(key)[0];
    assert text[|KeyText(key)|..|text| - 1] == value;
    if key != other {
      assert KeyText(key)[0] != KeyText(other)[0];
    }
  }

  lemma KeyReadsBack(id: string, key: Key, value: string)
    ensures KeyAndValue(id, KeyText(key) + value + "'") == Some(HostField(id, key, value))
  {
    QuotedOf(key, NameKey, value);
    QuotedOf(key, MacKey, value);
    QuotedOf(key, IpKey, value);
  }

  lemma FieldFrom(line: string, rest: string, n: nat)
    requires Strip(line) == line && HEAD <= line && line[|HEAD|..] == rest
    requires DigitRun(rest) == n > 0 && "]." <= rest[n..]
    ensures FieldOf(line) == KeyAndValue(rest[..n], rest[n + 2..])
  {
  }

  lemma DropPrefixes(a: string, b: string, c: string)
    ensures var s := a + (b + c);
            s[..|a|] == a && s[|a|..] == b + c && b <= s[|a|..] && s[|a| + |b|..] == c
  {
  }

  lemma FieldAfterHead(i: nat, text: string)
    requires text != "" && !IsSpace(text[|text| - 1])
    ensures FieldOf(HEAD + (Decimal(i) + ("]." + text))) == KeyAndValue(Decimal(i), text)
  {
    var id, dot := Decimal(i), "].";
    HeadOf(i, dot + text);
    DropPrefixes(id, dot, text);
    FieldFrom(HEAD + (id + (dot + text)), id + (dot + text), |id|);
  }

  lemma Regroup<T>(a: seq<T>, b: seq<T>, c: seq<T>, d: seq<T>, e: seq<T>, f: seq<T>)
    ensures a + b + (c + d) + e + f == a + (b + (c + (d + e + f)))
  {
    assert b + (c + (d + e + f)) == b + (c + d) + e + f;
  }

  lemma FieldText(id: string, key: Key, value: string)
    ensures "dhcp.@host[" + id + OptionText(key) + value + "'" == HEAD + (id + ("]." + (KeyText(key) + value + "'")))
  {
    assert OptionText(key) == "]." + KeyText(key);
    Regroup(HEAD, id, "].", KeyText(key), value, "'");
  }

  lemma FieldReadsBack(i: nat, key: Key, value: string)
    ensures FieldOf(FieldLine(i, key, value)) == Some(HostField(Decimal(i), key, value))
  {
    FieldText(Decimal(i), key, value);
    FieldAfterHead(i, KeyText(key) + value + "'");
    KeyReadsBack(Decimal(i), key, value);
  }

  /** The three options the parser reads, in the router's own text. */
  lemma OptionsAreRead(i: nat, value: string)
    ensures FieldOf("dhcp.@host[" + Decimal(i) + "].name='" + value + "'") == Some(HostField(Decimal(i), NameKey, value))
    ensures FieldOf("dhcp.@host[" + Decimal(i) + "].mac='" + value + "'") == Some(HostField(Decimal(i), MacKey, value))
    ensures FieldOf("dhcp.@host[" + Decimal(i) + "].ip='" + value + "'") == Some(HostField(Decimal(i), IpKey, value))
  {
    FieldReadsBack(i, NameKey, value);
    FieldReadsBack(i, MacKey, value);
    FieldReadsBack(i, IpKey, value);
  }

  lemma HostLineIsNoField(i: nat)
    ensures FieldOf(HostLine(i)).None?
  {
    var tail := "]=host";
    assert HostLine(i) == HEAD + (Decimal(i) + tail);
    HeadOf(i, tail);
    assert (Decimal(i) + tail)[|Decimal(i)|..] == tail && tail[1] == '=';
  }

  lemma {:induction false} AddLinesAppend(hosts: Hosts, a: seq<string>, b: seq<string>)
    ensures AddLines(hosts, a + b) == AddLines(AddLines(hosts, a), b)
    decreases |a|
  {
    if a == [] {
      assert a + b == b;
    } else {
      assert (a + b)[0] == a[0] && (a + b)[1..] == a[1..] + b;
      AddLinesAppend(AddLine(hosts, a[0]), a[1..], b);
    }
  }

  /** A section enters the dictionary with its first option. */
  function WithHost(hosts: Hosts, id: string, h: Host): Hosts {
    if h == NO_FIELDS then hosts else Hosts(hosts.order + [id], hosts.fields[id := h])
  }

  lemma SetTwice<K, V>(m: map<K, V>, k: K, a: V, b: V)
    ensures m[k := a][k := b] == m[k := b]
  {
  }

  lemma OptionReadsBack(hosts: Hosts, i: nat, h: Host, key: Key, value: Option<string>)
    requires Decimal(i) !in hosts.fields
    ensures AddLines(WithHost(hosts, Decimal(i), h), OptionLines(i, key, value))
         == WithHost(hosts, Decimal(i), if value.Some? then SetField(h, key, value.value) else h)
  {
    if value.Some? {
      var id := Decimal(i);
      var line := FieldLine(i, key, value.value);
      var before, next := WithHost(hosts, id, h), SetField(h, key, value.value);
      FieldReadsBack(i, key, value.value);
      assert AddLines(before, [line]) == AddLine(before, line) by {
        assert [line][1..] == [];
      }
      SetTwice(hosts.fields, id, h, next);
    }
  }

  lemma HostReadsBack(hosts: Hosts, i: nat, h: Host)
    requires Decimal(i) !in hosts.fields
    ensures AddLines(hosts, HostLines(i, h)) == WithHost(hosts, Decimal(i), h)
  {
    var name, mac, ip := OptionLines(i, NameKey, h.name), OptionLines(i, MacKey, h.mac), OptionLines(i, IpKey, h.ip);
    HostLineIsNoField(i);
    assert HostLines(i, h)[1..] == name + (mac + ip);
    AddLinesAppend(hosts, name, mac + ip);
    OptionReadsBack(hosts, i, NO_FIELDS, NameKey, h.name);
    var h1 := NO_FIELDS.(name := h.name);
    AddLinesAppend(WithHost(hosts, Decimal(i), h1), mac, ip);
    OptionReadsBack(hosts, i, h1, MacKey, h.mac);
    OptionReadsBack(hosts, i, h1.(mac := h.mac), IpKey, h.ip);
  }

  lemma {:induction false} UsableFrame(order: seq<string>, fields: map<string, Host>, id: string, h: Host)
    requires id !in fields && forall o | o in order :: o in fields
    ensures Usable(order, fields[id := h]) == Usable(order, fields)
  {
    if order != [] {
      assert order[|order| - 1] in order;
      UsableFrame(order[..|order| - 1], fields, id, h);
    }
  }

  lemma UsableWithHost(hosts: Hosts, id: string, h: Host)
    requires Listed(hosts) && id !in hosts.fields
    ensures var r := WithHost(hosts, id, h);
            Listed(r) && Usable(r.order, r.fields) == Usable(hosts.order, hosts.fields) + Found(ReservationOf(h))
  {
    var r := WithHost(hosts, id, h);
    if h != NO_FIELDS {
      assert r.order[..|r.order| - 1] == hosts.order;
      UsableFrame(hosts.order, hosts.fields, id, h);
    }
  }

  ghost predicate FreeFrom(hosts: Hosts, i: nat) {
    forall j: nat | i <= j :: Decimal(j) !in hosts.fields
  }

  lemma FreeAfterHost(hosts: Hosts, i: nat, h: Host)
    requires FreeFrom(hosts, i)
    ensures FreeFrom(WithHost(hosts, Decimal(i), h), i + 1)
  {
    forall j: nat | i + 1 <= j
      ensures Decimal(j) !in WithHost(hosts, Decimal(i), h).fields
    {
      if Decimal(j) == Decimal(i) {
        DecimalInjective(j, i);
      }
    }
  }

  function WithItem(hosts: Hosts, i: nat, item: UciItem): Hosts {
    if item.Other? then hosts else WithHost(hosts, Decimal(i), item.host)
  }

  function Yield(hosts: Hosts): seq<Reservation>
    requires Listed(hosts)
  {
    Usable(hosts.order, hosts.fields)
  }

  lemma AppendTwice<T>(x: seq<T>, y: seq<T>, z: seq<T>, a: seq<T>, b: seq<T>)
    requires y == x + a && z == y + b
    ensures z == x + (a + b)
  {
  }

  lemma ItemReadsBack(hosts: Hosts, i: nat, item: UciItem)
    requires PrintableItem(item) && Listed(hosts) && FreeFrom(hosts, i)
    ensures var r := WithItem(hosts, i, item);
            && AddLines(hosts, ItemLines(i, item)) == r
            && Listed(r) && FreeFrom(r, NextIndex(i, item)) && Yield(r) == Yield(hosts) + ItemReservation(item)
  {
    if item.Section? {
      HostReadsBack(hosts, i, item.host);
      UsableWithHost(hosts, Decimal(i), item.host);
      FreeAfterHost(hosts, i, item.host);
    } else {
      assert [item.line][1..] == [];
    }
  }

  predicate AllPrintable(items: seq<UciItem>) {
    forall item | item in items :: PrintableItem(item)
  }

  lemma {:induction false} ItemsReadBack(hosts: Hosts, items: seq<UciItem>, i: nat)
    requires AllPrintable(items) && Listed(hosts) && FreeFrom(hosts, i)
    ensures Listed(AddLines(hosts, UciLines(items, i)))
    ensures Yield(AddLines(hosts, UciLines(items, i))) == Yield(hosts) + Reservations(items)
    decreases |items|
  {
    if items != [] {
      var item, rest, next := items[0], items[1..], NextIndex(i, items[0]);
      assert item in items;
      var r := WithItem(hosts, i, item);
      ItemReadsBack(hosts, i, item);
      AddLinesAppend(hosts, ItemLines(i, item), UciLines(rest, next));
      ItemsReadBack(r, rest, next);
      AppendTwice(Yield(hosts), Yield(r), Yield(AddLines(r, UciLines(rest, next))), ItemReservation(item), Reservations(rest));
    }
  }

  lemma FieldLineUnmarked(i: nat, key: Key, value: string)
    requires NoBreak(Some(value))
    ensures Unmarked(FieldLine(i, key, value))
  {
    var line := FieldLine(i, key, value);
    assert line[0] == 'd';
    forall c | c in line
      ensures !IsBreak(c)
    {
      assert c in "dhcp.@host[" || c in Decimal(i) || c in OptionText(key) || c in value || c in "'";
    }
  }

  lemma HostLineUnmarked(i: nat)
    ensures Unmarked(HostLine(i))
  {
    assert HostLine(i)[0] == 'd';
    forall c | c in HostLine(i)
      ensures !IsBreak(c)
    {
      assert c in "dhcp.@host[" || c in Decimal(i) || c in "]=host";
    }
  }

  lemma HostLinesUnmarked(i: nat, h: Host)
    requires PrintableItem(Section(h))
    ensures AllUnmarked(HostLines(i, h))
  {
    HostLineUnmarked(i);
    if h.name.Some? {
      FieldLineUnmarked(i, NameKey, h.name.value);
    }
    if h.mac.Some? {
      FieldLineUnmarked(i, MacKey, h.mac.value);
    }
    if h.ip.Some? {
      FieldLineUnmarked(i, IpKey, h.ip.value);
    }
  }

  lemma {:induction false} UciLinesUnmarked(items: seq<UciItem>, i: nat)
    requires AllPrintable(items)
    ensures AllUnmarked(UciLines(items, i))
    decreases |items|
  {
    if items != [] {
      assert items[0] in items;
      if items[0].Section? {
        HostLinesUnmarked(i, items[0].host);
      }
      UciLinesUnmarked(items[1..], NextIndex(i, items[0]));
    }
  }

  // -------------------------------------------------------- marked sections

  lemma {:induction false} CutAppend(s: Sections, a: seq<string>, b: seq<string>)
    requires s.Valid()
    ensures Cut(s, a + b) == Cut(Cut(s, a), b)
    decreases |a|
  {
    if a == [] {
      assert a + b == b;
    } else {
      assert (a + b)[0] == a[0] && (a + b)[1..] == a[1..] + b;
      CutAppend(Place(s, a[0]), a[1..], b);
    }
  }

  lemma {:induction false} CutBody(s: Sections, name: string, lines: seq<string>)
    requires s.Valid() && s.current == Some(name) && name != "" && AllUnmarked(lines)
    ensures Cut(s, lines) == Sections(Some(name), s.bodies[name := s.bodies[name] + lines])
    decreases |lines|
  {
    if lines == [] {
      assert s.bodies[name] + lines == s.bodies[name];
      assert s.bodies[name := s.bodies[name]] == s.bodies;
    } else {
      assert lines[0] in lines;
      var next := Place(s, lines[0]);
      assert next == Sections(Some(name), s.bodies[name := s.bodies[name] + [lines[0]]]);
      CutBody(next, name, lines[1..]);
      assert s.bodies[name] + [lines[0]] + lines[1..] == s.bodies[name] + lines;
      SetTwice(s.bodies, name, s.bodies[name] + [lines[0]], s.bodies[name] + lines);
    }
  }

  lemma CutSection(s: Sections, name: string, lines: seq<string>)
    requires s.Valid() && Strip(name) == name != "" && AllUnmarked(lines)
    ensures Cut(s, ["##" + name] + lines) == Sections(Some(name), s.bodies[name := lines])
  {
    var all := ["##" + name] + lines;
    assert all[1..] == lines && ("##" + name)[2..] == name;
    var next := Place(s, all[0]);
    CutBody(next, name, lines);
    assert next.bodies == s.bodies[name := []] && [] + lines == lines;
    SetTwice(s.bodies, name, [], lines);
  }

  /** Lines before the first marker, or behind one without a name, belong to no table. */
  lemma {:induction false} CutBanner(s: Sections, lines: seq<string>)
    requires s.Valid() && (s.current.None? || s.current.value == "") && AllUnmarked(lines)
    ensures Cut(s, lines) == s
    decreases |lines|
  {
    if lines != [] {
      assert lines[0] in lines;
      CutBanner(s, lines[1..]);
    }
  }

  // -------------------------------------------------------------- printing

  datatype Printout = Printout(banner: seq<string>, neighbors: seq<NeighborRow>, leases: seq<LeaseRow>, items: seq<UciItem>)

  predicate Printable(p: Printout) {
    && AllUnmarked(p.banner)
    && (forall r | r in p.neighbors :: PrintableNeighbor(r))
    && (forall r | r in p.leases :: PrintableLease(r))
    && AllPrintable(p.items)
  }

  function Marked(name: string, lines: seq<string>): seq<string> {
    ["##" + name] + lines
  }

  function PrintedLines(p: Printout): seq<string> {
    p.banner + (Marked("NEIGH", NeighborLines(p.neighbors))
      + (Marked("LEASES", LeaseLines(p.leases)) + Marked("RESERVATIONS", UciLines(p.items, 0))))
  }

  function Print(p: Printout): string {
    Unlines(PrintedLines(p))
  }

  predicate IsName(name: string) {
    Strip(name) == name != "" && forall c | c in name :: !IsBreak(c)
  }

  lemma ThreeSections(banner: seq<string>, n1: string, a: seq<string>, n2: string, b: seq<string>, n3: string, c: seq<string>)
    requires IsName(n1) && IsName(n2) && IsName(n3)
    requires AllUnmarked(banner) && AllUnmarked(a) && AllUnmarked(b) && AllUnmarked(c)
    ensures Cut(NO_SECTIONS, banner + (Marked(n1, a) + (Marked(n2, b) + Marked(n3, c)))).bodies
         == map[n1 := a][n2 := b][n3 := c]
  {
    CutAppend(NO_SECTIONS, banner, Marked(n1, a) + (Marked(n2, b) + Marked(n3, c)));
    CutBanner(NO_SECTIONS, banner);
    CutAppend(NO_SECTIONS, Marked(n1, a), Marked(n2, b) + Marked(n3, c));
    CutSection(NO_SECTIONS, n1, a);
    var s := Cut(NO_SECTIONS, Marked(n1, a));
    CutAppend(s, Marked(n2, b), Marked(n3, c));
    CutSection(s, n2, b);
    CutSection(Cut(s, Marked(n2, b)), n3, c);
  }

  lemma Names()
    ensures IsName(NEIGH) && IsName(LEASES) && IsName(RESERVATIONS)
  {
    StripIdentity(NEIGH);
    StripIdentity(LEASES);
    StripIdentity(RESERVATIONS);
  }

  predicate AllLines(lines: seq<string>) {
    forall l | l in lines :: IsLine(l)
  }

  lemma MarkedAreLines(name: string, lines: seq<string>)
    requires IsName(name) && AllUnmarked(lines)
    ensures AllLines(Marked(name, lines))
  {
    forall c | c in "##" + name
      ensures !IsBreak(c)
    {
      assert c == '#' || c in name;
    }
  }

  lemma JoinedAreLines(a: seq<string>, b: seq<string>)
    requires AllLines(a) && AllLines(b)
    ensures AllLines(a + b)
  {
  }

  /** Every line of the text is a line, and no line of a table is a marker. */
  lemma TablesAreUnmarked(p: Printout)
    requires Printable(p)
    ensures AllUnmarked(NeighborLines(p.neighbors)) && AllUnmarked(LeaseLines(p.leases))
    ensures AllUnmarked(UciLines(p.items, 0))
    ensures AllLines(PrintedLines(p))
  {
    NeighborsReadBack(p.neighbors);
    LeasesReadBack(p.leases);
    UciLinesUnmarked(p.items, 0);
    Names();
    var a := Marked(NEIGH, NeighborLines(p.neighbors));
    var b, c := Marked(LEASES, LeaseLines(p.leases)), Marked(RESERVATIONS, UciLines(p.items, 0));
    MarkedAreLines(NEIGH, NeighborLines(p.neighbors));
    MarkedAreLines(LEASES, LeaseLines(p.leases));
    MarkedAreLines(RESERVATIONS, UciLines(p.items, 0));
    JoinedAreLines(b, c);
    JoinedAreLines(a, b + c);
    JoinedAreLines(p.banner, a + (b + c));
  }

  lemma TablesReadBack(p: Printout)
    requires Printable(p)
    ensures Gather(NeighborLines(p.neighbors), NeighborOf) == Neighbors(p.neighbors)
    ensures Gather(LeaseLines(p.leases), LeaseOf) == Leases(p.leases)
    ensures Reserved(UciLines(p.items, 0)) == Reservations(p.items)
  {
    NeighborsReadBack(p.neighbors);
    LeasesReadBack(p.leases);
    ItemsReadBack(NO_HOSTS, p.items, 0);
  }

  lemma SnapshotOfTables(output: string, a: seq<string>, b: seq<string>, c: seq<string>)
    requires Cut(NO_SECTIONS, SplitLines(output)).bodies == map[NEIGH := a][LEASES := b][RESERVATIONS := c]
    requires AllUnmarked(a) && AllUnmarked(b) && AllUnmarked(c)
    ensures Snapshot(output) == NetworkSnapshot(Gather(a, NeighborOf), Gather(b, LeaseOf), Reserved(c))
  {
    SplitJoinLines(a);
    SplitJoinLines(b);
    SplitJoinLines(c);
    assert NEIGH[0] == 'N' && LEASES[0] == 'L' && RESERVATIONS[0] == 'R';
  }

  /** Parsing what was printed gives the printed snapshot. */
  lemma SnapshotRoundTrip(p: Printout)
    requires Printable(p)
    ensures Snapshot(Print(p)) == NetworkSnapshot(Neighbors(p.neighbors), Leases(p.leases), Reservations(p.items))
  {
    var a, b, c := NeighborLines(p.neighbors), LeaseLines(p.leases), UciLines(p.items, 0);
    TablesAreUnmarked(p);
    SplitUnlines(PrintedLines(p));
    Names();
    ThreeSections(p.banner, NEIGH, a, LEASES, b, RESERVATIONS, c);
    SnapshotOfTables(Print(p), a, b, c);
    TablesReadBack(p);
  }

  // ------------------------------------------------- which snapshots are read

  predicate WellFormedReservation(r: Reservation) {
    IsMac(r.mac) && IsIpv4(r.ip) && IsUnbroken(r.name)
  }

  predicate WellFormed(s: NetworkSnapshot) {
    && (forall n | n in s.neighbors :: WellFormedNeighbor(n))
    && (forall l | l in s.leases :: WellFormedLease(l))
    && (forall r | r in s.reservations :: WellFormedReservation(r))
  }

  function PlainRow(n: Neighbor): NeighborRow {
    Known(n, n.mac, None, [], 0, 0, [])
  }

  function PlainLease(l: Lease): LeaseRow {
    LeaseRow(l, l.mac, [])
  }

  function PlainItem(r: Reservation): UciItem {
    Section(Host(Some(r.name), Some(r.mac), Some(r.ip)))
  }

  /** The shortest printout of a snapshot. */
  function Plain(s: NetworkSnapshot): Printout {
    Printout([],
      seq(|s.neighbors|, i requires 0 <= i < |s.neighbors| => PlainRow(s.neighbors[i])),
      seq(|s.leases|, i requires 0 <= i < |s.leases| => PlainLease(s.leases[i])),
      seq(|s.reservations|, i requires 0 <= i < |s.reservations| => PlainItem(s.reservations[i])))
  }

  lemma LowerMac(mac: string)
    requires IsMac(mac)
    ensures Lower(mac) == mac
  {
  }

  lemma {:induction false} PlainNeighbors(rows: seq<NeighborRow>, ns: seq<Neighbor>)
    requires |rows| == |ns| && forall i | 0 <= i < |rows| :: rows[i] == PlainRow(ns[i])
    ensures Neighbors(rows) == ns
  {
    if rows != [] {
      PlainNeighbors(rows[1..], ns[1..]);
    }
  }

  lemma {:induction false} PlainLeases(rows: seq<LeaseRow>, ls: seq<Lease>)
    requires |rows| == |ls| && forall i | 0 <= i < |rows| :: rows[i] == PlainLease(ls[i])
    ensures Leases(rows) == ls
  {
    if rows != [] {
      PlainLeases(rows[1..], ls[1..]);
    }
  }

  lemma {:induction false} PlainReservations(items: seq<UciItem>, rs: seq<Reservation>)
    requires |items| == |rs| && forall i | 0 <= i < |items| :: items[i] == PlainItem(rs[i]) && WellFormedReservation(rs[i])
    ensures Reservations(items) == rs
  {
    if items != [] {
      LowerMac(rs[0].mac);
      PlainReservations(items[1..], rs[1..]);
    }
  }

  lemma MacUnbroken(mac: string)
    requires IsMac(mac)
    ensures IsUnbroken(mac)
  {
    LowerMac(mac);
    MacIsWord(mac);
  }

  lemma PlainItemPrintable(r: Reservation)
    requires WellFormedReservation(r)
    ensures PrintableItem(PlainItem(r))
  {
    MacUnbroken(r.mac);
    DottedIsWord(r.ip);
  }

  lemma PlainIsPrintable(s: NetworkSnapshot)
    requires WellFormed(s)
    ensures Printable(Plain(s))
  {
    var p := Plain(s);
    forall r | r in p.neighbors
      ensures PrintableNeighbor(r)
    {
      var i :| 0 <= i < |p.neighbors| && p.neighbors[i] == r;
      assert s.neighbors[i] in s.neighbors;
      LowerMac(s.neighbors[i].mac);
    }
    forall r | r in p.leases
      ensures PrintableLease(r)
    {
      var i :| 0 <= i < |p.leases| && p.leases[i] == r;
      assert s.leases[i] in s.leases;
      LowerMac(s.leases[i].mac);
    }
    forall item | item in p.items
      ensures PrintableItem(item)
    {
      var i :| 0 <= i < |p.items| && p.items[i] == item;
      PlainItemPrintable(s.reservations[i]);
    }
  }

  /** Every well-formed snapshot has a text that reads back as that snapshot. */
  lemma PlainReadsBack(s: NetworkSnapshot)
    requires WellFormed(s)
    ensures Snapshot(Print(Plain(s))) == s
  {
    var p := Plain(s);
    PlainIsPrintable(s);
    SnapshotRoundTrip(p);
    PlainNeighbors(p.neighbors, s.neighbors);
    PlainLeases(p.leases, s.leases);
    PlainReservations(p.items, s.reservations);
  }

  lemma {:induction false} GatheredNeighborsWellFormed(lines: seq<string>)
    ensures forall n | n in Gather(lines, NeighborOf) :: WellFormedNeighbor(n)
  {
    if lines != [] {
      SplitWords(lines[0]);
      GatheredNeighborsWellFormed(lines[1..]);
    }
  }

  lemma {:induction false} GatheredLeasesWellFormed(lines: seq<string>)
    ensures forall l | l in Gather(lines, LeaseOf) :: WellFormedLease(l)
  {
    if lines != [] {
      SplitWords(lines[0]);
      GatheredLeasesWellFormed(lines[1..]);
    }
  }

  ghost predicate Unbroken(hosts: Hosts) {
    Listed(hosts) && forall id | id in hosts.fields :: NoBreak(hosts.fields[id].name)
  }

  lemma SliceUnbroken(s: string, i: nat, j: nat)
    requires IsUnbroken(s) && i <= j <= |s|
    ensures IsUnbroken(s[i..j])
  {
    forall c | c in s[i..j]
      ensures !IsBreak(c)
    {
      assert c in s;
    }
  }

  lemma DropUnbroken(s: string, i: nat)
    requires IsUnbroken(s) && i <= |s|
    ensures IsUnbroken(s[i..])
  {
    SliceUnbroken(s, i, |s|);
    assert s[i..|s|] == s[i..];
  }

  lemma QuotedUnbroken(text: string, key: Key)
    requires IsUnbroken(text)
    ensures NoBreak(Quoted(text, key))
  {
    if Quoted(text, key).Some? {
      SliceUnbroken(text, |KeyText(key)|, |text| - 1);
    }
  }

  lemma ValueUnbroken(id: string, text: string)
    requires IsUnbroken(text)
    ensures KeyAndValue(id, text).Some? ==> IsUnbroken(KeyAndValue(id, text).value.value)
  {
    QuotedUnbroken(text, NameKey);
    QuotedUnbroken(text, MacKey);
    QuotedUnbroken(text, IpKey);
  }

  lemma FieldUnbroken(line: string)
    requires IsUnbroken(line)
    ensures FieldOf(line).Some? ==> IsUnbroken(FieldOf(line).value.value)
  {
    StripChars(line);
    var s := Strip(line);
    if FieldOf(line).Some? {
      var rest := s[|HEAD|..];
      var n := DigitRun(rest);
      DropUnbroken(s, |HEAD|);
      DropUnbroken(rest, n + 2);
      ValueUnbroken(rest[..n], rest[n + 2..]);
    }
  }

  lemma AddLineUnbroken(hosts: Hosts, line: string)
    requires Unbroken(hosts) && IsUnbroken(line)
    ensures Unbroken(AddLine(hosts, line))
  {
    FieldUnbroken(line);
  }

  lemma {:induction false} AddLinesUnbroken(hosts: Hosts, lines: seq<string>)
    requires Unbroken(hosts) && forall l | l in lines :: IsUnbroken(l)
    ensures Unbroken(AddLines(hosts, lines))
    decreases |lines|
  {
    if lines != [] {
      assert lines[0] in lines;
      AddLineUnbroken(hosts, lines[0]);
      AddLinesUnbroken(AddLine(hosts, lines[0]), lines[1..]);
    }
  }

  lemma {:induction false} UsableWellFormed(order: seq<string>, fields: map<string, Host>)
    requires forall id | id in order :: id in fields && NoBreak(fields[id].name)
    ensures forall r | r in Usable(order, fields) :: WellFormedReservation(r)
  {
    if order != [] {
      assert order[|order| - 1] in order;
      UsableWellFormed(order[..|order| - 1], fields);
    }
  }

  lemma ReservedWellFormed(text: string)
    ensures forall r | r in Reserved(SplitLines(text)) :: WellFormedReservation(r)
  {
    SplitLinesUnbroken(text);
    AddLinesUnbroken(NO_HOSTS, SplitLines(text));
    var hosts := AddLines(NO_HOSTS, SplitLines(text));
    UsableWellFormed(hosts.order, hosts.fields);
  }

  lemma SnapshotWellFormed(output: string)
    ensures WellFormed(Snapshot(output))
  {
    var s := Cut(NO_SECTIONS, SplitLines(output));
    GatheredNeighborsWellFormed(SplitLines(Body(s, NEIGH)));
    GatheredLeasesWellFormed(SplitLines(Body(s, LEASES)));
    ReservedWellFormed(Body(s, RESERVATIONS));
  }

  /** Whatever text was parsed, printing the result and parsing it again changes nothing. */
  lemma ReparseIsStable(output: string)
    ensures Snapshot(Print(Plain(Snapshot(output)))) == Snapshot(output)
  {
    SnapshotWellFormed(output);
    PlainReadsBack(Snapshot(output));
  }

  /** The parser yields exactly the well-formed snapshots. */
  lemma ParserRange(s: NetworkSnapshot)
    ensures (exists output :: Snapshot(output) == s) <==> WellFormed(s)
  {
    if WellFormed(s) {
      PlainReadsBack(s);
    }
    forall output | Snapshot(output) == s
      ensures WellFormed(s)
    {
      SnapshotWellFormed(output);
    }
  }

  lemma {:induction false} SplitNumber(number: string, rest: string)
    requires forall c | c in number :: IsDigit(c)
    ensures SplitDots(number + rest) == [number + SplitDots(rest)[0]] + SplitDots(rest)[1..]
  {
    if number == "" {
      assert number + rest == rest;
      assert number + SplitDots(rest)[0] == SplitDots(rest)[0];
    } else {
      assert number[0] in number;
      assert (number + rest)[0] == number[0] && (number + rest)[1..] == number[1..] + rest;
      SplitNumber(number[1..], rest);
      assert [number[0]] + (number[1..] + SplitDots(rest)[0]) == number + SplitDots(rest)[0];
    }
  }

  lemma SplitNumberDot(number: string, rest: string)
    requires forall c | c in number :: IsDigit(c)
    ensures SplitDots(number + ("." + rest)) == [number] + SplitDots(rest)
  {
    var dot := "." + rest;
    assert dot[1..] == rest;
    SplitNumber(number, dot);
    assert number + "" == number;
  }

  /** The pattern takes any four numbers for an address. */
  lemma FourNumbersAreDotted(a: string, b: string, c: string, d: string)
    requires IsNumber(a) && IsNumber(b) && IsNumber(c) && IsNumber(d)
    ensures IsDotted(a + ("." + (b + ("." + (c + ("." + d))))))
  {
    SplitNumber(d, "");
    assert d + "" == d;
    SplitNumberDot(c, d);
    SplitNumberDot(b, c + ("." + d));
    SplitNumberDot(a, b + ("." + (c + ("." + d))));
  }

  /** So rows are read whose address no address parser accepts, such as 999.1.1.1. */
  lemma AnyNumbersAreRead(mac: string, a: string, b: string, c: string, d: string, state: string)
    requires IsMac(mac) && IsNumber(a) && IsNumber(b) && IsNumber(c) && IsNumber(d) && IsWord(state)
    ensures var n := Neighbor(mac, a + ("." + (b + ("." + (c + ("." + d))))), state, None);
            exists output :: Snapshot(output) == NetworkSnapshot([n], [], [])
  {
    FourNumbersAreDotted(a, b, c, d);
    ParserRange(NetworkSnapshot([Neighbor(mac, a + ("." + (b + ("." + (c + ("." + d))))), state, None)], [], []));
  }
}
