/**
 * The router's neighbor, lease and reservation tables as text, and the parser that reads them back.
 * Each regular expression of the parser is written as the test on words or characters it amounts to: its
 * `\s+` and `\S+` groups cannot end inside a word, and its digit groups always take a whole run of digits.
 */
module ChesterText {
  import opened Wrappers
  import opened TextTools
  import opened ChesterNetwork

  // ------------------------------------------------------------- addresses

  function LowerChar(c: char): char {
    if 'A' <= c <= 'Z' then (c as int + 32) as char else c
  }

  function Lower(s: string): string {
    seq(|s|, i requires 0 <= i < |s| => LowerChar(s[i]))
  }

  predicate IsHex(c: char) {
    IsDigit(c) || 'a' <= c <= 'f'
  }

  /** Six pairs of hexadecimal digits with colons between them. */
  predicate IsMac(s: string) {
    |s| == 17 && forall i | 0 <= i < |s| :: if i % 3 == 2 then s[i] == ':' else IsHex(s[i])
  }

  function SplitDots(s: string): (parts: seq<string>)
    ensures parts != []
  {
    if s == "" then [""]
    else
      var rest := SplitDots(s[1..]);
      if s[0] == '.' then [""] + rest else [[s[0]] + rest[0]] + rest[1..]
  }

  /** Four decimal numbers separated by dots. */
  predicate IsDotted(s: string) {
    var parts := SplitDots(s);
    && (forall c | c in s :: c == '.' || IsDigit(c))
    && |parts| == 4 && forall p | p in parts :: p != ""
  }

  /** The same, with at most three digits each. */
  predicate IsIpv4(s: string) {
    IsDotted(s) && forall p | p in SplitDots(s) :: |p| <= 3
  }

  lemma DottedIsWord(s: string)
    requires IsDotted(s)
    ensures IsWord(s)
  {
  }

  lemma MacIsWord(printed: string)
    requires IsMac(Lower(printed))
    ensures IsWord(printed)
  {
    forall c | c in printed
      ensures !IsSpace(c)
    {
      var i :| 0 <= i < |printed| && printed[i] == c;
      assert Lower(printed)[i] == LowerChar(c);
    }
  }

  // --------------------------------------------------------- reading lines

  function Found<T>(o: Option<T>): seq<T> {
    if o.Some? then [o.value] else []
  }

  /** What each readable line gives, in order. */
  function Gather<T>(lines: seq<string>, read: string -> Option<T>): seq<T> {
    if lines == [] then [] else Found(read(lines[0])) + Gather(lines[1..], read)
  }

  lemma {:induction false} GatherSnoc<T>(lines: seq<string>, line: string, read: string -> Option<T>)
    ensures Gather(lines + [line], read) == Gather(lines, read) + Found(read(line))
  {
    if lines == [] {
      assert Gather([line][1..], read) == [];
    } else {
      assert (lines + [line])[0] == lines[0] && (lines + [line])[1..] == lines[1..] + [line];
      GatherSnoc(lines[1..], line, read);
    }
  }

  // ------------------------------------------------------------- neighbors

  /** The middle number of `a/b/c` at the start of a word. */
  function MiddleOf(word: string): Option<nat> {
    var m := DigitRun(word);
    if m == 0 || m == |word| || word[m] != '/' then None
    else
      var rest := word[m + 1..];
      var n := DigitRun(rest);
      if n == 0 || n + 1 >= |rest| || rest[n] != '/' || !IsDigit(rest[n + 1]) then None
      else Some(ToNat(rest[..n]))
  }

  predicate EndsInUsed(word: string) {
    |word| >= 4 && word[|word| - 4..] == "used"
  }

  /** The age in the first `used a/b/c`. */
  function UsedAge(rest: seq<string>): Option<nat> {
    if |rest| < 2 then None
    else if EndsInUsed(rest[0]) && MiddleOf(rest[1]).Some? then MiddleOf(rest[1])
    else UsedAge(rest[1..])
  }

  function NeighborOf(line: string): Option<Neighbor> {
    var words := Split(line);
    var at := if |words| > 1 && words[1] == "dev" then 3 else 1;
    if |words| <= at + 1 || !IsDotted(words[0]) || words[at] != "lladdr" || !IsMac(Lower(words[at + 1])) then None
    else
      var rest := words[at + 2..];
      var state := if rest == [] then "" else rest[|rest| - 1];
      Some(Neighbor(Lower(words[at + 1]), words[0], state, UsedAge(rest)))
  }

  method ParseIpNeigh(text: string) returns (neighbors: seq<Neighbor>)
    ensures neighbors == Gather(SplitLines(text), NeighborOf)
  {
    var lines := SplitLines(text);
    neighbors := [];
    for i := 0 to |lines|
      invariant neighbors == Gather(lines[..i], NeighborOf)
    {
      assert lines[..i + 1] == lines[..i] + [lines[i]];
      GatherSnoc(lines[..i], lines[i], NeighborOf);
      var n := NeighborOf(lines[i]);
      if n.None? {
        continue;
      }
      neighbors := neighbors + [n.value];
    }
    assert lines[..|lines|] == lines;
  }

  // ---------------------------------------------------------------- leases

  function LeaseOf(line: string): Option<Lease> {
    var words := Split(line);
    if |words| < 4 || !IsNumber(words[0]) || !IsMac(Lower(words[1])) || !IsIpv4(words[2]) then None
    else
      var hostname := if words[3] == "*" then None else Some(words[3]);
      Some(Lease(Lower(words[1]), words[2], hostname, ToNat(words[0])))
  }

  method ParseDhcpLeases(text: string) returns (leases: seq<Lease>)
    ensures leases == Gather(SplitLines(text), LeaseOf)
  {
    var lines := SplitLines(text);
    leases := [];
    for i := 0 to |lines|
      invariant leases == Gather(lines[..i], LeaseOf)
    {
      assert lines[..i + 1] == lines[..i] + [lines[i]];
      GatherSnoc(lines[..i], lines[i], LeaseOf);
      var l := LeaseOf(lines[i]);
      if l.None? {
        continue;
      }
      leases := leases + [l.value];
    }
    assert lines[..|lines|] == lines;
  }

  // ---------------------------------------------------------- reservations

  /** The options read for one host section. */
  datatype Host = Host(name: Option<string>, mac: Option<string>, ip: Option<string>)

  datatype Key = NameKey | MacKey | IpKey

  datatype HostField = HostField(id: string, key: Key, value: string)

  /** A dictionary of host sections with its insertion order. */
  datatype Hosts = Hosts(order: seq<string>, fields: map<string, Host>)

  const NO_FIELDS := Host(None, None, None)
  const NO_HOSTS := Hosts([], map[])
  const HEAD := "dhcp.@host["

  function KeyText(key: Key): string {
    match key
    case NameKey => "name='"
    case MacKey => "mac='"
    case IpKey => "ip='"
  }

  /** What stands between the opening and the closing quote of the option. */
  function Quoted(text: string, key: Key): Option<string> {
    var open := KeyText(key);
    if open <= text && |open| < |text| && text[|text| - 1] == '\'' then Some(text[|open|..|text| - 1]) else None
  }

  function KeyAndValue(id: string, text: string): Option<HostField> {
    if Quoted(text, NameKey).Some? then Some(HostField(id, NameKey, Quoted(text, NameKey).value))
    else if Quoted(text, MacKey).Some? then Some(HostField(id, MacKey, Quoted(text, MacKey).value))
    else if Quoted(text, IpKey).Some? then Some(HostField(id, IpKey, Quoted(text, IpKey).value))
    else None
  }

  function FieldOf(line: string): Option<HostField> {
    var s := Strip(line);
    if !(HEAD <= s) then None
    else
      var rest := s[|HEAD|..];
      var n := DigitRun(rest);
      if n == 0 || !("]." <= rest[n..]) then None else KeyAndValue(rest[..n], rest[n + 2..])
  }

  function SetField(h: Host, key: Key, value: string): Host {
    match key
    case NameKey => h.(name := Some(value))
    case MacKey => h.(mac := Some(value))
    case IpKey => h.(ip := Some(value))
  }

  function AddField(hosts: Hosts, f: HostField): Hosts {
    if f.id in hosts.fields then hosts.(fields := hosts.fields[f.id := SetField(hosts.fields[f.id], f.key, f.value)])
    else Hosts(hosts.order + [f.id], hosts.fields[f.id := SetField(NO_FIELDS, f.key, f.value)])
  }

  function AddLine(hosts: Hosts, line: string): Hosts {
    var f := FieldOf(line);
    if f.Some? then AddField(hosts, f.value) else hosts
  }

  function AddLines(hosts: Hosts, lines: seq<string>): Hosts
    decreases |lines|
  {
    if lines == [] then hosts else AddLines(AddLine(hosts, lines[0]), lines[1..])
  }

  predicate Listed(hosts: Hosts) {
    forall id | id in hosts.order :: id in hosts.fields
  }

  function ReservationOf(h: Host): Option<Reservation> {
    var mac := if h.mac.Some? then Lower(h.mac.value) else "";
    var ip := if h.ip.Some? then h.ip.value else "";
    if IsMac(mac) && IsIpv4(ip) then Some(Reservation(mac, ip, if h.name.Some? then h.name.value else "")) else None
  }

  /** The usable sections in order of first appearance. */
  function Usable(order: seq<string>, fields: map<string, Host>): seq<Reservation>
    requires forall id | id in order :: id in fields
  {
    if order == [] then []
    else
      var last := order[|order| - 1];
      assert last in order;
      Usable(order[..|order| - 1], fields) + Found(ReservationOf(fields[last]))
  }

  lemma {:induction false} AddLinesListed(hosts: Hosts, lines: seq<string>)
    requires Listed(hosts)
    ensures Listed(AddLines(hosts, lines))
    decreases |lines|
  {
    if lines != [] {
      AddLinesListed(AddLine(hosts, lines[0]), lines[1..]);
    }
  }

  function Reserved(lines: seq<string>): seq<Reservation> {
    AddLinesListed(NO_HOSTS, lines);
    var hosts := AddLines(NO_HOSTS, lines);
    Usable(hosts.order, hosts.fields)
  }

  method ParseUciHosts(text: string) returns (reservations: seq<Reservation>)
    ensures reservations == Reserved(SplitLines(text))
  {
    var lines := SplitLines(text);
    var hosts := NO_HOSTS;
    for i := 0 to |lines|
      invariant Listed(hosts)
      invariant AddLines(NO_HOSTS, lines) == AddLines(hosts, lines[i..])
    {
      assert lines[i..][0] == lines[i] && lines[i..][1..] == lines[i + 1..];
      var f := FieldOf(lines[i]);
      if f.Some? {
        hosts := AddField(hosts, f.value);
      }
    }
    reservations := [];
    for i := 0 to |hosts.order|
      invariant reservations == Usable(hosts.order[..i], hosts.fields)
    {
      var id := hosts.order[i];
      assert id in hosts.order;
      assert hosts.order[..i + 1][..i] == hosts.order[..i];
      var r := ReservationOf(hosts.fields[id]);
      if r.Some? {
        reservations := reservations + [r.value];
      }
    }
    assert hosts.order[..|hosts.order|] == hosts.order;
  }

  // -------------------------------------------------------- marked sections

  datatype Sections = Sections(current: Option<string>, bodies: map<string, seq<string>>) {
    ghost predicate Valid() {
      current.Some? ==> current.value in bodies
    }
  }

  const NO_SECTIONS := Sections(None, map[])

  const NEIGH := "NEIGH"
  const LEASES := "LEASES"
  const RESERVATIONS := "RESERVATIONS"

  predicate IsMarker(line: string) {
    "##" <= line
  }

  function Place(s: Sections, line: string): (r: Sections)
    requires s.Valid()
    ensures r.Valid()
  {
    if IsMarker(line) then
      var name := Strip(line[2..]);
      Sections(Some(name), s.bodies[name := []])
    else if s.current.Some? && s.current.value != "" then
      s.(bodies := s.bodies[s.current.value := s.bodies[s.current.value] + [line]])
    else s
  }

  function Cut(s: Sections, lines: seq<string>): (r: Sections)
    requires s.Valid()
    ensures r.Valid()
    decreases |lines|
  {
    if lines == [] then s else Cut(Place(s, lines[0]), lines[1..])
  }

  function Body(s: Sections, name: string): string {
    JoinLines(if name in s.bodies then s.bodies[name] else [])
  }

  function Snapshot(output: string): NetworkSnapshot {
    var s := Cut(NO_SECTIONS, SplitLines(output));
    NetworkSnapshot(
      Gather(SplitLines(Body(s, NEIGH)), NeighborOf),
      Gather(SplitLines(Body(s, LEASES)), LeaseOf),
      Reserved(SplitLines(Body(s, RESERVATIONS))))
  }

  method ParseSnapshotOutput(output: string) returns (snapshot: NetworkSnapshot)
    ensures snapshot == Snapshot(output)
  {
    var lines := SplitLines(output);
    var s := NO_SECTIONS;
    for i := 0 to |lines|
      invariant s.Valid()
      invariant Cut(NO_SECTIONS, lines) == Cut(s, lines[i..])
    {
      assert lines[i..][0] == lines[i] && lines[i..][1..] == lines[i + 1..];
      s := Place(s, lines[i]);
    }
    var neighbors := ParseIpNeigh(Body(s, NEIGH));
    var leases := ParseDhcpLeases(Body(s, LEASES));
    var reservations := ParseUciHosts(Body(s, RESERVATIONS));
    snapshot := NetworkSnapshot(neighbors, leases, reservations);
  }
}
