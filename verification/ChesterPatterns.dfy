/** What the tests of the parser accept, in terms of the text itself, and how repeated options are resolved. */
module ChesterPatterns {
  import opened Wrappers
  import opened TextTools
  import opened ChesterNetwork
  import opened ChesterText
  import opened ChesterRoundTrip

  // ------------------------------------------------------------- addresses

  lemma HexDigits(c: char)
    ensures IsHex(c) <==> c in "0123456789abcdef"
  {
    var digits := "0123456789abcdef";
    if IsHex(c) {
      var k := if IsDigit(c) then c as int - '0' as int else c as int - 'a' as int + 10;
      assert digits[k] == c;
    }
  }

  /** A MAC address is seventeen characters: every third a colon, the others lower-case hexadecimal digits. */
  lemma MacExactly(s: string)
    ensures IsMac(s) <==>
              |s| == 17 && forall i | 0 <= i < |s| :: s[i] in if i % 3 == 2 then ":" else "0123456789abcdef"
  {
    forall i | 0 <= i < |s|
      ensures IsHex(s[i]) <==> s[i] in "0123456789abcdef"
    {
      HexDigits(s[i]);
    }
  }

  lemma LowerExactly(c: char)
    ensures var upper, lower := "ABCDEFGHIJKLMNOPQRSTUVWXYZ", "abcdefghijklmnopqrstuvwxyz";
            && |upper| == |lower|
            && (forall k | 0 <= k < |upper| :: LowerChar(upper[k]) == lower[k])
            && (c !in upper ==> LowerChar(c) == c)
  {
    var upper := "ABCDEFGHIJKLMNOPQRSTUVWXYZ";
    if 'A' <= c <= 'Z' {
      assert upper[c as int - 'A' as int] == c;
    }
  }

  /** The four numbers with dots between them. */
  predicate Quad(s: string, a: string, b: string, c: string, d: string) {
    IsNumber(a) && IsNumber(b) && IsNumber(c) && IsNumber(d) && s == a + ("." + (b + ("." + (c + ("." + d)))))
  }

  lemma QuadSplits(s: string, a: string, b: string, c: string, d: string)
    requires Quad(s, a, b, c, d)
    ensures SplitDots(s) == [a, b, c, d] && IsDotted(s)
  {
    FourNumbersAreDotted(a, b, c, d);
    SplitNumber(d, "");
    assert d + "" == d;
    SplitNumberDot(c, d);
    SplitNumberDot(b, c + ("." + d));
    SplitNumberDot(a, b + ("." + (c + ("." + d))));
  }

  function JoinDots(parts: seq<string>): string
    requires parts != []
  {
    if |parts| == 1 then parts[0] else parts[0] + ("." + JoinDots(parts[1..]))
  }

  lemma JoinLonger(c: char, parts: seq<string>)
    requires parts != []
    ensures JoinDots([[c] + parts[0]] + parts[1..]) == [c] + JoinDots(parts)
    ensures JoinDots([""] + parts) == "." + JoinDots(parts)
  {
    assert ([[c] + parts[0]] + parts[1..])[1..] == parts[1..] && ([""] + parts)[1..] == parts;
    if |parts| > 1 {
      var tail := "." + JoinDots(parts[1..]);
      assert ([c] + parts[0]) + tail == [c] + (parts[0] + tail);
    }
    assert "" + ("." + JoinDots(parts)) == "." + JoinDots(parts);
  }

  lemma {:induction false} JoinSplitDots(s: string)
    ensures JoinDots(SplitDots(s)) == s
  {
    if s != "" {
      JoinSplitDots(s[1..]);
      JoinLonger(s[0], SplitDots(s[1..]));
      assert s == [s[0]] + s[1..];
    }
  }

  lemma {:induction false} PartChars(s: string)
    ensures forall p, c | p in SplitDots(s) && c in p :: c in s && c != '.'
  {
    if s != "" {
      PartChars(s[1..]);
    }
  }

  lemma JoinFour(a: string, b: string, c: string, d: string)
    ensures JoinDots([a, b, c, d]) == a + ("." + (b + ("." + (c + ("." + d)))))
  {
    assert [a, b, c, d][1..] == [b, c, d] && [b, c, d][1..] == [c, d] && [c, d][1..] == [d];
    assert JoinDots([d]) == d && JoinDots([c, d]) == c + ("." + d);
  }

  lemma DottedParts(s: string)
    requires IsDotted(s)
    ensures var parts := SplitDots(s); Quad(s, parts[0], parts[1], parts[2], parts[3])
  {
    var parts := SplitDots(s);
    JoinSplitDots(s);
    PartChars(s);
    assert parts == [parts[0], parts[1], parts[2], parts[3]];
    JoinFour(parts[0], parts[1], parts[2], parts[3]);
    forall p | p in parts
      ensures IsNumber(p)
    {
    }
  }

  /** The pattern of the neighbor table takes four numbers of any length for an address. */
  lemma DottedExactly(s: string)
    ensures IsDotted(s) <==> exists a, b, c, d :: Quad(s, a, b, c, d)
  {
    if IsDotted(s) {
      DottedParts(s);
    }
    if a, b, c, d :| Quad(s, a, b, c, d) {
      QuadSplits(s, a, b, c, d);
    }
  }

  /** That of leases and reservations takes numbers of at most three digits. */
  lemma Ipv4Exactly(s: string)
    ensures IsIpv4(s) <==> exists a, b, c, d :: Quad(s, a, b, c, d) && |a| <= 3 && |b| <= 3 && |c| <= 3 && |d| <= 3
  {
    if IsIpv4(s) {
      DottedParts(s);
    }
    if a, b, c, d :| Quad(s, a, b, c, d) && |a| <= 3 && |b| <= 3 && |c| <= 3 && |d| <= 3 {
      QuadSplits(s, a, b, c, d);
    }
  }

  // ----------------------------------------------------------------- ages

  /** Two whole numbers and the start of a third, with slashes between them; the second is the value. */
  predicate Ages(word: string, a: string, b: string, c: string, n: nat) {
    && IsNumber(a) && IsNumber(b) && c != "" && IsDigit(c[0])
    && word == a + ("/" + (b + ("/" + c))) && ToNat(b) == n
  }

  lemma MiddleReads(word: string, a: string, b: string, c: string, n: nat)
    requires Ages(word, a, b, c, n)
    ensures MiddleOf(word) == Some(n)
  {
    var rest := b + ("/" + c);
    DigitRunBefore(a, '/', rest);
    DigitRunBefore(b, '/', c);
    assert word[|a|] == '/' && word[|a| + 1..] == rest && rest[..|b|] == b && rest[|b|] == '/' && rest[|b| + 1] == c[0];
  }

  lemma SplitAtSlash(word: string, m: nat)
    requires m < |word| && word[m] == '/'
    ensures word == word[..m] + ("/" + word[m + 1..])
  {
  }

  lemma MiddleParts(word: string) returns (a: string, b: string, c: string)
    requires MiddleOf(word).Some?
    ensures Ages(word, a, b, c, MiddleOf(word).value)
  {
    var m := DigitRun(word);
    var rest := word[m + 1..];
    var n := DigitRun(rest);
    a, b, c := word[..m], rest[..n], rest[n + 1..];
    SplitAtSlash(word, m);
    SplitAtSlash(rest, n);
  }

  lemma MiddleExactly(word: string, n: nat)
    ensures MiddleOf(word) == Some(n) <==> exists a, b, c :: Ages(word, a, b, c, n)
  {
    if MiddleOf(word) == Some(n) {
      var a, b, c := MiddleParts(word);
    }
    if a, b, c :| Ages(word, a, b, c, n) {
      MiddleReads(word, a, b, c, n);
    }
  }

  /** At this place of the row stands a word ending in `used` with its ages behind it. */
  predicate IsUsed(rest: seq<string>, i: nat) {
    i + 1 < |rest| && |rest[i]| >= 4 && rest[i][|rest[i]| - 4..] == "used" && MiddleOf(rest[i + 1]).Some?
  }

  /** The age of a row is that at its first such place. */
  lemma {:induction false} UsedAgeExactly(rest: seq<string>, n: nat)
    ensures UsedAge(rest) == Some(n) <==>
              exists i: nat :: IsUsed(rest, i) && MiddleOf(rest[i + 1]) == Some(n) && forall j: nat | j < i :: !IsUsed(rest, j)
  {
    if |rest| >= 2 && !IsUsed(rest, 0) {
      UsedAgeExactly(rest[1..], n);
      assert forall i: nat :: IsUsed(rest[1..], i) <==> IsUsed(rest, i + 1);
      if i: nat :| IsUsed(rest, i) && MiddleOf(rest[i + 1]) == Some(n) && forall j: nat | j < i :: !IsUsed(rest, j) {
        assert i > 0 && IsUsed(rest[1..], i - 1);
        forall j: nat | j < i - 1
          ensures !IsUsed(rest[1..], j)
        {
          assert !IsUsed(rest, j + 1);
        }
      }
      if i: nat :| IsUsed(rest[1..], i) && MiddleOf(rest[1..][i + 1]) == Some(n) && forall j: nat | j < i :: !IsUsed(rest[1..], j) {
        assert IsUsed(rest, i + 1);
        forall j: nat | j < i + 1
          ensures !IsUsed(rest, j)
        {
          assert j > 0 ==> !IsUsed(rest[1..], j - 1);
        }
      }
    }
  }

  // --------------------------------------------------------- reservations

  /** A host section is usable exactly with an address pair that parses; the MAC may be printed in any case. */
  lemma ReservationExactly(h: Host, r: Reservation)
    ensures ReservationOf(h) == Some(r) <==>
              && h.mac.Some? && Lower(h.mac.value) == r.mac && IsMac(r.mac)
              && h.ip == Some(r.ip) && IsIpv4(r.ip)
              && r.name == (if h.name.Some? then h.name.value else "")
  {
    assert SplitDots("") == [""];
  }

  lemma QuotedParts(id: string, text: string, f: HostField)
    ensures KeyAndValue(id, text) == Some(f) <==> f.id == id && text == KeyText(f.key) + f.value + "'"
  {
    if f.id == id && text == KeyText(f.key) + f.value + "'" {
      KeyReadsBack(id, f.key, f.value);
    }
    if KeyAndValue(id, text) == Some(f) {
      var open := KeyText(f.key);
      assert open == text[..|open|] && text == text[..|open|] + text[|open|..|text| - 1] + [text[|text| - 1]];
    }
  }

  lemma HeadAndDigits(s: string, id: string, text: string)
    requires IsNumber(id) && s == HEAD + (id + ("]." + text))
    ensures HEAD <= s && s[|HEAD|..] == id + ("]." + text) && DigitRun(id + ("]." + text)) == |id|
    ensures var rest := id + ("]." + text);
            "]." <= rest[|id|..] && rest[..|id|] == id && rest[|id| + 2..] == text
  {
    var dot := "].";
    DigitRunOf(id, dot + text);
    DropPrefixes(id, dot, text);
  }

  lemma SplitAtDot(rest: string, n: nat)
    requires n <= |rest| && "]." <= rest[n..]
    ensures rest == rest[..n] + ("]." + rest[n + 2..])
  {
    assert rest[n..][2..] == rest[n + 2..];
  }

  lemma DropHead(s: string, head: string)
    requires head <= s
    ensures s == head + s[|head|..]
  {
  }

  lemma FieldParts(line: string, f: HostField) returns (text: string)
    requires FieldOf(line) == Some(f)
    ensures IsNumber(f.id) && Strip(line) == HEAD + (f.id + ("]." + text)) && KeyAndValue(f.id, text) == Some(f)
  {
    var s := Strip(line);
    var rest := s[|HEAD|..];
    var n := DigitRun(rest);
    text := rest[n + 2..];
    DropHead(s, HEAD);
    SplitAtDot(rest, n);
    QuotedParts(rest[..n], text, f);
  }

  /** A line is read as an option exactly if, stripped, it is that option of some numbered host as the router prints it. */
  lemma FieldExactly(line: string, f: HostField)
    ensures FieldOf(line) == Some(f) <==>
              IsNumber(f.id) && Strip(line) == "dhcp.@host[" + f.id + OptionText(f.key) + f.value + "'"
  {
    FieldText(f.id, f.key, f.value);
    if FieldOf(line) == Some(f) {
      var text := FieldParts(line, f);
      QuotedParts(f.id, text, f);
    }
    if IsNumber(f.id) && Strip(line) == "dhcp.@host[" + f.id + OptionText(f.key) + f.value + "'" {
      HeadAndDigits(Strip(line), f.id, KeyText(f.key) + f.value + "'");
      QuotedParts(f.id, KeyText(f.key) + f.value + "'", f);
    }
  }

  function Get(h: Host, key: Key): Option<string> {
    match key
    case NameKey => h.name
    case MacKey => h.mac
    case IpKey => h.ip
  }

  /** The line holds an option of this section. */
  predicate Mentions(lines: seq<string>, i: nat, id: string) {
    i < |lines| && FieldOf(lines[i]).Some? && FieldOf(lines[i]).value.id == id
  }

  predicate Sets(lines: seq<string>, i: nat, id: string, key: Key) {
    Mentions(lines, i, id) && FieldOf(lines[i]).value.key == key
  }

  ghost predicate SetsLast(lines: seq<string>, i: nat, id: string, key: Key) {
    Sets(lines, i, id, key) && forall j: nat | i < j :: !Sets(lines, j, id, key)
  }

  lemma AddOneLine(hosts: Hosts, line: string)
    ensures AddLines(hosts, [line]) == AddLine(hosts, line)
  {
    assert [line][1..] == [];
  }

  lemma AddLinesLast(lines: seq<string>)
    requires lines != []
    ensures var n := |lines| - 1; AddLines(NO_HOSTS, lines) == AddLine(AddLines(NO_HOSTS, lines[..n]), lines[n])
  {
    var init, last := lines[..|lines| - 1], lines[|lines| - 1];
    AddLinesAppend(NO_HOSTS, init, [last]);
    AddOneLine(AddLines(NO_HOSTS, init), last);
    assert lines == init + [last];
  }

  /** The option of a section so far. */
  function OptionIn(fields: map<string, Host>, id: string, key: Key): Option<string> {
    if id in fields then Get(fields[id], key) else None
  }

  lemma LineEffect(hosts: Hosts, line: string, id: string, key: Key)
    ensures var f, after := FieldOf(line), AddLine(hosts, line).fields;
            && (id in after <==> id in hosts.fields || (f.Some? && f.value.id == id))
            && OptionIn(after, id, key) ==
                 if f.Some? && f.value.id == id && f.value.key == key then Some(f.value.value) else OptionIn(hosts.fields, id, key)
  {
  }

  /** Which lines mention and set an option, with one more line at the end. */
  lemma LastLine(lines: seq<string>, id: string, key: Key)
    requires lines != []
    ensures var n := |lines| - 1; var init := lines[..n];
            && ((exists i: nat :: Mentions(lines, i, id)) <==> Mentions(lines, n, id) || exists i: nat :: Mentions(init, i, id))
            && (forall i: nat :: SetsLast(lines, i, id, key) <==> if Sets(lines, n, id, key) then i == n else SetsLast(init, i, id, key))
            && ((exists i: nat :: Sets(lines, i, id, key)) <==> Sets(lines, n, id, key) || exists i: nat :: Sets(init, i, id, key))
  {
    var n := |lines| - 1;
    var init := lines[..n];
    forall i: nat
      ensures Mentions(lines, i, id) <==> Mentions(init, i, id) || (i == n && Mentions(lines, n, id))
      ensures Sets(lines, i, id, key) <==> Sets(init, i, id, key) || (i == n && Sets(lines, n, id, key))
      ensures i >= n ==> !Sets(init, i, id, key) && !Mentions(init, i, id)
    {
      if i < n {
        assert lines[i] == init[i];
      }
    }
  }

  /** Every section some option mentions is read, with the last value of each of its options. */
  ghost predicate ReadsOptions(fields: map<string, Host>, lines: seq<string>, id: string, key: Key) {
    && (id in fields <==> exists i: nat :: Mentions(lines, i, id))
    && (forall i: nat | SetsLast(lines, i, id, key) :: OptionIn(fields, id, key) == Some(FieldOf(lines[i]).value.value))
    && ((forall i: nat :: !Sets(lines, i, id, key)) ==> OptionIn(fields, id, key) == None)
  }

  lemma OptionsStep(before: map<string, Host>, after: map<string, Host>, lines: seq<string>, id: string, key: Key)
    requires lines != [] && ReadsOptions(before, lines[..|lines| - 1], id, key)
    requires id in after <==> id in before || Mentions(lines, |lines| - 1, id)
    requires OptionIn(after, id, key) ==
               if Sets(lines, |lines| - 1, id, key) then Some(FieldOf(lines[|lines| - 1]).value.value) else OptionIn(before, id, key)
    ensures ReadsOptions(after, lines, id, key)
  {
    LastLine(lines, id, key);
  }

  lemma NoOptions(id: string, key: Key)
    ensures ReadsOptions(map[], [], id, key)
  {
  }

  lemma OptionsSnoc(before: Hosts, lines: seq<string>, id: string, key: Key)
    requires lines != [] && ReadsOptions(before.fields, lines[..|lines| - 1], id, key)
    ensures ReadsOptions(AddLine(before, lines[|lines| - 1]).fields, lines, id, key)
  {
    var last := lines[|lines| - 1];
    LineEffect(before, last, id, key);
    OptionsStep(before.fields, AddLine(before, last).fields, lines, id, key);
  }

  lemma {:induction false} OptionsMeaning(lines: seq<string>, id: string, key: Key)
    ensures ReadsOptions(AddLines(NO_HOSTS, lines).fields, lines, id, key)
  {
    if lines == [] {
      NoOptions(id, key);
    } else {
      var init := lines[..|lines| - 1];
      OptionsMeaning(init, id, key);
      OptionsSnoc(AddLines(NO_HOSTS, init), lines, id, key);
      AddLinesLast(lines);
    }
  }

  ghost predicate ListsOnce(hosts: Hosts) {
    && (forall i, j | 0 <= i < j < |hosts.order| :: hosts.order[i] != hosts.order[j])
    && (forall id :: id in hosts.order <==> id in hosts.fields)
  }

  lemma LineOrder(hosts: Hosts, line: string)
    requires ListsOnce(hosts)
    ensures ListsOnce(AddLine(hosts, line)) && hosts.order <= AddLine(hosts, line).order
  {
  }

  lemma {:induction false} SectionsOnce(lines: seq<string>)
    ensures ListsOnce(AddLines(NO_HOSTS, lines))
  {
    if lines != [] {
      var init := lines[..|lines| - 1];
      SectionsOnce(init);
      AddLinesLast(lines);
      LineOrder(AddLines(NO_HOSTS, init), lines[|lines| - 1]);
    }
  }

  /** Sections stand in the order in which they are first mentioned, each once: more text never reorders them. */
  lemma {:induction false} SectionOrder(lines: seq<string>, n: nat)
    requires n <= |lines|
    ensures ListsOnce(AddLines(NO_HOSTS, lines))
    ensures AddLines(NO_HOSTS, lines[..n]).order <= AddLines(NO_HOSTS, lines).order
  {
    SectionsOnce(lines);
    if n == |lines| {
      assert lines[..n] == lines;
    } else {
      var init := lines[..|lines| - 1];
      SectionOrder(init, n);
      assert init[..n] == lines[..n];
      AddLinesLast(lines);
      LineOrder(AddLines(NO_HOSTS, init), lines[|lines| - 1]);
    }
  }
}
