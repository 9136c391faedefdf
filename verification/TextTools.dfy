/** Words, lines and decimal numbers, as Python's string methods take text apart. */
module TextTools {
  /** White space for `split`, `strip` and the pattern class `\s`. */
  predicate IsSpace(c: char) {
    var n := c as int;
    || n == 32 || 9 <= n <= 13 || 28 <= n <= 31 || n == 0x85 || n == 0xa0 || n == 0x1680 || 0x2000 <= n <= 0x200a
    || n == 0x2028 || n == 0x2029 || n == 0x202f || n == 0x205f || n == 0x3000
  }

  /** Line boundaries for `splitlines`. */
  predicate IsBreak(c: char) {
    var n := c as int;
    10 <= n <= 13 || 28 <= n <= 30 || n == 0x85 || n == 0x2028 || n == 0x2029
  }

  // ----------------------------------------------------------------- words

  predicate IsWord(s: string) {
    s != "" && forall c | c in s :: !IsSpace(c)
  }

  function WordLength(s: string): (n: nat)
    ensures n <= |s|
  {
    if s == "" || IsSpace(s[0]) then 0 else 1 + WordLength(s[1..])
  }

  /** `split()` without arguments. */
  function Split(s: string): seq<string>
    decreases |s|
  {
    if s == "" then []
    else if IsSpace(s[0]) then Split(s[1..])
    else [s[..WordLength(s)]] + Split(s[WordLength(s)..])
  }

  /** Words separated by single spaces. */
  function Join(ws: seq<string>): string {
    if ws == [] then "" else if |ws| == 1 then ws[0] else ws[0] + " " + Join(ws[1..])
  }

  lemma {:induction false} WordLengthIs(s: string)
    ensures forall i | 0 <= i < WordLength(s) :: !IsSpace(s[i])
    ensures s != "" && !IsSpace(s[0]) ==> WordLength(s) > 0
  {
    if s != "" && !IsSpace(s[0]) {
      WordLengthIs(s[1..]);
    }
  }

  lemma {:induction false} SplitWords(s: string)
    ensures forall w | w in Split(s) :: IsWord(w)
    decreases |s|
  {
    if s != "" {
      if IsSpace(s[0]) {
        SplitWords(s[1..]);
      } else {
        WordLengthIs(s);
        SplitWords(s[WordLength(s)..]);
      }
    }
  }

  lemma {:induction false} WordLengthOf(w: string, rest: string)
    requires forall c | c in w :: !IsSpace(c)
    requires rest == "" || IsSpace(rest[0])
    ensures WordLength(w + rest) == |w|
  {
    if w == "" {
      assert w + rest == rest;
    } else {
      assert (w + rest)[0] == w[0] && (w + rest)[1..] == w[1..] + rest;
      WordLengthOf(w[1..], rest);
    }
  }

  lemma {:induction false} SplitJoin(ws: seq<string>)
    requires forall w | w in ws :: IsWord(w)
    ensures Split(Join(ws)) == ws
  {
    if ws != [] {
      var w := ws[0];
      assert w in ws;
      var rest := if |ws| == 1 then "" else " " + Join(ws[1..]);
      assert Join(ws) == w + rest;
      WordLengthOf(w, rest);
      assert (w + rest)[0] == w[0];
      assert (w + rest)[..|w|] == w && (w + rest)[|w|..] == rest;
      if |ws| > 1 {
        assert rest[1..] == Join(ws[1..]);
        SplitJoin(ws[1..]);
      }
    }
  }

  /** A joined line starts like its first word, ends in no white space, and breaks no line. */
  lemma {:induction false} JoinIsLine(ws: seq<string>)
    requires ws != [] && forall w | w in ws :: IsWord(w)
    ensures Join(ws) != "" && ws[0] != "" && Join(ws)[0] == ws[0][0]
    ensures forall c | c in Join(ws) :: c == ' ' || !IsSpace(c)
  {
    assert ws[0] in ws;
    if |ws| > 1 {
      JoinIsLine(ws[1..]);
    }
  }

  // ----------------------------------------------------------------- lines

  predicate IsUnbroken(s: string) {
    forall c | c in s :: !IsBreak(c)
  }

  predicate IsLine(s: string) {
    s != "" && IsUnbroken(s)
  }

  function LineLength(s: string): (n: nat)
    ensures n <= |s|
  {
    if s == "" || IsBreak(s[0]) then 0 else 1 + LineLength(s[1..])
  }

  function BreakLength(s: string): (n: nat)
    requires s != ""
    ensures 0 < n <= |s|
  {
    if |s| > 1 && s[0] == '\r' && s[1] == '\n' then 2 else 1
  }

  /** `splitlines()`: a carriage return with its line feed is one boundary. */
  function SplitLines(s: string): seq<string>
    decreases |s|
  {
    if s == "" then []
    else
      var n := LineLength(s);
      if n == |s| then [s] else [s[..n]] + SplitLines(s[n + BreakLength(s[n..])..])
  }

  /** Lines each ended by a line feed. */
  function Unlines(ls: seq<string>): string {
    if ls == [] then "" else ls[0] + "\n" + Unlines(ls[1..])
  }

  /** `"\n".join(ls)`. */
  function JoinLines(ls: seq<string>): string {
    if ls == [] then "" else if |ls| == 1 then ls[0] else ls[0] + "\n" + JoinLines(ls[1..])
  }

  lemma {:induction false} LineLengthIs(s: string)
    ensures forall i | 0 <= i < LineLength(s) :: !IsBreak(s[i])
  {
    if s != "" && !IsBreak(s[0]) {
      LineLengthIs(s[1..]);
    }
  }

  lemma {:induction false} SplitLinesUnbroken(s: string)
    ensures forall l | l in SplitLines(s) :: IsUnbroken(l)
    decreases |s|
  {
    if s != "" {
      LineLengthIs(s);
      var n := LineLength(s);
      if n < |s| {
        SplitLinesUnbroken(s[n + BreakLength(s[n..])..]);
      }
    }
  }

  lemma {:induction false} LineLengthOf(l: string, rest: string)
    requires IsUnbroken(l)
    requires rest == "" || IsBreak(rest[0])
    ensures LineLength(l + rest) == |l|
  {
    if l == "" {
      assert l + rest == rest;
    } else {
      assert (l + rest)[0] == l[0] && (l + rest)[1..] == l[1..] + rest;
      LineLengthOf(l[1..], rest);
    }
  }

  lemma FirstLine(l: string, rest: string)
    requires IsUnbroken(l)
    ensures SplitLines(l + "\n" + rest) == [l] + SplitLines(rest)
  {
    var s := l + "\n" + rest;
    assert s == l + ("\n" + rest);
    LineLengthOf(l, "\n" + rest);
    assert s[|l|] == '\n' && s[..|l|] == l && s[|l| + 1..] == rest;
  }

  lemma {:induction false} SplitUnlines(ls: seq<string>)
    requires forall l | l in ls :: IsLine(l)
    ensures SplitLines(Unlines(ls)) == ls
  {
    if ls != [] {
      assert ls[0] in ls;
      FirstLine(ls[0], Unlines(ls[1..]));
      SplitUnlines(ls[1..]);
    }
  }

  lemma {:induction false} SplitJoinLines(ls: seq<string>)
    requires forall l | l in ls :: IsLine(l)
    ensures SplitLines(JoinLines(ls)) == ls
  {
    if |ls| == 1 {
      assert ls[0] in ls;
      LineLengthOf(ls[0], "");
      assert ls[0] + "" == ls[0];
    } else if ls != [] {
      assert ls[0] in ls;
      FirstLine(ls[0], JoinLines(ls[1..]));
      SplitJoinLines(ls[1..]);
    }
  }

  // ----------------------------------------------------------------- strip

  function StripLeft(s: string): string {
    if s != "" && IsSpace(s[0]) then StripLeft(s[1..]) else s
  }

  function StripRight(s: string): string {
    if s != "" && IsSpace(s[|s| - 1]) then StripRight(s[..|s| - 1]) else s
  }

  /** `strip()`. */
  function Strip(s: string): string {
    StripRight(StripLeft(s))
  }

  lemma {:induction false} StripLeftChars(s: string)
    ensures forall c | c in StripLeft(s) :: c in s
  {
    if s != "" && IsSpace(s[0]) {
      StripLeftChars(s[1..]);
    }
  }

  lemma {:induction false} StripRightChars(s: string)
    ensures forall c | c in StripRight(s) :: c in s
  {
    if s != "" && IsSpace(s[|s| - 1]) {
      StripRightChars(s[..|s| - 1]);
    }
  }

  lemma StripChars(s: string)
    ensures forall c | c in Strip(s) :: c in s
  {
    StripLeftChars(s);
    StripRightChars(StripLeft(s));
  }

  // --------------------------------------------------------------- numbers

  predicate IsDigit(c: char) {
    '0' <= c <= '9'
  }

  predicate IsNumber(s: string) {
    s != "" && forall c | c in s :: IsDigit(c)
  }

  function Digit(n: nat): char
    requires n < 10
  {
    '0' + n as char
  }

  function Decimal(n: nat): (s: string)
    ensures IsNumber(s)
  {
    if n < 10 then [Digit(n)] else Decimal(n / 10) + [Digit(n % 10)]
  }

  /** `int(s)` on decimal digits. */
  function ToNat(s: string): nat
    requires forall c | c in s :: IsDigit(c)
  {
    if s == "" then 0 else assert IsDigit(s[|s| - 1]); ToNat(s[..|s| - 1]) * 10 + (s[|s| - 1] as int - '0' as int)
  }

  lemma {:induction false} DecimalRoundTrip(n: nat)
    ensures ToNat(Decimal(n)) == n
  {
    if n < 10 {
      assert Decimal(n)[..0] == "";
    } else {
      DecimalRoundTrip(n / 10);
      assert Decimal(n)[..|Decimal(n)| - 1] == Decimal(n / 10);
    }
  }

  lemma DecimalInjective(m: nat, n: nat)
    requires Decimal(m) == Decimal(n)
    ensures m == n
  {
    DecimalRoundTrip(m);
    DecimalRoundTrip(n);
  }

  /** The length of the longest run of digits at the start. */
  function DigitRun(s: string): (n: nat)
    ensures n <= |s| && forall i | 0 <= i < n :: IsDigit(s[i])
    ensures n < |s| ==> !IsDigit(s[n])
  {
    if s == "" || !IsDigit(s[0]) then 0 else 1 + DigitRun(s[1..])
  }

  lemma {:induction false} DigitRunOf(d: string, rest: string)
    requires forall c | c in d :: IsDigit(c)
    requires rest == "" || !IsDigit(rest[0])
    ensures DigitRun(d + rest) == |d|
  {
    if d == "" {
      assert d + rest == rest;
    } else {
      assert (d + rest)[0] == d[0] && (d + rest)[1..] == d[1..] + rest;
      DigitRunOf(d[1..], rest);
    }
  }
}
