/** Byte strings, fixed-width integers in them, and Python's tolerant slices. */
module ByteStrings {

  type Byte = b: int | 0 <= b < 256

  type Bytes = seq<Byte>

  function Pow256(n: nat): (r: nat)
    ensures r > 0
  {
    if n == 0 then 1 else 256 * Pow256(n - 1)
  }

  /** `n.to_bytes(width, 'big')`, for numbers below 256^width. */
  function BigEndian(n: nat, width: nat): (s: Bytes)
    ensures |s| == width
  {
    if width == 0 then [] else BigEndian(n / 256, width - 1) + [n % 256]
  }

  /** `int.from_bytes(s, 'big')`. */
  function FromBigEndian(s: Bytes): nat {
    if s == [] then 0 else FromBigEndian(s[..|s| - 1]) * 256 + s[|s| - 1]
  }

  lemma {:induction false} BigEndianRoundTrip(n: nat, width: nat)
    requires n < Pow256(width)
    ensures FromBigEndian(BigEndian(n, width)) == n
  {
    if width > 0 {
      var s := BigEndian(n / 256, width - 1);
      BigEndianRoundTrip(n / 256, width - 1);
      assert (s + [n % 256])[..width - 1] == s;
    }
  }

  /** Strings of one length that are read as the same number are the same. */
  lemma {:induction false} FromBigEndianInjective(a: Bytes, b: Bytes)
    requires |a| == |b| && FromBigEndian(a) == FromBigEndian(b)
    ensures a == b
  {
    if a != [] {
      var n := |a| - 1;
      FromBigEndianInjective(a[..n], b[..n]);
      assert a == a[..n] + [a[n]] && b == b[..n] + [b[n]];
    }
  }

  /** `struct.pack('<...', n)`: least significant byte first. */
  function LittleEndian(n: nat, width: nat): (s: Bytes)
    ensures |s| == width
  {
    if width == 0 then [] else [n % 256] + LittleEndian(n / 256, width - 1)
  }

  function FromLittleEndian(s: Bytes): nat {
    if s == [] then 0 else s[0] + 256 * FromLittleEndian(s[1..])
  }

  lemma {:induction false} LittleEndianRoundTrip(n: nat, width: nat)
    requires n < Pow256(width)
    ensures FromLittleEndian(LittleEndian(n, width)) == n
  {
    if width > 0 {
      LittleEndianRoundTrip(n / 256, width - 1);
      var s := LittleEndian(n / 256, width - 1);
      assert ([n % 256] + s)[1..] == s;
    }
  }

  /** The first byte of a big-endian string weighs most. */
  lemma {:induction false} FirstByteWeighsMost(b: Byte, s: Bytes)
    ensures FromBigEndian([b] + s) == b * Pow256(|s|) + FromBigEndian(s)
  {
    if s == [] {
      assert ([b] + s)[..0] == [];
    } else {
      var init := s[..|s| - 1];
      FirstByteWeighsMost(b, init);
      assert ([b] + s)[..|s|] == [b] + init;
    }
  }

  /** The last byte of a little-endian string weighs most. */
  lemma {:induction false} LastByteWeighsMost(s: Bytes, b: Byte)
    ensures FromLittleEndian(s + [b]) == FromLittleEndian(s) + b * Pow256(|s|)
  {
    if s == [] {
      assert (s + [b])[1..] == [];
    } else {
      var rest := s[1..];
      LastByteWeighsMost(rest, b);
      assert (s + [b])[1..] == rest + [b];
    }
  }

  lemma {:induction false} LeadingZeros(zeros: Bytes, s: Bytes)
    requires forall i | 0 <= i < |zeros| :: zeros[i] == 0
    ensures FromBigEndian(zeros + s) == FromBigEndian(s)
  {
    if zeros == [] {
      assert zeros + s == s;
    } else {
      assert zeros + s == [0] + (zeros[1..] + s);
      LeadingZeros(zeros[1..], s);
      FirstByteWeighsMost(0, zeros[1..] + s);
    }
  }

  /** `s[i:j]` for non-negative indices: clipped to the string, never an error. */
  function Slice<T>(s: seq<T>, i: nat, j: nat): seq<T> {
    var hi := if j < |s| then j else |s|;
    if i < hi then s[i..hi] else []
  }

  /** Equal concatenations with equally long heads have equal parts. */
  lemma SplitConcat<T>(a: seq<T>, b: seq<T>, c: seq<T>, d: seq<T>)
    requires |a| == |c| && a + b == c + d
    ensures a == c && b == d
  {
    assert a == (a + b)[..|a|] && c == (c + d)[..|a|];
    assert b == (a + b)[|a|..] && d == (c + d)[|a|..];
  }

  lemma ConcatAssociates<T>(a: seq<T>, b: seq<T>, c: seq<T>)
    ensures a + (b + c) == a + b + c
  {
  }
}
