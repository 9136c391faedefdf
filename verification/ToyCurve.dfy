/** The hypotheses on the curve hold together: y^2 = x^3 - 3x + 1 modulo 7 has five points. */
module ToyCurve {
  import opened Wrappers
  import opened ModArith
  import opened Groups
  import opened Curve
  import opened ScalarMul
  import opened ByteStrings
  import opened Spake2Plus

  ghost predicate IsToy(c: Curve) {
    c.p == 7 && c.b == 1
  }

  /** The multiples of (0, 1), in order. */
  function Nth(i: nat): Point
    requires i < 5
  {
    if i == 0 then Infinity
    else if i == 1 then Affine(0, 1)
    else if i == 2 then Affine(4, 5)
    else if i == 3 then Affine(4, 2)
    else Affine(0, 6)
  }

  /** The remainder modulo 5. */
  function Wrap(i: nat): (r: nat)
    requires i < 10
    ensures r < 5 && r == i % 5
  {
    if i < 5 then i else i - 5
  }

  lemma ToyIsValid(c: Curve)
    requires IsToy(c)
    ensures ValidCurve(c)
  {
    assert !Div(2, 7) && !Div(3, 7) && !Div(4, 7) && !Div(5, 7) && !Div(6, 7);
  }

  lemma NthOnCurve(c: Curve, i: nat)
    requires IsToy(c) && i < 5
    ensures OnCurvePoint(c, Nth(i))
  {
  }

  lemma TangentSum(c: Curve, x: int, y: int, i: int)
    requires IsToy(c) && 0 <= i < 7 && (2 * y * i - 1) % 7 == 0
    ensures EcAdd(c, x, y, x, y) == Ok(Chord(7, (3 * x * x + 4) * i % 7, x, y, x))
  {
    assert Div(7, (2 * y) * i - 1);
    ModInvUnique(2 * y, c.p, i);
  }

  lemma ChordSum(c: Curve, x1: int, y1: int, x2: int, y2: int, i: int)
    requires IsToy(c) && x1 != x2 && 0 <= i < 7 && ((x2 - x1) * i - 1) % 7 == 0
    ensures EcAdd(c, x1, y1, x2, y2) == Ok(Chord(7, (y2 - y1) * i % 7, x1, y1, x2))
  {
    assert Div(7, (x2 - x1) * i - 1);
    ModInvUnique(x2 - x1, c.p, i);
  }

  /** Inverses modulo 7 of the slope denominators that occur. */
  function Denominator(i: nat, j: nat): nat {
    if i == j then (if i == 1 then 4 else if i == 2 then 5 else if i == 3 then 2 else 3)
    else if i == 1 then 2 else 5
  }

  /** What the slope formulas give on the five points, by computation. */
  lemma ComputedTangent(i: nat)
    requires 0 < i < 5
    ensures var P, R, d := Nth(i), Nth(Wrap(2 * i)), Denominator(i, i);
            && R.Affine? && (2 * P.y * d - 1) % 7 == 0
            && (R.x, R.y) == Chord(7, (3 * P.x * P.x + 4) * d % 7, P.x, P.y, P.x)
  {
  }

  lemma ComputedChord(i: nat, j: nat)
    requires 0 < i < j < 5 && i + j != 5
    ensures var P, Q, R, d := Nth(i), Nth(j), Nth(Wrap(i + j)), Denominator(i, j);
            && R.Affine? && P.x != Q.x && ((Q.x - P.x) * d - 1) % 7 == 0
            && (R.x, R.y) == Chord(7, (Q.y - P.y) * d % 7, P.x, P.y, Q.x)
  {
  }

  lemma AddDouble(c: Curve, i: nat)
    requires IsToy(c) && 0 < i < 5
    ensures Add(c, Nth(i), Nth(i)) == Nth(Wrap(2 * i))
  {
    ComputedTangent(i);
    TangentSum(c, Nth(i).x, Nth(i).y, Denominator(i, i));
  }

  lemma AddDistinct(c: Curve, i: nat, j: nat)
    requires IsToy(c) && 0 < i < j < 5 && i + j != 5
    ensures Add(c, Nth(i), Nth(j)) == Nth(Wrap(i + j))
  {
    ComputedChord(i, j);
    ChordSum(c, Nth(i).x, Nth(i).y, Nth(j).x, Nth(j).y, Denominator(i, j));
  }

  lemma AddOpposite(c: Curve, i: nat, j: nat)
    requires IsToy(c) && 0 < i < j && i + j == 5
    ensures Add(c, Nth(i), Nth(j)) == Infinity
  {
    ToyIsValid(c);
    NthOnCurve(c, i);
    NthOnCurve(c, j);
    AddIsIdentity(c, Nth(i), Nth(j));
  }

  lemma AddRow(c: Curve, i: nat, j: nat)
    requires IsToy(c) && i <= j < 5
    ensures Add(c, Nth(i), Nth(j)) == Nth(Wrap(i + j))
  {
    if i == 0 {
    } else if i == j {
      AddDouble(c, i);
    } else if i + j == 5 {
      AddOpposite(c, i, j);
    } else {
      AddDistinct(c, i, j);
    }
  }

  lemma AddTable(c: Curve, i: nat, j: nat)
    requires IsToy(c) && i < 5 && j < 5
    ensures CurveGroup(c).op(Nth(i), Nth(j)) == Nth(Wrap(i + j))
  {
    if i <= j {
      AddRow(c, i, j);
    } else {
      AddRow(c, j, i);
      ToyIsValid(c);
      NthOnCurve(c, i);
      NthOnCurve(c, j);
      AddCommutes(c, Nth(i), Nth(j));
    }
  }

  lemma EveryPointIsNth(c: Curve, P: Point) returns (i: nat)
    requires IsToy(c) && OnCurvePoint(c, P)
    ensures i < 5 && Nth(i) == P
  {
    i := if P.Infinity? then 0 else if P.x == 0 then (if P.y == 1 then 1 else 4) else if P.y == 5 then 2 else 3;
  }

  lemma ToyIsIndexed(c: Curve, f: int -> Point)
    requires IsToy(c) && forall i: nat | i < 5 :: f(i) == Nth(i)
    ensures IndexedBy(CurveGroup(c), f, 5)
  {
    var g := CurveGroup(c);
    forall i: nat, j: nat
      ensures SumAt(g, f, 5, i, j)
    {
      if i < 5 && j < 5 {
        AddTable(c, i, j);
      }
    }
    forall P | g.mem(P)
      ensures exists i: nat :: IndexOf(f, 5, P, i)
    {
      var i := EveryPointIsNth(c, P);
      assert IndexOf(f, 5, P, i);
    }
  }

  /** The hypotheses on which the results about the curve rest are met by this curve. */
  lemma HypothesesHold(c: Curve)
    requires IsToy(c)
    ensures OddOrderPoint(c, Nth(1), 5)
  {
    ToyIsValid(c);
    NthOnCurve(c, 1);
    var f: int -> Point := i => if 0 <= i < 5 then Nth(i) else Infinity;
    ToyIsIndexed(c, f);
    forall P, Q, R
      ensures AssocAt(CurveGroup(c), P, Q, R)
    {
      IndexedAssociates(CurveGroup(c), f, 5, P, Q, R);
    }
    IndexedOrder(CurveGroup(c), f, 5);
  }

  lemma WideEnough(width: nat)
    requires width > 0
    ensures Pow256(width) >= 256
  {
  }

  lemma EveryPointIsAnnihilated(c: Curve, f: int -> Point, n: nat, P: Point)
    requires ValidCurve(c) && Associative(c) && IndexedBy(CurveGroup(c), f, n) && OnCurvePoint(c, f(1))
    ensures AnnihilatedAt(c, n, P)
  {
    if OnCurvePoint(c, P) {
      CurveIsAbelian(c);
      IndexedAnnihilates(CurveGroup(c), f, n, P);
    }
  }

  lemma FiveIsPrime(n: nat)
    requires n == 5
    ensures Prime(n)
  {
    assert !Div(2, n) && !Div(3, n) && !Div(4, n);
  }

  lemma ToyHasPrimeOrder(c: Curve, n: nat)
    requires IsToy(c) && n == 5
    ensures PrimeOrderCurve(c, n)
  {
    HypothesesHold(c);
    var f: int -> Point := i => if 0 <= i < 5 then Nth(i) else Infinity;
    ToyIsIndexed(c, f);
    forall P
      ensures AnnihilatedAt(c, n, P)
    {
      EveryPointIsAnnihilated(c, f, n, P);
    }
    FiveIsPrime(n);
  }

  /** The key exchange with G, M and N among the five points. */
  ghost predicate IsToySetting(s: Setting) {
    IsToy(s.c) && s.n == 5 && s.G == (0, 1) && s.M == (4, 5) && s.N == (4, 2)
  }

  /** So are those of the key exchange, with G, M and N among the five points. */
  lemma SettingIsValid(s: Setting)
    requires IsToySetting(s)
    ensures ValidSetting(s)
  {
    ToyHasPrimeOrder(s.c, s.n);
    WideEnough(32);
    NthOnCurve(s.c, 1);
    NthOnCurve(s.c, 2);
    NthOnCurve(s.c, 3);
  }

  // ------------------------------------------- a share that is not a point

  lemma InverseOfDouble(y: int) returns (i: int)
    requires 0 < y < 7
    ensures 0 <= i < 7 && (2 * y * i - 1) % 7 == 0
  {
    i := if y == 1 then 4 else if y == 2 then 2 else if y == 3 then 6 else if y == 4 then 1 else if y == 5 then 5 else 3;
  }

  /** With the scalar one, `_ec_mul` returns its point if the last doubling, whose result it drops, does not raise. */
  lemma OneTimes(c: Curve, k: nat, q: Pair)
    requires IsToy(c) && k == 1 && 0 < q.1 < 7
    ensures DoubleAndAdd(c, k, None, q) == Ok(Some(q))
  {
    var i := InverseOfDouble(q.1);
    TangentSum(c, q.0, q.1, i);
    FirstBit(c, k, q, EcAdd(c, q.0, q.1, q.0, q.1).value);
  }

  /** `t` is the sum of `q` and `r` by the chord formula, with `i` the inverse of its denominator. */
  predicate IsChord(q: Pair, r: Pair, i: int, t: Pair) {
    && q.0 != r.0 && 0 <= i < 7 && ((r.0 - q.0) * i - 1) % 7 == 0
    && t == Chord(7, (r.1 - q.1) * i % 7, q.0, q.1, r.0)
  }

  lemma PairSum(c: Curve, q: Pair, r: Pair, i: int, t: Pair)
    requires IsToy(c) && IsChord(q, r, i, t)
    ensures EcAdd(c, q.0, q.1, r.0, r.1) == Ok(t)
  {
    ChordSum(c, q.0, q.1, r.0, r.1, i);
  }

  lemma ComputedSums()
    ensures IsChord((0, 1), (4, 5), 2, (4, 2)) && IsChord((1, 1), (4, 5), 5, (3, 1))
  {
  }

  lemma ShareInSteps(s: Setting, k: nat, X: Pair)
    requires DoubleAndAdd(s.c, k, None, s.G) == Ok(Some(s.G)) && DoubleAndAdd(s.c, k, None, s.M) == Ok(Some(s.M))
    requires EcAdd(s.c, s.G.0, s.G.1, s.M.0, s.M.1) == Ok(X)
    ensures ProverShare(s, k, k) == Ok(X)
  {
  }

  lemma ToyProverShare(s: Setting, k: nat, X: Pair)
    requires IsToySetting(s) && k == 1 && X == (4, 2)
    ensures ProverShare(s, k, k) == Ok(X)
  {
    OneTimes(s.c, k, s.G);
    OneTimes(s.c, k, s.M);
    ComputedSums();
    PairSum(s.c, s.G, s.M, 2, X);
    ShareInSteps(s, k, X);
  }

  lemma ToyProverSecrets(s: Setting, k: nat, Y: Pair, D: Pair)
    requires IsToySetting(s) && k == 1 && Y == (1, 1) && D == (3, 1)
    ensures ProverSecrets(s, k, k, k, Y) == Ok((D, Some(D), Some(D)))
  {
    OneTimes(s.c, k, s.N);
    OneTimes(s.c, k, D);
    ComputedSums();
    PairSum(s.c, Y, (s.N.0, s.c.p - s.N.1), 5, D);
    SecretsInSteps(s, k, k, k, Y, s.N, Ok(D), Some(D), Some(D));
  }

  lemma SmallEncodes(q: Pair)
    requires 0 <= q.0 < 256 && 0 <= q.1 < 256
    ensures EncodePoint(Some(q)).Ok?
  {
    WideEnough(32);
  }

  lemma ToyFinish(s: Setting, f: Primitives, session: Session, devShare: Bytes, k: nat, X: Pair, D: Pair)
    requires IsToySetting(s) && X == (4, 2) && D == (3, 1)
    ensures Finish(s, f, session, devShare, k, X, Some(D), Some(D)).Ok?
  {
    SmallEncodes(X);
    SmallEncodes(D);
    SmallEncodes(s.M);
    SmallEncodes(s.N);
  }

  /** A string that is read as the scalar one. */
  lemma UnitScalar(n: Modulus, k: nat, width: nat)
    requires k == 1 && n > 1 && width > 0
    ensures Scalar(n, BigEndian(k, width)) == k
  {
    WideEnough(width);
    BigEndianRoundTrip(k, width);
  }

  lemma SliceParts(a: Bytes, b: Bytes)
    requires |a| == 32 && |b| == 32
    ensures Slice(a + b, 0, 32) == a && Slice(a + b, 32, 64) == b
  {
  }

  lemma ToyProve(s: Setting, f: Primitives, session: Session, k: nat, Y: Pair, one: Bytes)
    requires IsToySetting(s) && k == 1 && Y == (1, 1) && |one| == 32 && Scalar(s.n, one) == k
    ensures Prove(s, f, session, PointBytes(Y), one + one, one).Ok?
  {
    var X, D := (4, 2), (3, 1);
    SliceParts(one, one);
    WideEnough(32);
    ShareRoundTrip(Y);
    ToyProverShare(s, k, X);
    ToyProverSecrets(s, k, Y, D);
    ToyFinish(s, f, session, PointBytes(Y), k, X, D);
  }

  /**
   `compute_share` does not check that the peer's share lies on the curve: here is one that does
   not, with which it completes.
   */
  lemma OffCurveShareCompletes(s: Setting, f: Primitives, session: Session) returns (Y: Pair, dk: Bytes, random: Bytes)
    requires IsToySetting(s)
    ensures Reduced(s.c, Y.0, Y.1) && !OnCurve(s.c, Y.0, Y.1)
    ensures Prove(s, f, session, PointBytes(Y), dk, random).Ok?
  {
    var k: nat := 1;
    var one := BigEndian(k, 32);
    Y, dk, random := (1, 1), one + one, one;
    UnitScalar(s.n, k, 32);
    ToyProve(s, f, session, k, Y, one);
  }
}
