/**
 `_ec_mul`: double-and-add without a point at infinity. Of the group laws only
 associativity is assumed; the rest is proved in `Curve`.
 */
module ScalarMul {
  import opened Wrappers
  import opened ModArith
  import opened Groups
  import opened Curve

  ghost function CurveGroup(c: Curve): Group<Point> {
    Group(Infinity, (P, Q) => Add(c, P, Q), P => Negate(c, P), P => OnCurvePoint(c, P))
  }

  /** The one group law that is a hypothesis throughout this project. */
  ghost predicate Associative(c: Curve) {
    forall P, Q, R :: AssocAt(CurveGroup(c), P, Q, R)
  }

  lemma CurveIsAbelian(c: Curve)
    requires ValidCurve(c) && Associative(c)
    ensures Abelian(CurveGroup(c))
  {
    var g := CurveGroup(c);
    forall P, Q
      ensures ClosedAt(g, P, Q)
    {
      if g.mem(P) && g.mem(Q) {
        AddClosed(c, P, Q);
        AddCommutes(c, P, Q);
      }
    }
    forall P
      ensures NeutralAt(g, P)
    {
      if g.mem(P) {
        NegateClosed(c, P);
        AddIsIdentity(c, P, Negate(c, P));
      }
    }
  }

  /** `k` copies of `P` under the curve's law. */
  ghost function Times(c: Curve, k: nat, P: Point): Point {
    Mul(CurveGroup(c), k, P)
  }

  /** A point as the pair of coordinates the source carries, the identity as (None, None). */
  function Coordinates(P: Point): Option<(int, int)> {
    if P.Infinity? then None else Some((P.x, P.y))
  }

  /** The loop of `_ec_mul` from an accumulator `r` and a running double `q`. */
  function DoubleAndAdd(c: Curve, k: nat, r: Option<(int, int)>, q: (int, int)): Result<Option<(int, int)>> {
    if k == 0 then Ok(r)
    else
      var r' :- if k % 2 == 0 then Ok(r)
                else if r.None? then Ok(Some(q))
                else var s :- EcAdd(c, r.value.0, r.value.1, q.0, q.1); Ok(Some(s));
      var q' :- EcAdd(c, q.0, q.1, q.0, q.1);
      DoubleAndAdd(c, k / 2, r', q')
  }

  /** `_ec_mul(k, x, y)`; Raised when one of its additions raises. */
  method EcMul(c: Curve, k: nat, x: int, y: int) returns (res: Result<Option<(int, int)>>)
    ensures res == DoubleAndAdd(c, k, None, (x, y))
  {
    var r: Option<(int, int)> := None;
    var q := (x, y);
    var n := k;
    while n > 0
      invariant DoubleAndAdd(c, n, r, q) == DoubleAndAdd(c, k, None, (x, y))
    {
      if n % 2 == 1 {
        if r.None? {
          r := Some(q);
        } else {
          var s := EcAdd(c, r.value.0, r.value.1, q.0, q.1);
          if s.Raised? {
            return Raised;
          }
          r := Some(s.value);
        }
      }
      var d := EcAdd(c, q.0, q.1, q.0, q.1);
      if d.Raised? {
        return Raised;
      }
      q := d.value;
      n := n / 2;
    }
    return Ok(r);
  }

  // ------------------------------------------------------ what it computes

  lemma SmallNotDivisible(n: nat, a: nat)
    requires 0 < a < n
    ensures !Div(n, a)
  {
    if Div(n, a) {
      ResiduesEqual(n, a, 0);
    }
  }

  function Pow2(i: nat): (t: nat)
    ensures t > 0
  {
    if i == 0 then 1 else 2 * Pow2(i - 1)
  }

  /** The number formed by the lowest `i` bits of `k`, the scalar accumulated after `i` rounds. */
  function LowBits(k: nat, i: nat): nat {
    k % Pow2(i)
  }

  /** The accumulated scalar after `i` rounds is a positive multiple of `n`. */
  ghost predicate Vanishes(n: nat, k: nat, i: nat)
    requires n > 0
  {
    LowBits(k, i) != 0 && Div(n, LowBits(k, i))
  }

  lemma QuotientByDouble(k: nat, t: nat, m: nat, a: nat, h: nat, b: nat)
    requires k == m * t + a && a < t && m == 2 * h + b && b < 2
    ensures k / (2 * t) == h && k % (2 * t) == b * t + a
  {
    assert m * t == h * (2 * t) + b * t;
    assert b * t == 0 || b * t == t;
    QuotientAndRemainder(k, 2 * t, h, b * t + a);
  }

  /** One round moves the lowest remaining bit into the accumulated scalar. */
  lemma NextBit(k: nat, i: nat)
    ensures k / Pow2(i) >= 0
    ensures k / Pow2(i + 1) == k / Pow2(i) / 2
    ensures LowBits(k, i + 1) == LowBits(k, i) + (k / Pow2(i) % 2) * Pow2(i)
  {
    var t := Pow2(i);
    var m, a := k / t, k % t;
    assert k == m * t + a;
    MulBound(m, t);
    QuotientByDouble(k, t, m, a, m / 2, m % 2);
  }

  lemma {:induction false} PowerNotDivisible(n: nat, i: nat)
    requires n % 2 == 1 && n > 1
    ensures !Div(n, Pow2(i))
  {
    if i == 0 {
      SmallNotDivisible(n, 1);
    } else {
      PowerNotDivisible(n, i - 1);
      OddDivisor(n, Pow2(i - 1));
    }
  }

  /** The loop of `_ec_mul` from round `i` on, started on multiples of `P`. */
  ghost function FromRound(c: Curve, P: Point, k: nat, i: nat): Result<Option<(int, int)>>
    requires Times(c, Pow2(i), P).Affine?
  {
    var T := Times(c, Pow2(i), P);
    NextBit(k, i);
    DoubleAndAdd(c, k / Pow2(i), Coordinates(Times(c, LowBits(k, i), P)), (T.x, T.y))
  }

  ghost predicate OddOrderPoint(c: Curve, P: Point, n: nat) {
    && ValidCurve(c) && Associative(c) && P.Affine? && OnCurvePoint(c, P)
    && n % 2 == 1 && HasOrder(CurveGroup(c), P, n)
  }

  lemma OrderAboveOne(c: Curve, P: Point, n: nat)
    requires OddOrderPoint(c, P, n)
    ensures n > 1
  {
    CurveIsAbelian(c);
    MulOne(CurveGroup(c), P);
  }

  lemma PowerIsAffine(c: Curve, P: Point, n: nat, i: nat)
    requires OddOrderPoint(c, P, n)
    ensures n > 1 && !Div(n, Pow2(i)) && Times(c, Pow2(i), P).Affine?
  {
    OrderAboveOne(c, P, n);
    CurveIsAbelian(c);
    PowerNotDivisible(n, i);
    OrderDivides(CurveGroup(c), P, n, Pow2(i));
  }

  /** Adding two multiples raises exactly when the order divides the sum of their scalars. */
  lemma AddOrRaise(c: Curve, P: Point, n: nat, a: nat, t: nat)
    requires OddOrderPoint(c, P, n) && !Div(n, a) && !Div(n, t)
    ensures Times(c, a, P).Affine? && Times(c, t, P).Affine?
    ensures !Div(n, a + t) ==> Times(c, a + t, P).Affine?
    ensures var A, T, S := Times(c, a, P), Times(c, t, P), Times(c, a + t, P);
            EcAdd(c, A.x, A.y, T.x, T.y) == if Div(n, a + t) then Raised else Ok((S.x, S.y))
  {
    var g := CurveGroup(c);
    CurveIsAbelian(c);
    OrderDivides(g, P, n, a);
    OrderDivides(g, P, n, t);
    OrderDivides(g, P, n, a + t);
    MulAdd(g, a, t, P);
    assert Add(c, Times(c, a, P), Times(c, t, P)) == Times(c, a + t, P);
  }

  lemma DoubledPoint(c: Curve, P: Point, n: nat, t: nat)
    requires OddOrderPoint(c, P, n) && !Div(n, t)
    ensures Times(c, t, P).Affine? && Times(c, 2 * t, P).Affine?
    ensures var T, D := Times(c, t, P), Times(c, 2 * t, P);
            EcAdd(c, T.x, T.y, T.x, T.y) == Ok((D.x, D.y))
  {
    OrderAboveOne(c, P, n);
    OddDivisor(n, t);
    AddOrRaise(c, P, n, t, t);
    assert t + t == 2 * t;
  }

  /** One round of the loop on a scalar whose lowest bit is clear. */
  lemma ClearBit(c: Curve, k: nat, r: Option<(int, int)>, q: (int, int), d: (int, int))
    requires k > 0 && k % 2 == 0 && EcAdd(c, q.0, q.1, q.0, q.1) == Ok(d)
    ensures DoubleAndAdd(c, k, r, q) == DoubleAndAdd(c, k / 2, r, d)
  {
  }

  /** The round of the lowest set bit. */
  lemma FirstBit(c: Curve, k: nat, q: (int, int), d: (int, int))
    requires k % 2 == 1 && EcAdd(c, q.0, q.1, q.0, q.1) == Ok(d)
    ensures DoubleAndAdd(c, k, None, q) == DoubleAndAdd(c, k / 2, Some(q), d)
  {
  }

  /** The round of any other set bit. */
  lemma SetBit(c: Curve, k: nat, r: (int, int), q: (int, int), d: (int, int))
    requires k % 2 == 1 && EcAdd(c, q.0, q.1, q.0, q.1) == Ok(d)
    ensures DoubleAndAdd(c, k, Some(r), q) ==
              match EcAdd(c, r.0, r.1, q.0, q.1)
              case Ok(sum) => DoubleAndAdd(c, k / 2, Some(sum), d)
              case Raised => Raised
  {
  }

  /** One round on the multiples by `a`, accumulated, and by `t`, the running double. */
  lemma RoundOn(c: Curve, P: Point, n: nat, a: nat, t: nat, m: nat)
    requires OddOrderPoint(c, P, n) && m > 0 && !Div(n, t) && (a == 0 || !Div(n, a))
    ensures Times(c, t, P).Affine? && Times(c, 2 * t, P).Affine?
    ensures var T, D, b := Times(c, t, P), Times(c, 2 * t, P), m % 2;
            DoubleAndAdd(c, m, Coordinates(Times(c, a, P)), (T.x, T.y)) ==
              if b == 1 && a > 0 && Div(n, a + t) then Raised
              else DoubleAndAdd(c, m / 2, Coordinates(Times(c, if b == 1 then a + t else a, P)), (D.x, D.y))
  {
    DoubledPoint(c, P, n, t);
    var T, D := Times(c, t, P), Times(c, 2 * t, P);
    var q, d := (T.x, T.y), (D.x, D.y);
    if m % 2 == 0 {
      ClearBit(c, m, Coordinates(Times(c, a, P)), q, d);
    } else if a == 0 {
      FirstBit(c, m, q, d);
      assert Times(c, a, P) == Infinity && a + t == t;
    } else {
      AddOrRaise(c, P, n, a, t);
      var A := Times(c, a, P);
      SetBit(c, m, (A.x, A.y), q, d);
    }
  }

  lemma NextVanishes(n: nat, k: nat, i: nat)
    requires n > 0 && !Vanishes(n, k, i) && !Div(n, Pow2(i))
    ensures var a, t, b := LowBits(k, i), Pow2(i), k / Pow2(i) % 2;
            && LowBits(k, i + 1) == (if b == 1 then a + t else a)
            && (Vanishes(n, k, i + 1) <==> b == 1 && a > 0 && Div(n, a + t))
  {
    NextBit(k, i);
    var a, t, b := LowBits(k, i), Pow2(i), k / Pow2(i) % 2;
    if b == 1 {
      assert b * t == t;
    } else {
      assert b * t == 0;
    }
  }

  /** A round whose sum is not the identity continues with the next multiples; the other raises. */
  lemma Round(c: Curve, P: Point, n: nat, k: nat, i: nat)
    requires OddOrderPoint(c, P, n) && k / Pow2(i) > 0
    requires !Vanishes(n, k, i)
    ensures Times(c, Pow2(i), P).Affine? && Times(c, Pow2(i + 1), P).Affine?
    ensures FromRound(c, P, k, i) ==
              if Vanishes(n, k, i + 1) then Raised else FromRound(c, P, k, i + 1)
  {
    PowerIsAffine(c, P, n, i);
    NextBit(k, i);
    RoundOn(c, P, n, LowBits(k, i), Pow2(i), k / Pow2(i));
    NextVanishes(n, k, i);
  }

  lemma {:induction false} AllBitsTaken(k: nat, i: nat, j: nat)
    requires k / Pow2(i) == 0 && i <= j
    ensures k / Pow2(j) == 0 && LowBits(k, j) == k
  {
    if i < j {
      AllBitsTaken(k, i, j - 1);
      NextBit(k, j - 1);
    } else {
      assert k == 0 * Pow2(i) + k % Pow2(i);
    }
  }

  /** When no bit is left, the accumulated multiple is the whole one. */
  lemma NoRoundLeft(c: Curve, P: Point, n: nat, k: nat, i: nat)
    requires n > 0 && k / Pow2(i) == 0 && Times(c, Pow2(i), P).Affine?
    requires forall j | 0 <= j <= i :: !Vanishes(n, k, j)
    ensures forall j :: !Vanishes(n, k, j)
    ensures FromRound(c, P, k, i) == Ok(Coordinates(Times(c, k, P)))
  {
    AllBitsTaken(k, i, i);
    forall j: nat
      ensures !Vanishes(n, k, j)
    {
      if j > i {
        AllBitsTaken(k, i, j);
        assert LowBits(k, j) == LowBits(k, i) && !Vanishes(n, k, i);
      }
    }
  }

  lemma {:induction false} RoundsFrom(c: Curve, P: Point, n: nat, k: nat, i: nat)
    requires OddOrderPoint(c, P, n)
    requires forall j | 0 <= j <= i :: !Vanishes(n, k, j)
    ensures Times(c, Pow2(i), P).Affine?
    ensures (exists j :: Vanishes(n, k, j)) ==> FromRound(c, P, k, i) == Raised
    ensures (forall j :: !Vanishes(n, k, j)) ==> FromRound(c, P, k, i) == Ok(Coordinates(Times(c, k, P)))
    decreases k / Pow2(i)
  {
    PowerIsAffine(c, P, n, i);
    NextBit(k, i);
    if k / Pow2(i) > 0 {
      Round(c, P, n, k, i);
      if !Vanishes(n, k, i + 1) {
        RoundsFrom(c, P, n, k, i + 1);
      }
    } else {
      NoRoundLeft(c, P, n, k, i);
    }
  }

  /**
   For a point of odd order `n` and any scalar, `_ec_mul` raises exactly when some
   low part of the scalar's binary form is a positive multiple of `n`; otherwise it
   returns the multiple, (None, None) standing for the identity.
   */
  lemma EcMulExact(c: Curve, P: Point, n: nat, k: nat)
    requires OddOrderPoint(c, P, n)
    ensures DoubleAndAdd(c, k, None, (P.x, P.y)) ==
              if exists i :: Vanishes(n, k, i) then Raised else Ok(Coordinates(Times(c, k, P)))
  {
    CurveIsAbelian(c);
    MulOne(CurveGroup(c), P);
    assert Pow2(0) == 1 && LowBits(k, 0) == 0;
    assert Times(c, 0, P) == Infinity;
    RoundsFrom(c, P, n, k, 0);
  }

  lemma LowBitsBelow(k: nat, i: nat)
    ensures 0 <= LowBits(k, i) <= k
  {
    var t := Pow2(i);
    MulBound(k / t, t);
    assert k == (k / t) * t + k % t;
  }

  /** For a scalar below the order, `_ec_mul` never raises and returns the multiple. */
  lemma EcMulIsMultiple(c: Curve, P: Point, n: nat, k: nat)
    requires OddOrderPoint(c, P, n) && k < n
    ensures DoubleAndAdd(c, k, None, (P.x, P.y)) == Ok(Coordinates(Times(c, k, P)))
    ensures Times(c, k, P) == Infinity <==> k == 0
    ensures OnCurvePoint(c, Times(c, k, P))
  {
    CurveIsAbelian(c);
    EcMulExact(c, P, n, k);
    MulClosed(CurveGroup(c), k, P);
    assert Times(c, 0, P) == Infinity;
    forall i
      ensures !Vanishes(n, k, i)
    {
      LowBitsBelow(k, i);
      if LowBits(k, i) > 0 {
        SmallNotDivisible(n, LowBits(k, i));
      }
    }
  }
}
