/**
 The hand-written P-256 arithmetic of the TMP client: affine addition without a
 point at infinity, over y^2 = x^3 - 3x + b modulo an arbitrary odd prime.
 */
module Curve {
  import opened Wrappers
  import opened ModArith

  /** The field prime and the constant term of the curve equation. */
  type Modulus = p: nat | p > 0 witness 1

  datatype Curve = Curve(p: Modulus, b: int)

  ghost predicate ValidCurve(c: Curve) {
    Prime(c.p) && c.p != 2
  }

  function Cubic(b: int, x: int): int {
    x * x * x - 3 * x + b
  }

  /** (x, y) satisfies the curve equation modulo p. */
  ghost predicate OnCurve(c: Curve, x: int, y: int)
  {
    Div(c.p, y * y - Cubic(c.b, x))
  }

  predicate Reduced(c: Curve, x: int, y: int) {
    0 <= x < c.p && 0 <= y < c.p
  }

  /** The third intersection of the line of slope `lam` through (x1, y1), reflected. */
  function Chord(p: nat, lam: int, x1: int, y1: int, x2: int): (int, int)
    requires p > 0
  {
    var x3 := (lam * lam - x1 - x2) % p;
    (x3, (lam * (x1 - x3) - y1) % p)
  }

  /** `_ec_add`: the sum of two affine points; Raised where the slope's denominator has no inverse. */
  function EcAdd(c: Curve, x1: int, y1: int, x2: int, y2: int): Result<(int, int)>
  {
    var p := c.p;
    if x1 == x2 && y1 == y2 then
      match ModInv(2 * y1, p)
      case None => Raised
      case Some(i) => Ok(Chord(p, (3 * x1 * x1 + (p - 3)) * i % p, x1, y1, x2))
    else
      match ModInv(x2 - x1, p)
      case None => Raised
      case Some(i) => Ok(Chord(p, (y2 - y1) * i % p, x1, y1, x2))
  }

  // --------------------------------------------------------------- closure

  /** The cofactor left when (x - x1) is divided out of the cubic minus the squared line. */
  function Cofactor(l: int, x1: int, y1: int, x: int): int {
    x * x + x * x1 + x1 * x1 - 3 - l * l * (x - x1) - 2 * l * y1
  }

  lemma CofactorSplitsCubic(b: int, l: int, x1: int, y1: int, x: int)
    ensures Cubic(b, x) - (l * (x - x1) + y1) * (l * (x - x1) + y1)
         == Cubic(b, x1) - y1 * y1 + (x - x1) * Cofactor(l, x1, y1, x)
  {
  }

  lemma CofactorDifference(l: int, x1: int, y1: int, x2: int, x3: int)
    ensures Cofactor(l, x1, y1, x3) - Cofactor(l, x1, y1, x2) == (x3 - x2) * (x3 + x2 + x1 - l * l)
  {
  }

  lemma ThirdPoint(p: nat, b: int, l: int, x1: int, y1: int, x2: int, x3: int, y3: int)
    requires p > 0
    requires Div(p, y1 * y1 - Cubic(b, x1))
    requires Div(p, Cofactor(l, x1, y1, x2))
    requires Div(p, x3 - (l * l - x1 - x2))
    requires Div(p, y3 - (l * (x1 - x3) - y1))
    ensures Div(p, y3 * y3 - Cubic(b, x3))
  {
    var h2, h3 := Cofactor(l, x1, y1, x2), Cofactor(l, x1, y1, x3);
    CofactorDifference(l, x1, y1, x2, x3);
    DivMul(p, x3 - (l * l - x1 - x2), x3 - x2);
    DivAdd(p, h3 - h2, h2);
    DivMul(p, h3, x3 - x1);
    CofactorSplitsCubic(b, l, x1, y1, x3);
    var w := l * (x1 - x3) - y1;
    var line := l * (x3 - x1) + y1;
    assert line == -w;
    assert line * line == w * w;
    DivMul(p, y3 - w, y3 + w);
    assert (y3 - w) * (y3 + w) == y3 * y3 - w * w;
    DivAdd(p, y1 * y1 - Cubic(b, x1), (x3 - x1) * h3);
    DivAdd(p, y3 * y3 - w * w, y1 * y1 - Cubic(b, x1) - (x3 - x1) * h3);
  }

  /** A slope computed with the inverse `i` of `d` is a quotient of `e` by `d`. */
  lemma SlopeQuotient(p: nat, d: int, e: int, i: int, l: int)
    requires p > 0 && Div(p, d * i - 1) && l == e * i % p
    ensures Div(p, l * d - e)
  {
    ModIsCongruent(p, e * i);
    DivMul(p, l - e * i, d);
    DivMul(p, d * i - 1, e);
    assert (l - e * i) * d + e * (d * i - 1) == l * d - e;
    DivAdd(p, (l - e * i) * d, e * (d * i - 1));
  }

  lemma ChordIdentity(b: int, l: int, x1: int, y1: int, x2: int, y2: int)
    ensures (x2 - x1) * Cofactor(l, x1, y1, x2)
         == (y1 * y1 - Cubic(b, x1)) - (y2 * y2 - Cubic(b, x2))
            - (l * (x2 - x1) - (y2 - y1)) * (l * (x2 - x1) + y1 + y2)
  {
    CofactorSplitsCubic(b, l, x1, y1, x2);
    var d := x2 - x1;
    assert (l * d - (y2 - y1)) * (l * d + y1 + y2) == (l * d + y1) * (l * d + y1) - y2 * y2;
  }

  lemma DivCancel(p: nat, d: int, i: int, h: int)
    requires p > 0 && Div(p, d * i - 1) && Div(p, d * h)
    ensures Div(p, h)
  {
    DivMul(p, d * h, i);
    DivMul(p, d * i - 1, h);
    assert i * (d * h) - (d * i - 1) * h == h;
    DivAdd(p, i * (d * h), (d * i - 1) * h);
  }

  lemma ChordSlope(c: Curve, x1: int, y1: int, x2: int, y2: int, i: int, l: int)
    requires OnCurve(c, x1, y1) && OnCurve(c, x2, y2)
    requires Div(c.p, (x2 - x1) * i - 1) && l == (y2 - y1) * i % c.p
    ensures Div(c.p, l * (x2 - x1) - (y2 - y1))
    ensures Div(c.p, Cofactor(l, x1, y1, x2))
  {
    var p, d, e := c.p, x2 - x1, y2 - y1;
    SlopeQuotient(p, d, e, i, l);
    ChordIdentity(c.b, l, x1, y1, x2, y2);
    var f1, f2 := y1 * y1 - Cubic(c.b, x1), y2 * y2 - Cubic(c.b, x2);
    DivMul(p, l * d - e, l * d + y1 + y2);
    DivAdd(p, f1, f2);
    DivAdd(p, f1 - f2, (l * d - e) * (l * d + y1 + y2));
    DivCancel(p, d, i, Cofactor(l, x1, y1, x2));
  }

  lemma TangentSlope(c: Curve, x1: int, y1: int, i: int, l: int)
    requires Div(c.p, (2 * y1) * i - 1) && l == (3 * x1 * x1 + (c.p - 3)) * i % c.p
    ensures Div(c.p, Cofactor(l, x1, y1, x1))
  {
    var p, d, e := c.p, 2 * y1, 3 * x1 * x1 + (c.p - 3);
    SlopeQuotient(p, d, e, i, l);
    DivIntro(p, -p, -1);
    DivAdd(p, -p, l * d - e);
    assert Cofactor(l, x1, y1, x1) == -p - (l * d - e);
  }

  /** The slope `lam` that `_ec_add` computes when it does not raise. */
  ghost function SlopeOf(c: Curve, x1: int, y1: int, x2: int, y2: int): int
    requires EcAdd(c, x1, y1, x2, y2).Ok?
  {
    if x1 == x2 && y1 == y2 then (3 * x1 * x1 + (c.p - 3)) * ModInv(2 * y1, c.p).value % c.p
    else (y2 - y1) * ModInv(x2 - x1, c.p).value % c.p
  }

  /** The sum `_ec_add` returns is reduced and on the curve, in the chord and in the tangent branch. */
  lemma EcAddOnCurve(c: Curve, x1: int, y1: int, x2: int, y2: int)
    requires OnCurve(c, x1, y1) && OnCurve(c, x2, y2)
    ensures EcAdd(c, x1, y1, x2, y2).Ok? ==>
              var r := EcAdd(c, x1, y1, x2, y2).value;
              Reduced(c, r.0, r.1) && OnCurve(c, r.0, r.1)
  {
    if EcAdd(c, x1, y1, x2, y2).Ok? {
      var p, r := c.p, EcAdd(c, x1, y1, x2, y2).value;
      var l := SlopeOf(c, x1, y1, x2, y2);
      if x1 == x2 && y1 == y2 {
        TangentSlope(c, x1, y1, ModInv(2 * y1, p).value, l);
      } else {
        ChordSlope(c, x1, y1, x2, y2, ModInv(x2 - x1, p).value, l);
      }
      ModIsCongruent(p, l * l - x1 - x2);
      ModIsCongruent(p, l * (x1 - r.0) - y1);
      ThirdPoint(p, c.b, l, x1, y1, x2, r.0, r.1);
    }
  }

  // ------------------------------------------------- the exceptional case

  lemma OppositeOrdinates(c: Curve, x: int, y1: int, y2: int)
    requires ValidCurve(c) && OnCurve(c, x, y1) && OnCurve(c, x, y2)
    requires Reduced(c, x, y1) && Reduced(c, x, y2) && y1 != y2
    ensures Div(c.p, y1 + y2)
  {
    DivAdd(c.p, y1 * y1 - Cubic(c.b, x), y2 * y2 - Cubic(c.b, x));
    assert (y1 - y2) * (y1 + y2) == (y1 * y1 - Cubic(c.b, x)) - (y2 * y2 - Cubic(c.b, x));
    EuclidsLemma(c.p, y1 - y2, y1 + y2);
    if Div(c.p, y1 - y2) {
      ResiduesEqual(c.p, y1, y2);
    }
  }

  lemma EqualAbscissae(c: Curve, x1: int, x2: int)
    requires 0 <= x1 < c.p && 0 <= x2 < c.p
    ensures Div(c.p, x2 - x1) <==> x1 == x2
  {
    if Div(c.p, x2 - x1) {
      ResiduesEqual(c.p, x2, x1);
    }
  }

  /** `_ec_add` raises exactly when the second point is the reflection of the first. */
  lemma EcAddRaises(c: Curve, x1: int, y1: int, x2: int, y2: int)
    requires ValidCurve(c)
    requires Reduced(c, x1, y1) && OnCurve(c, x1, y1) && Reduced(c, x2, y2) && OnCurve(c, x2, y2)
    ensures EcAdd(c, x1, y1, x2, y2).Raised? <==> x1 == x2 && Div(c.p, y1 + y2)
  {
    EqualAbscissae(c, x1, x2);
    PrimeInverse(x2 - x1, c.p);
    PrimeInverse(2 * y1, c.p);
    if x1 == x2 && y1 != y2 {
      OppositeOrdinates(c, x1, y1, y2);
    }
  }

  // ------------------------------------------- the law with its identity

  /** A point of the curve, with the identity the source has no value for. */
  datatype Point = Infinity | Affine(x: int, y: int)

  ghost predicate OnCurvePoint(c: Curve, P: Point)
  {
    P.Affine? ==> Reduced(c, P.x, P.y) && OnCurve(c, P.x, P.y)
  }

  /** The curve's group law: `_ec_add`, with the identity where `_ec_add` raises. */
  function Add(c: Curve, P: Point, Q: Point): Point
  {
    if P.Infinity? then Q
    else if Q.Infinity? then P
    else
      match EcAdd(c, P.x, P.y, Q.x, Q.y)
      case Raised => Infinity
      case Ok(r) => Affine(r.0, r.1)
  }

  function Negate(c: Curve, P: Point): Point
  {
    if P.Infinity? then P else Affine(P.x, (c.p - P.y) % c.p)
  }

  lemma AddClosed(c: Curve, P: Point, Q: Point)
    requires OnCurvePoint(c, P) && OnCurvePoint(c, Q)
    ensures OnCurvePoint(c, Add(c, P, Q))
  {
    if P.Affine? && Q.Affine? {
      EcAddOnCurve(c, P.x, P.y, Q.x, Q.y);
    }
  }

  lemma NegateReflects(c: Curve, x: int, y: int)
    requires 0 <= y < c.p
    ensures (c.p - y) % c.p == if y == 0 then 0 else c.p - y
    ensures Div(c.p, y + (c.p - y) % c.p)
  {
    DivIntro(c.p, c.p, 1);
    DivIntro(c.p, 0, 0);
  }

  lemma NegateClosed(c: Curve, P: Point)
    requires OnCurvePoint(c, P)
    ensures OnCurvePoint(c, Negate(c, P))
  {
    if P.Affine? {
      var p, y := c.p, (c.p - P.y) % c.p;
      NegateReflects(c, P.x, P.y);
      DivMul(p, P.y + y, P.y - y);
      assert (P.y - y) * (P.y + y) == (P.y * P.y - Cubic(c.b, P.x)) - (y * y - Cubic(c.b, P.x));
      DivAdd(p, P.y * P.y - Cubic(c.b, P.x), (P.y - y) * (P.y + y));
    }
  }

  /** The sum is the identity exactly for a point and its reflection. */
  lemma AddIsIdentity(c: Curve, P: Point, Q: Point)
    requires ValidCurve(c) && OnCurvePoint(c, P) && OnCurvePoint(c, Q)
    ensures Add(c, P, Q) == Infinity <==> Q == Negate(c, P)
  {
    if P.Affine? && Q.Affine? {
      EcAddRaises(c, P.x, P.y, Q.x, Q.y);
      NegateReflects(c, P.x, P.y);
      var y := (c.p - P.y) % c.p;
      if P.x == Q.x && Div(c.p, P.y + Q.y) {
        DivAdd(c.p, P.y + Q.y, P.y + y);
        ResiduesEqual(c.p, Q.y, y);
      }
    }
  }

  lemma SlopesAgree(c: Curve, x1: int, y1: int, x2: int, y2: int, i: int, j: int)
    requires OnCurve(c, x1, y1) && OnCurve(c, x2, y2)
    requires Div(c.p, (x2 - x1) * i - 1) && Div(c.p, (x1 - x2) * j - 1)
    ensures (y2 - y1) * i % c.p == (y1 - y2) * j % c.p
  {
    var p, d := c.p, x2 - x1;
    var l, m := (y2 - y1) * i % p, (y1 - y2) * j % p;
    ChordSlope(c, x1, y1, x2, y2, i, l);
    ChordSlope(c, x2, y2, x1, y1, j, m);
    DivAdd(p, l * d - (y2 - y1), m * (x1 - x2) - (y1 - y2));
    assert (l * d - (y2 - y1)) + (m * (x1 - x2) - (y1 - y2)) == d * (l - m);
    DivMul(p, d * (l - m), i);
    DivMul(p, d * i - 1, l - m);
    assert i * (d * (l - m)) - (d * i - 1) * (l - m) == l - m;
    DivAdd(p, i * (d * (l - m)), (d * i - 1) * (l - m));
    ResiduesEqual(p, l, m);
  }

  lemma ThirdAgrees(p: nat, l: int, x1: int, y1: int, x2: int, y2: int)
    requires p > 0 && Div(p, l * (x2 - x1) - (y2 - y1))
    ensures Chord(p, l, x1, y1, x2) == Chord(p, l, x2, y2, x1)
  {
    var x3 := (l * l - x1 - x2) % p;
    var u, v := l * (x1 - x3) - y1, l * (x2 - x3) - y2;
    assert v - u == l * (x2 - x1) - (y2 - y1);
    CongruentResidues(p, v, u);
  }

  lemma AddCommutes(c: Curve, P: Point, Q: Point)
    requires ValidCurve(c) && OnCurvePoint(c, P) && OnCurvePoint(c, Q)
    ensures Add(c, P, Q) == Add(c, Q, P)
  {
    if P.Affine? && Q.Affine? && P != Q {
      EcAddRaises(c, P.x, P.y, Q.x, Q.y);
      EcAddRaises(c, Q.x, Q.y, P.x, P.y);
      if EcAdd(c, P.x, P.y, Q.x, Q.y).Ok? {
        var i, j := ModInv(Q.x - P.x, c.p).value, ModInv(P.x - Q.x, c.p).value;
        SlopesAgree(c, P.x, P.y, Q.x, Q.y, i, j);
        var l := (Q.y - P.y) * i % c.p;
        ChordSlope(c, P.x, P.y, Q.x, Q.y, i, l);
        ThirdAgrees(c.p, l, P.x, P.y, Q.x, Q.y);
      }
    }
  }
}
