/**
 Arithmetic modulo a positive number, the extended Euclidean algorithm behind
 Python's `pow(a, -1, m)`, and Euclid's lemma for prime moduli.
 */
module ModArith {
  import opened Wrappers

  /** `p` divides `z`. */
  ghost predicate Div(p: int, z: int)
    requires p > 0
  {
    z % p == 0
  }

  ghost predicate Prime(p: int) {
    p >= 2 && forall d :: 2 <= d < p ==> !Div(d, p)
  }

  lemma MulBound(k: int, p: int)
    requires p > 0
    ensures k >= 1 ==> k * p >= p
    ensures k <= -1 ==> k * p <= -p
  {
  }

  lemma DivIntro(p: int, z: int, k: int)
    requires p > 0 && z == k * p
    ensures Div(p, z)
  {
    var q, r := z / p, z % p;
    assert z == q * p + r;
    assert (k - q) * p == r;
    MulBound(k - q, p);
  }

  lemma DivAdd(p: int, a: int, b: int)
    requires p > 0 && Div(p, a) && Div(p, b)
    ensures Div(p, a + b) && Div(p, a - b) && Div(p, -a)
  {
    var j, k := a / p, b / p;
    DivIntro(p, a + b, j + k);
    DivIntro(p, a - b, j - k);
    DivIntro(p, -a, -j);
  }

  lemma DivMul(p: int, a: int, m: int)
    requires p > 0 && Div(p, a)
    ensures Div(p, m * a) && Div(p, a * m)
  {
    var j := (a) / p;
    assert m * a == (m * j) * p;
    DivIntro(p, m * a, m * j);
    assert a * m == m * a;
  }

  /** A residue differs from its number by a multiple of the modulus. */
  lemma ModIsCongruent(p: int, z: int)
    requires p > 0
    ensures 0 <= z % p < p && Div(p, z - z % p) && Div(p, z % p - z)
  {
    DivIntro(p, z - z % p, z / p);
    DivIntro(p, z % p - z, -(z / p));
  }

  /** Two residues that are congruent are equal. */
  lemma ResiduesEqual(p: int, a: int, b: int)
    requires p > 0 && 0 <= a < p && 0 <= b < p && Div(p, a - b)
    ensures a == b
  {
    var k := (a - b) / p;
    MulBound(k, p);
  }

  lemma CongruentResidues(p: int, a: int, b: int)
    requires p > 0 && Div(p, a - b)
    ensures a % p == b % p
  {
    ModIsCongruent(p, a);
    ModIsCongruent(p, b);
    DivAdd(p, a % p - a, a - b);
    DivAdd(p, a % p - b, b - b % p);
    ResiduesEqual(p, a % p, b % p);
  }

  datatype Bezout = Bezout(g: nat, s: int, t: int)

  lemma ExtGcdStep(a: nat, b: nat, r: Bezout)
    requires b > 0 && r.g > 0 && r.s * b + r.t * (a % b) == r.g
    requires b % r.g == 0 && (a % b) % r.g == 0
    ensures r.t * a + (r.s - (a / b) * r.t) * b == r.g && a % r.g == 0
  {
    var q := a / b;
    assert a == q * b + a % b;
    assert r.t * a == r.t * (q * b) + r.t * (a % b);
    assert (r.s - q * r.t) * b == r.s * b - r.t * (q * b);
    DivMul(r.g, b, q);
    DivAdd(r.g, q * b, a % b);
  }

  /** The extended Euclidean algorithm: a common divisor that is a combination of both arguments. */
  function ExtGcd(a: nat, b: nat): (r: Bezout)
    requires a + b > 0
    ensures r.g > 0 && r.s * a + r.t * b == r.g
    ensures a % r.g == 0 && b % r.g == 0
    decreases b
  {
    if b == 0 then Bezout(a, 1, 0)
    else
      var r := ExtGcd(b, a % b);
      ExtGcdStep(a, b, r);
      Bezout(r.g, r.t, r.s - (a / b) * r.t)
  }

  lemma CommonDivisorDividesOne(a: int, m: nat, g: int, i: int)
    requires m > 0 && g > 0 && (a % m) % g == 0 && m % g == 0 && Div(m, a * i - 1)
    ensures Div(g, 1)
  {
    var k, l := (a * i - 1) / m, m / g;
    assert a * i - 1 == (k * l) * g by {
      assert k * (l * g) == (k * l) * g;
    }
    DivIntro(g, a * i - 1, k * l);
    ModIsCongruent(m, a);
    var j := (a - a % m) / m;
    assert a - a % m == (j * l) * g by {
      assert j * (l * g) == (j * l) * g;
    }
    DivIntro(g, a - a % m, j * l);
    DivAdd(g, a - a % m, a % m);
    DivMul(g, a, i);
    DivAdd(g, a * i, a * i - 1);
  }

  lemma ModInvStep(a: int, m: nat, e: Bezout)
    requires m > 0 && e.g > 0 && e.s * (a % m) + e.t * m == e.g
    requires (a % m) % e.g == 0 && m % e.g == 0
    ensures e.g == 1 ==> Div(m, a * (e.s % m) - 1)
    ensures e.g != 1 ==> forall i {:trigger a * i} :: !Div(m, a * i - 1)
  {
    if e.g == 1 {
      var s := e.s % m;
      DivIntro(m, e.s * (a % m) - 1, -e.t);
      ModIsCongruent(m, a);
      ModIsCongruent(m, e.s);
      DivMul(m, a - a % m, e.s);
      assert e.s * (a - a % m) == e.s * a - e.s * (a % m);
      DivAdd(m, e.s * (a - a % m), e.s * (a % m) - 1);
      DivMul(m, s - e.s, a);
      assert a * (s - e.s) == a * s - e.s * a;
      DivAdd(m, a * (s - e.s), e.s * a - 1);
    } else {
      forall i {:trigger a * i}
        ensures !Div(m, a * i - 1)
      {
        if Div(m, a * i - 1) {
          CommonDivisorDividesOne(a, m, e.g, i);
        }
      }
    }
  }

  /** `pow(a, -1, m)`: the inverse of `a` modulo `m` in `0..m`, or nothing where Python raises ValueError. */
  function ModInv(a: int, m: nat): (r: Option<nat>)
    requires m > 0
    ensures r.Some? ==> r.value < m && Div(m, a * r.value - 1)
    ensures r.None? ==> forall i {:trigger a * i} :: !Div(m, a * i - 1)
  {
    var e := ExtGcd(a % m, m);
    ModInvStep(a, m, e);
    if e.g == 1 then Some(e.s % m) else None
  }

  /** The residue that multiplies `a` to one is the one `ModInv` returns. */
  lemma ModInvUnique(a: int, m: nat, i: int)
    requires 0 <= i < m && Div(m, a * i - 1)
    ensures ModInv(a, m) == Some(i)
  {
    var j := ModInv(a, m).value;
    DivAdd(m, a * i - 1, a * j - 1);
    DivMul(m, a * i - a * j, i);
    DivMul(m, a * i - 1, i - j);
    assert i * (a * i - a * j) - (a * i - 1) * (i - j) == i - j;
    DivAdd(m, i * (a * i - a * j), (a * i - 1) * (i - j));
    ResiduesEqual(m, i, j);
  }

  lemma DivisorOfPrime(p: nat, g: nat)
    requires Prime(p) && g > 0 && p % g == 0
    ensures g == 1 || g == p
  {
    assert Div(g, p);
    MulBound(p / g, g);
  }

  /** Modulo a prime, exactly the multiples of the prime have no inverse. */
  lemma PrimeInverse(a: int, p: nat)
    requires Prime(p)
    ensures ModInv(a, p).None? <==> Div(p, a)
  {
    var e := ExtGcd(a % p, p);
    DivisorOfPrime(p, e.g);
    if Div(p, a) && ModInv(a, p).Some? {
      var i := ModInv(a, p).value;
      DivMul(p, a, i);
      DivAdd(p, a * i, a * i - 1);
    }
  }

  /** Euclid's lemma. */
  lemma EuclidsLemma(p: nat, a: int, b: int)
    requires Prime(p) && Div(p, a * b)
    ensures Div(p, a) || Div(p, b)
  {
    PrimeInverse(a, p);
    if !Div(p, a) {
      var i := ModInv(a, p).value;
      DivMul(p, a * b, i);
      DivMul(p, a * i - 1, b);
      assert (a * b) * i - (a * i - 1) * b == b;
      DivAdd(p, (a * b) * i, (a * i - 1) * b);
    }
  }
}
