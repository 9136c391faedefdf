/**
 Abelian groups given by their operations as function values, and scalar
 multiples in them. The curve's group is one instance.
 */
module Groups {
  import opened ModArith

  datatype Group<!E> = Group(id: E, op: (E, E) -> E, inv: E -> E, mem: E -> bool)

  ghost predicate ClosedAt<E>(g: Group<E>, x: E, y: E) {
    g.mem(x) && g.mem(y) ==> g.mem(g.op(x, y)) && g.op(x, y) == g.op(y, x)
  }

  ghost predicate AssocAt<E>(g: Group<E>, x: E, y: E, z: E) {
    g.mem(x) && g.mem(y) && g.mem(z) ==> g.op(g.op(x, y), z) == g.op(x, g.op(y, z))
  }

  ghost predicate NeutralAt<E>(g: Group<E>, x: E) {
    g.mem(x) ==> g.op(x, g.id) == x && g.mem(g.inv(x)) && g.op(x, g.inv(x)) == g.id
  }

  ghost predicate Abelian<E(!new)>(g: Group<E>) {
    && g.mem(g.id)
    && (forall x, y :: ClosedAt(g, x, y))
    && (forall x, y, z :: AssocAt(g, x, y, z))
    && (forall x :: NeutralAt(g, x))
  }

  /** Adding and then subtracting the same element changes nothing. */
  lemma Cancel<E(!new)>(g: Group<E>, a: E, b: E)
    requires Abelian(g) && g.mem(a) && g.mem(b)
    ensures g.op(g.op(a, b), g.inv(b)) == a
  {
    assert NeutralAt(g, a) && NeutralAt(g, b) && AssocAt(g, a, b, g.inv(b));
  }

  /** A difference is the identity exactly for equal elements. */
  lemma DifferenceIsIdentity<E(!new)>(g: Group<E>, a: E, b: E)
    requires Abelian(g) && g.mem(a) && g.mem(b)
    ensures g.op(a, g.inv(b)) == g.id <==> a == b
  {
    assert NeutralAt(g, a) && NeutralAt(g, b);
    assert AssocAt(g, a, g.inv(b), b) && ClosedAt(g, g.inv(b), b) && ClosedAt(g, g.id, b);
  }

  ghost function Mul<E>(g: Group<E>, k: nat, x: E): E {
    if k == 0 then g.id else g.op(x, Mul(g, k - 1, x))
  }

  lemma {:induction false} MulClosed<E(!new)>(g: Group<E>, k: nat, x: E)
    requires Abelian(g) && g.mem(x)
    ensures g.mem(Mul(g, k, x))
  {
    if k > 0 {
      MulClosed(g, k - 1, x);
      assert ClosedAt(g, x, Mul(g, k - 1, x));
    }
  }

  lemma MulOne<E(!new)>(g: Group<E>, x: E)
    requires Abelian(g) && g.mem(x)
    ensures Mul(g, 1, x) == x
  {
    assert NeutralAt(g, x);
    assert Mul(g, 0, x) == g.id;
  }

  lemma {:induction false} MulId<E(!new)>(g: Group<E>, k: nat)
    requires Abelian(g)
    ensures Mul(g, k, g.id) == g.id
  {
    if k > 0 {
      MulId(g, k - 1);
      assert NeutralAt(g, g.id);
    }
  }

  lemma {:induction false} MulAdd<E(!new)>(g: Group<E>, a: nat, b: nat, x: E)
    requires Abelian(g) && g.mem(x)
    ensures Mul(g, a + b, x) == g.op(Mul(g, a, x), Mul(g, b, x))
  {
    MulClosed(g, b, x);
    if a == 0 {
      assert NeutralAt(g, Mul(g, b, x)) && ClosedAt(g, g.id, Mul(g, b, x));
    } else {
      MulAdd(g, a - 1, b, x);
      MulClosed(g, a - 1, x);
      assert AssocAt(g, x, Mul(g, a - 1, x), Mul(g, b, x));
    }
  }

  lemma {:induction false} MulMul<E(!new)>(g: Group<E>, a: nat, b: nat, x: E)
    requires Abelian(g) && g.mem(x)
    ensures a * b >= 0 && Mul(g, a * b, x) == Mul(g, a, Mul(g, b, x))
  {
    if a > 0 {
      MulMul(g, a - 1, b, x);
      assert a * b == b + (a - 1) * b;
      MulAdd(g, b, (a - 1) * b, x);
    }
  }

  lemma MulSwap<E(!new)>(g: Group<E>, a: nat, b: nat, x: E)
    requires Abelian(g) && g.mem(x)
    ensures Mul(g, a, Mul(g, b, x)) == Mul(g, b, Mul(g, a, x))
  {
    MulMul(g, a, b, x);
    MulMul(g, b, a, x);
    assert a * b == b * a;
  }

  /** `n` is the least positive number of copies of `x` that add up to the identity. */
  ghost predicate HasOrder<E>(g: Group<E>, x: E, n: nat) {
    n > 0 && Mul(g, n, x) == g.id && forall m: nat :: 0 < m < n ==> Mul(g, m, x) != g.id
  }

  /** A multiple vanishes exactly when the order divides the scalar. */
  lemma OrderDivides<E(!new)>(g: Group<E>, x: E, n: nat, m: nat)
    requires Abelian(g) && g.mem(x) && HasOrder(g, x, n)
    ensures Mul(g, m, x) == g.id <==> Div(n, m)
  {
    var q, r := m / n, m % n;
    assert m == q * n + r;
    MulAdd(g, q * n, r, x);
    MulMul(g, q, n, x);
    MulId(g, q);
    MulClosed(g, r, x);
    assert NeutralAt(g, Mul(g, r, x)) && ClosedAt(g, g.id, Mul(g, r, x));
    assert Mul(g, m, x) == Mul(g, r, x);
  }

  /** Doubling never brings a scalar to a multiple of an odd number. */
  lemma OddDivisor(n: nat, t: nat)
    requires n % 2 == 1
    ensures Div(n, 2 * t) ==> Div(n, t)
  {
    if Div(n, 2 * t) {
      var k := 2 * t / n;
      assert 2 * t == k * n;
      assert k % 2 == 0 by {
        var h, j := k / 2, n / 2;
        assert k * n == 2 * (k * j) + 2 * h + k % 2 by {
          assert n == 2 * j + 1;
        }
      }
      assert t == (k / 2) * n by {
        assert 2 * ((k / 2) * n) == (2 * (k / 2)) * n;
      }
      DivIntro(n, t, k / 2);
    }
  }

  lemma InverseExists(m: nat, n: nat) returns (i: nat)
    requires Prime(n) && 0 < m < n
    ensures Div(n, m * i - 1)
  {
    PrimeInverse(m, n);
    if Div(n, m) {
      ResiduesEqual(n, m, 0);
    }
    i := ModInv(m, n).value;
  }

  lemma CongruentToOne(z: nat, n: nat) returns (k: nat)
    requires n >= 2 && Div(n, z - 1)
    ensures z == 1 + k * n
  {
    var q := (z - 1) / n;
    MulBound(q, n);
    k := q;
  }

  lemma NoSmallerMultiple<E(!new)>(g: Group<E>, x: E, n: nat, m: nat)
    requires Abelian(g) && g.mem(x) && Prime(n) && Mul(g, n, x) == g.id && 0 < m < n
    ensures Mul(g, m, x) == g.id ==> x == g.id
  {
    var i := InverseExists(m, n);
    assert i * m == m * i && i * m >= 0;
    var k := CongruentToOne(i * m, n);
    MulMul(g, i, m, x);
    MulMul(g, k, n, x);
    MulId(g, i);
    MulId(g, k);
    MulAdd(g, 1, k * n, x);
    MulOne(g, x);
    assert NeutralAt(g, x);
  }

  /** An element that a prime number of copies annihilates has that prime as its order. */
  lemma PrimeOrder<E(!new)>(g: Group<E>, x: E, n: nat)
    requires Abelian(g) && g.mem(x) && Prime(n) && Mul(g, n, x) == g.id && x != g.id
    ensures HasOrder(g, x, n)
  {
    forall m: nat | 0 < m < n
      ensures Mul(g, m, x) != g.id
    {
      NoSmallerMultiple(g, x, n, m);
    }
  }

  ghost predicate SumAt<E>(g: Group<E>, f: int -> E, n: nat, i: nat, j: nat)
    requires n > 0
  {
    i < n && j < n ==> g.op(f(i), f(j)) == f((i + j) % n)
  }

  ghost predicate IndexOf<E>(f: int -> E, n: nat, x: E, i: nat) {
    i < n && x == f(i)
  }

  /** The elements `f(0), ..., f(n - 1)` add like their indices modulo `n`. */
  ghost predicate IndexedBy<E(!new)>(g: Group<E>, f: int -> E, n: nat) {
    && n > 1 && f(0) == g.id
    && (forall i: nat, j: nat :: SumAt(g, f, n, i, j))
    && (forall i: nat | 0 < i < n :: f(i) != f(0))
    && (forall x | g.mem(x) :: exists i: nat :: IndexOf(f, n, x, i))
  }

  lemma ResiduesAssociate(i: nat, j: nat, k: nat, n: nat, u: int, v: int)
    requires n > 0 && Div(n, u - (i + j)) && Div(n, v - (j + k))
    ensures (u + k) % n == (i + v) % n
  {
    DivAdd(n, u - (i + j), v - (j + k));
    CongruentResidues(n, u + k, i + v);
  }

  lemma IndexSum(i: nat, j: nat, k: nat, n: nat)
    requires n > 0
    ensures 0 <= (i + j) % n < n && 0 <= (j + k) % n < n
    ensures ((i + j) % n + k) % n == (i + (j + k) % n) % n
  {
    ModIsCongruent(n, i + j);
    ModIsCongruent(n, j + k);
    ResiduesAssociate(i, j, k, n, (i + j) % n, (j + k) % n);
  }

  lemma IndexedAssociates<E(!new)>(g: Group<E>, f: int -> E, n: nat, x: E, y: E, z: E)
    requires IndexedBy(g, f, n)
    ensures AssocAt(g, x, y, z)
  {
    if g.mem(x) && g.mem(y) && g.mem(z) {
      var i: nat :| IndexOf(f, n, x, i);
      var j: nat :| IndexOf(f, n, y, j);
      var k: nat :| IndexOf(f, n, z, k);
      IndexSum(i, j, k, n);
      assert SumAt(g, f, n, i, j) && SumAt(g, f, n, j, k);
      assert SumAt(g, f, n, (i + j) % n, k) && SumAt(g, f, n, i, (j + k) % n);
    }
  }

  lemma QuotientAndRemainder(k: nat, t: nat, q: nat, r: nat)
    requires 0 <= r < t && k == q * t + r
    ensures k / t == q && k % t == r
  {
    DivIntro(t, k - r, q);
    ModIsCongruent(t, k);
    DivAdd(t, k - r, k - k % t);
    ResiduesEqual(t, k % t, r);
    assert (k / t - q) * t == 0;
    MulBound(k / t - q, t);
  }

  lemma {:induction false} IndexedMultiple<E(!new)>(g: Group<E>, f: int -> E, n: nat, m: nat)
    requires IndexedBy(g, f, n) && m < n
    ensures Mul(g, m, f(1)) == f(m)
  {
    if m > 0 {
      IndexedMultiple(g, f, n, m - 1);
      assert SumAt(g, f, n, 1, m - 1);
      QuotientAndRemainder(m, n, 0, m);
    }
  }

  lemma IndexedOrder<E(!new)>(g: Group<E>, f: int -> E, n: nat)
    requires IndexedBy(g, f, n)
    ensures HasOrder(g, f(1), n)
  {
    IndexedMultiple(g, f, n, n - 1);
    assert SumAt(g, f, n, 1, n - 1);
    QuotientAndRemainder(n, n, 1, 0);
    forall m: nat | 0 < m < n
      ensures Mul(g, m, f(1)) != g.id
    {
      IndexedMultiple(g, f, n, m);
    }
  }

  lemma IndexedAnnihilates<E(!new)>(g: Group<E>, f: int -> E, n: nat, x: E)
    requires Abelian(g) && IndexedBy(g, f, n) && g.mem(f(1)) && g.mem(x)
    ensures Mul(g, n, x) == g.id
  {
    var i: nat :| IndexOf(f, n, x, i);
    IndexedMultiple(g, f, n, i);
    IndexedOrder(g, f, n);
    MulSwap(g, n, i, f(1));
    MulId(g, i);
  }
}
