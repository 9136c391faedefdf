/**
 The SPAKE2+ prover of the TMP client against the verifier of section 3.3 of
 RFC 9383, with the device's own key schedule. Hash, HKDF and HMAC are
 uninterpreted functions.
 */
module Spake2Plus {
  import opened Wrappers
  import opened ModArith
  import opened Groups
  import opened Curve
  import opened ScalarMul
  import opened ByteStrings

  type Pair = (int, int)

  /** The curve, its order and the points G, M and N, as parameters. */
  datatype Setting = Setting(c: Curve, n: Modulus, G: Pair, M: Pair, N: Pair)

  datatype Primitives = Primitives(sha256: Bytes -> Bytes, hkdf: Bytes -> Bytes, hmac: (Bytes, Bytes) -> Bytes)

  function Lift(q: Pair): Point {
    Affine(q.0, q.1)
  }

  ghost predicate AnnihilatedAt(c: Curve, n: nat, P: Point) {
    OnCurvePoint(c, P) ==> Times(c, n, P) == Infinity
  }

  /** The curve's group has odd prime order. */
  ghost predicate PrimeOrderCurve(c: Curve, n: nat) {
    ValidCurve(c) && Associative(c) && Prime(n) && n != 2 && forall P :: AnnihilatedAt(c, n, P)
  }

  ghost predicate ValidSetting(s: Setting) {
    && PrimeOrderCurve(s.c, s.n) && s.c.p <= Pow256(32) && s.n <= Pow256(32)
    && OnCurvePoint(s.c, Lift(s.G)) && OnCurvePoint(s.c, Lift(s.M)) && OnCurvePoint(s.c, Lift(s.N))
  }

  // ------------------------------------------------------------- encodings

  /** `_point_to_bytes` of a point whose coordinates fit in 32 bytes. */
  function PointBytes(q: Pair): Bytes
    requires q.0 >= 0 && q.1 >= 0
  {
    [4] + BigEndian(q.0, 32) + BigEndian(q.1, 32)
  }

  /** `_point_to_bytes`: a missing coordinate and one that does not fit both raise. */
  function EncodePoint(q: Option<Pair>): Result<Bytes> {
    if q.Some? && 0 <= q.value.0 < Pow256(32) && 0 <= q.value.1 < Pow256(32) then Ok(PointBytes(q.value))
    else Raised
  }

  /** The parsing of the answer (backend/tmp_client.py:385-390): the peer's share, or an exception for any other point format. */
  function ParseShare(b: Bytes): Result<Pair> {
    if |b| == 0 || b[0] != 4 then Raised
    else Ok((FromBigEndian(Slice(b, 1, 33)), FromBigEndian(Slice(b, 33, 65))))
  }

  lemma ShareRoundTrip(q: Pair)
    requires 0 <= q.0 < Pow256(32) && 0 <= q.1 < Pow256(32)
    ensures |PointBytes(q)| == 65 && ParseShare(PointBytes(q)) == Ok(q)
  {
    var b := PointBytes(q);
    assert b[1..33] == BigEndian(q.0, 32) && b[33..65] == BigEndian(q.1, 32);
    BigEndianRoundTrip(q.0, 32);
    BigEndianRoundTrip(q.1, 32);
  }

  /** The uncompressed form: a four, then both coordinates with their most significant byte first. */
  lemma PointLayout(q: Pair)
    requires 0 <= q.0 < Pow256(32) && 0 <= q.1 < Pow256(32)
    ensures var b := PointBytes(q);
            |b| == 65 && b[0] == 4 && FromBigEndian(b[1..33]) == q.0 && FromBigEndian(b[33..]) == q.1
  {
    var b := PointBytes(q);
    assert b[1..33] == BigEndian(q.0, 32) && b[33..] == BigEndian(q.1, 32);
    BigEndianRoundTrip(q.0, 32);
    BigEndianRoundTrip(q.1, 32);
  }

  /** `_len_prefix`: the length in eight little-endian bytes, then the data. */
  function LenPrefix(data: Bytes): Bytes {
    LittleEndian(|data|, 8) + data
  }

  /** Eight bytes of length, least significant first, then the data. */
  lemma LenPrefixLayout(data: Bytes, width: nat)
    requires |data| < Pow256(width) && width == 8
    ensures var b := LenPrefix(data);
            |b| == 8 + |data| && FromLittleEndian(b[..8]) == |data| && b[8..] == data
  {
    var length := LittleEndian(|data|, width);
    assert LenPrefix(data)[..8] == length && LenPrefix(data)[8..] == data;
    LittleEndianRoundTrip(|data|, width);
  }

  /** The transcript as the concatenation of its length-prefixed fields. */
  function Transcript(fields: seq<Bytes>): Bytes {
    if fields == [] then [] else LenPrefix(fields[0]) + Transcript(fields[1..])
  }

  const PAKE_LABEL: Bytes := [80, 65, 75, 69, 32, 86, 49]

  lemma LabelReads()
    ensures var text := "PAKE V1";
            |PAKE_LABEL| == |text| && forall i | 0 <= i < |text| :: PAKE_LABEL[i] == text[i] as int
  {
  }

  /** The public inputs of a run that both sides hold. */
  datatype Session = Session(userRandom: Bytes, devRandom: Bytes)

  /** The ten fields of the transcript, with both identities empty. */
  function Fields(session: Session, M: Bytes, N: Bytes, X: Bytes, Y: Bytes, Z: Bytes, V: Bytes, w0: Bytes): seq<Bytes> {
    [PAKE_LABEL + session.userRandom + session.devRandom, [], [], M, N, X, Y, Z, V, w0]
  }

  lemma {:induction false} TranscriptSnoc(fields: seq<Bytes>, field: Bytes, all: seq<Bytes>)
    requires all == fields + [field]
    ensures Transcript(all) == Transcript(fields) + LenPrefix(field)
  {
    if fields == [] {
      assert all[1..] == [] && LenPrefix(field) + [] == LenPrefix(field) && [] + LenPrefix(field) == LenPrefix(field);
    } else {
      TranscriptSnoc(fields[1..], field, all[1..]);
      ConcatAssociates(LenPrefix(fields[0]), Transcript(fields[1..]), LenPrefix(field));
    }
  }

  lemma TranscriptOfTen(a: Bytes, b: Bytes, c: Bytes, d: Bytes, e: Bytes, f: Bytes, g: Bytes, h: Bytes, i: Bytes, j: Bytes)
    ensures Transcript([a, b, c, d, e, f, g, h, i, j])
         == LenPrefix(a) + LenPrefix(b) + LenPrefix(c) + LenPrefix(d) + LenPrefix(e)
            + LenPrefix(f) + LenPrefix(g) + LenPrefix(h) + LenPrefix(i) + LenPrefix(j)
  {
    TranscriptSnoc([], a, [a]);
    assert Transcript([]) + LenPrefix(a) == LenPrefix(a);
    TranscriptSnoc([a], b, [a, b]);
    TranscriptSnoc([a, b], c, [a, b, c]);
    TranscriptSnoc([a, b, c], d, [a, b, c, d]);
    TranscriptSnoc([a, b, c, d], e, [a, b, c, d, e]);
    TranscriptSnoc([a, b, c, d, e], f, [a, b, c, d, e, f]);
    TranscriptSnoc([a, b, c, d, e, f], g, [a, b, c, d, e, f, g]);
    TranscriptSnoc([a, b, c, d, e, f, g], h, [a, b, c, d, e, f, g, h]);
    TranscriptSnoc([a, b, c, d, e, f, g, h], i, [a, b, c, d, e, f, g, h, i]);
    TranscriptSnoc([a, b, c, d, e, f, g, h, i], j, [a, b, c, d, e, f, g, h, i, j]);
  }

  /** The bytes of the transcript in the standard's order. */
  lemma TranscriptWritten(session: Session, M: Bytes, N: Bytes, X: Bytes, Y: Bytes, Z: Bytes, V: Bytes, w0: Bytes)
    ensures Transcript(Fields(session, M, N, X, Y, Z, V, w0))
         == LenPrefix(PAKE_LABEL + session.userRandom + session.devRandom) + LenPrefix([]) + LenPrefix([])
            + LenPrefix(M) + LenPrefix(N) + LenPrefix(X) + LenPrefix(Y) + LenPrefix(Z) + LenPrefix(V) + LenPrefix(w0)
  {
    TranscriptOfTen(PAKE_LABEL + session.userRandom + session.devRandom, [], [], M, N, X, Y, Z, V, w0);
  }

  /** The device's schedule: session key and the two confirmations. */
  datatype Keys = Keys(session: Bytes, confirmClient: Bytes, confirmServer: Bytes)

  function Schedule(f: Primitives, tt: Bytes, X: Bytes, Y: Bytes): Keys {
    var h := f.sha256(tt);
    var kc := f.hkdf(Slice(h, 0, 16));
    Keys(Slice(h, 16, |h|), f.hmac(Slice(kc, 0, 32), Y), f.hmac(Slice(kc, 32, 64), X))
  }

  /** The hash splits into Ka and Ke; Ka gives the two confirmation keys, the client's first; Ke is the session key. */
  lemma ScheduleMeaning(f: Primitives, tt: Bytes, X: Bytes, Y: Bytes, ka: Bytes, ke: Bytes, kcA: Bytes, kcB: Bytes)
    requires f.sha256(tt) == ka + ke && |ka| == 16
    requires f.hkdf(ka) == kcA + kcB && |kcA| == |kcB| == 32
    ensures Schedule(f, tt, X, Y) == Keys(ke, f.hmac(kcA, Y), f.hmac(kcB, X))
  {
    var h, kc := f.sha256(tt), f.hkdf(ka);
    assert Slice(h, 0, 16) == ka && (ke != [] ==> Slice(h, 16, |h|) == ke);
    assert Slice(kc, 0, 32) == kcA && Slice(kc, 32, 64) == kcB;
  }

  // ---------------------------------------------------------------- prover

  /** `_ec_add` on results of `_ec_mul`: a missing coordinate is a TypeError. */
  function AddCoordinates(c: Curve, a: Option<Pair>, b: Option<Pair>): Result<Pair> {
    if a.None? || b.None? then Raised else EcAdd(c, a.value.0, a.value.1, b.value.0, b.value.1)
  }

  /** The points `compute_share` obtains: X, Y - w0*N, Z and V. */
  datatype Shared = Shared(X: Pair, Yp: Pair, Z: Option<Pair>, V: Option<Pair>)

  /** X = x*G + w0*M. */
  function ProverShare(s: Setting, w0: nat, x: nat): Result<Pair> {
    var xG :- DoubleAndAdd(s.c, x, None, s.G);
    var w0M :- DoubleAndAdd(s.c, w0, None, s.M);
    AddCoordinates(s.c, xG, w0M)
  }

  /** Y - w0*N, and its multiples Z by x and V by w1. */
  function ProverSecrets(s: Setting, w0: nat, w1: nat, x: nat, Y: Pair): Result<(Pair, Option<Pair>, Option<Pair>)> {
    var w0N :- DoubleAndAdd(s.c, w0, None, s.N);
    var negated := if w0N.None? then None else Some((w0N.value.0, s.c.p - w0N.value.1));
    var Yp :- AddCoordinates(s.c, Some(Y), negated);
    var Z :- DoubleAndAdd(s.c, x, None, Yp);
    var V :- DoubleAndAdd(s.c, w1, None, Yp);
    Ok((Yp, Z, V))
  }

  function ProverPoints(s: Setting, w0: nat, w1: nat, x: nat, Y: Pair): Result<Shared> {
    var X :- ProverShare(s, w0, x);
    var r :- ProverSecrets(s, w0, w1, x, Y);
    Ok(Shared(X, r.0, r.1, r.2))
  }

  lemma SecretsInSteps(s: Setting, w0: nat, w1: nat, x: nat, Y: Pair, W: Pair, Yp: Result<Pair>, Z: Option<Pair>, V: Option<Pair>)
    requires DoubleAndAdd(s.c, w0, None, s.N) == Ok(Some(W)) && EcAdd(s.c, Y.0, Y.1, W.0, s.c.p - W.1) == Yp
    requires Yp.Ok? ==> DoubleAndAdd(s.c, x, None, Yp.value) == Ok(Z) && DoubleAndAdd(s.c, w1, None, Yp.value) == Ok(V)
    ensures ProverSecrets(s, w0, w1, x, Y) == if Yp.Ok? then Ok((Yp.value, Z, V)) else Raised
  {
  }

  method ComputeX(s: Setting, w0: nat, x: nat) returns (res: Result<Pair>)
    ensures res == ProverShare(s, w0, x)
  {
    var xG := EcMul(s.c, x, s.G.0, s.G.1);
    if xG.Raised? {
      return Raised;
    }
    var w0M := EcMul(s.c, w0, s.M.0, s.M.1);
    if w0M.Raised? {
      return Raised;
    }
    return AddCoordinates(s.c, xG.value, w0M.value);
  }

  method ComputeSecrets(s: Setting, w0: nat, w1: nat, x: nat, Y: Pair)
    returns (res: Result<(Pair, Option<Pair>, Option<Pair>)>)
    ensures res == ProverSecrets(s, w0, w1, x, Y)
  {
    var w0N := EcMul(s.c, w0, s.N.0, s.N.1);
    if w0N.Raised? || w0N.value.None? {
      return Raised;
    }
    var Yp := EcAdd(s.c, Y.0, Y.1, w0N.value.value.0, s.c.p - w0N.value.value.1);
    if Yp.Raised? {
      return Raised;
    }
    var Z := EcMul(s.c, x, Yp.value.0, Yp.value.1);
    if Z.Raised? {
      return Raised;
    }
    var V := EcMul(s.c, w1, Yp.value.0, Yp.value.1);
    if V.Raised? {
      return Raised;
    }
    return Ok((Yp.value, Z.value, V.value));
  }

  /** Any affine point of a curve of odd prime order has that order. */
  lemma EveryPointHasOrder(c: Curve, n: nat, P: Point)
    requires PrimeOrderCurve(c, n) && P.Affine? && OnCurvePoint(c, P)
    ensures OddOrderPoint(c, P, n)
  {
    CurveIsAbelian(c);
    assert AnnihilatedAt(c, n, P);
    PrimeOrder(CurveGroup(c), P, n);
    assert Div(2, n) <==> n % 2 == 0;
  }

  /** No multiple of a point is its own reflection, so `p - y` is the reflected ordinate. */
  lemma MultipleIsNotOwnReflection(c: Curve, n: nat, P: Point, k: nat)
    requires OddOrderPoint(c, P, n) && 0 < k < n
    ensures Times(c, k, P).Affine? && OnCurvePoint(c, Times(c, k, P)) && Times(c, k, P).y != 0
    ensures var W := Times(c, k, P); Negate(c, W) == Affine(W.x, c.p - W.y)
  {
    var W := Times(c, k, P);
    EcMulIsMultiple(c, P, n, k);
    SmallNotDivisible(n, k);
    OddDivisor(n, k);
    AddOrRaise(c, P, n, k, k);
    NegateReflects(c, W.x, W.y);
    AddIsIdentity(c, W, W);
  }

  /** `Y - w0*N` as the source computes it. */
  lemma SubtractMultiple(s: Setting, w0: nat, Y: Point)
    requires ValidSetting(s) && 0 < w0 < s.n && Y.Affine? && OnCurvePoint(s.c, Y)
    ensures Times(s.c, w0, Lift(s.N)).Affine?
    ensures var W := Times(s.c, w0, Lift(s.N));
            var D := Add(s.c, Y, Negate(s.c, W));
            && EcAdd(s.c, Y.x, Y.y, W.x, s.c.p - W.y) == (if D.Infinity? then Raised else Ok((D.x, D.y)))
            && (D == Infinity <==> Y == W) && OnCurvePoint(s.c, D)
  {
    var g, W := CurveGroup(s.c), Times(s.c, w0, Lift(s.N));
    EveryPointHasOrder(s.c, s.n, Lift(s.N));
    MultipleIsNotOwnReflection(s.c, s.n, Lift(s.N), w0);
    CurveIsAbelian(s.c);
    DifferenceIsIdentity(g, Y, W);
    assert g.op(Y, g.inv(W)) == Add(s.c, Y, Negate(s.c, W));
    assert NeutralAt(g, W) && ClosedAt(g, Y, g.inv(W));
  }

  ghost function ShareOf(s: Setting, k: nat, w0: nat, B: Pair): Point {
    Add(s.c, Times(s.c, k, Lift(s.G)), Times(s.c, w0, Lift(B)))
  }

  ghost predicate ProverCompletes(s: Setting, w0: nat, x: nat, Y: Point) {
    && x != 0 && w0 != 0
    && ShareOf(s, x, w0, s.M) != Infinity
    && Y != Times(s.c, w0, Lift(s.N))
  }

  /** The verifier's share with the mask taken off, Y - w0*N. */
  ghost function Unmasked(s: Setting, w0: nat, Y: Point): Point {
    Add(s.c, Y, Negate(s.c, Times(s.c, w0, Lift(s.N))))
  }

  lemma ProverShareMeaning(s: Setting, w0: nat, x: nat)
    requires ValidSetting(s) && w0 < s.n && x < s.n
    ensures ProverShare(s, w0, x).Ok? <==> x != 0 && w0 != 0 && ShareOf(s, x, w0, s.M) != Infinity
    ensures ProverShare(s, w0, x).Ok? ==> Lift(ProverShare(s, w0, x).value) == ShareOf(s, x, w0, s.M)
  {
    EveryPointHasOrder(s.c, s.n, Lift(s.G));
    EveryPointHasOrder(s.c, s.n, Lift(s.M));
    EcMulIsMultiple(s.c, Lift(s.G), s.n, x);
    EcMulIsMultiple(s.c, Lift(s.M), s.n, w0);
  }

  lemma MultiplesOf(s: Setting, D: Point, j: nat, k: nat)
    requires ValidSetting(s) && j < s.n && k < s.n && D.Affine? && OnCurvePoint(s.c, D)
    ensures DoubleAndAdd(s.c, j, None, (D.x, D.y)) == Ok(Coordinates(Times(s.c, j, D)))
    ensures DoubleAndAdd(s.c, k, None, (D.x, D.y)) == Ok(Coordinates(Times(s.c, k, D)))
    ensures OnCurvePoint(s.c, Times(s.c, j, D)) && OnCurvePoint(s.c, Times(s.c, k, D))
    ensures (Times(s.c, j, D) == Infinity <==> j == 0) && (Times(s.c, k, D) == Infinity <==> k == 0)
  {
    EveryPointHasOrder(s.c, s.n, D);
    EcMulIsMultiple(s.c, D, s.n, j);
    EcMulIsMultiple(s.c, D, s.n, k);
  }

  /** The prover's arithmetic for a mask other than the identity. */
  lemma MaskedSecrets(s: Setting, w0: nat, w1: nat, x: nat, Y: Point)
    requires ValidSetting(s) && 0 < w0 < s.n && w1 < s.n && x < s.n && Y.Affine? && OnCurvePoint(s.c, Y)
    ensures var D := Unmasked(s, w0, Y);
            ProverSecrets(s, w0, w1, x, (Y.x, Y.y)) ==
              if D.Infinity? then Raised
              else Ok(((D.x, D.y), Coordinates(Times(s.c, x, D)), Coordinates(Times(s.c, w1, D))))
  {
    EveryPointHasOrder(s.c, s.n, Lift(s.N));
    EcMulIsMultiple(s.c, Lift(s.N), s.n, w0);
    SubtractMultiple(s, w0, Y);
    var W, D := Times(s.c, w0, Lift(s.N)), Unmasked(s, w0, Y);
    if D.Affine? {
      MultiplesOf(s, D, x, w1);
    }
    SecretsInSteps(s, w0, w1, x, (Y.x, Y.y), (W.x, W.y), EcAdd(s.c, Y.x, Y.y, W.x, s.c.p - W.y),
                   Coordinates(Times(s.c, x, D)), Coordinates(Times(s.c, w1, D)));
  }

  lemma ProverSecretsMeaning(s: Setting, w0: nat, w1: nat, x: nat, Y: Point)
    requires ValidSetting(s) && w0 < s.n && w1 < s.n && x < s.n && Y.Affine? && OnCurvePoint(s.c, Y)
    ensures ProverSecrets(s, w0, w1, x, (Y.x, Y.y)).Ok? <==> w0 != 0 && Y != Times(s.c, w0, Lift(s.N))
    ensures w0 != 0 && Y != Times(s.c, w0, Lift(s.N)) ==>
              var D := Unmasked(s, w0, Y);
              D.Affine? && ProverSecrets(s, w0, w1, x, (Y.x, Y.y))
                == Ok(((D.x, D.y), Coordinates(Times(s.c, x, D)), Coordinates(Times(s.c, w1, D))))
  {
    if w0 == 0 {
      EveryPointHasOrder(s.c, s.n, Lift(s.N));
      EcMulIsMultiple(s.c, Lift(s.N), s.n, w0);
    } else {
      MaskedSecrets(s, w0, w1, x, Y);
      SubtractMultiple(s, w0, Y);
    }
  }

  /** What the prover's arithmetic yields for any valid peer share, and exactly when it raises. */
  lemma ProverPointsMeaning(s: Setting, w0: nat, w1: nat, x: nat, Y: Point)
    requires ValidSetting(s) && w0 < s.n && w1 < s.n && x < s.n && Y.Affine? && OnCurvePoint(s.c, Y)
    ensures ProverPoints(s, w0, w1, x, (Y.x, Y.y)).Ok? <==> ProverCompletes(s, w0, x, Y)
    ensures ProverCompletes(s, w0, x, Y) ==>
              var D := Unmasked(s, w0, Y);
              var r := ProverPoints(s, w0, w1, x, (Y.x, Y.y)).value;
              && Lift(r.X) == ShareOf(s, x, w0, s.M) && Lift(r.Yp) == D
              && r.Z == Coordinates(Times(s.c, x, D)) && r.V == Coordinates(Times(s.c, w1, D))
  {
    ProverShareMeaning(s, w0, x);
    ProverSecretsMeaning(s, w0, w1, x, Y);
  }

  /** Everything `compute_share` leaves behind. */
  datatype Share = Share(x: nat, X: Pair, message: Bytes, tt: Bytes, keys: Keys)

  /** A scalar from 32 bytes of key material or randomness. */
  function Scalar(n: Modulus, b: Bytes): nat {
    FromBigEndian(b) % n
  }

  /** The number in the bytes, most significant first, modulo the order. */
  lemma ScalarReads(n: Modulus, v: nat, width: nat)
    requires v < Pow256(width)
    ensures Scalar(n, BigEndian(v, width)) == v % n
  {
    BigEndianRoundTrip(v, width);
  }

  /** The end of `compute_share` (backend/tmp_client.py:403-464): the client's message, the transcript and the keys. */
  function Finish(s: Setting, f: Primitives, session: Session, devShare: Bytes,
                  w0: nat, X: Pair, Z: Option<Pair>, V: Option<Pair>): Result<(Bytes, Bytes, Keys)> {
    var Xb :- EncodePoint(Some(X));
    var Zb :- EncodePoint(Z);
    var Vb :- EncodePoint(V);
    var M :- EncodePoint(Some(s.M));
    var N :- EncodePoint(Some(s.N));
    var tt := Transcript(Fields(session, M, N, Xb, devShare, Zb, Vb, BigEndian(w0, 32)));
    Ok((Xb, tt, Schedule(f, tt, Xb, devShare)))
  }

  /** `compute_share`, with the PBKDF2 output `dk` and the random bytes as parameters. */
  function Prove(s: Setting, f: Primitives, session: Session, devShare: Bytes, dk: Bytes, random: Bytes): Result<Share> {
    var w0, w1, x := Scalar(s.n, Slice(dk, 0, 32)), Scalar(s.n, Slice(dk, 32, 64)), Scalar(s.n, random);
    var Y :- ParseShare(devShare);
    var r :- ProverPoints(s, w0, w1, x, Y);
    var (message, tt, keys) :- Finish(s, f, session, devShare, w0, r.X, r.Z, r.V);
    Ok(Share(x, r.X, message, tt, keys))
  }

  /**
   What any completed run leaves behind, whatever share it was given: the client's message is X, and the
   transcript lists the label with both nonces, two empty identities, M, N, X, the peer's share, Z, V and w0.
   */
  lemma CompletedRun(s: Setting, f: Primitives, session: Session, devShare: Bytes, dk: Bytes, random: Bytes)
    requires Prove(s, f, session, devShare, dk, random).Ok?
    ensures var w0, w1, x := Scalar(s.n, Slice(dk, 0, 32)), Scalar(s.n, Slice(dk, 32, 64)), Scalar(s.n, random);
            var share := Prove(s, f, session, devShare, dk, random).value;
            && ParseShare(devShare).Ok? && ProverPoints(s, w0, w1, x, ParseShare(devShare).value).Ok?
            && var r := ProverPoints(s, w0, w1, x, ParseShare(devShare).value).value;
               var X, Z, V, M, N := EncodePoint(Some(r.X)), EncodePoint(r.Z), EncodePoint(r.V), EncodePoint(Some(s.M)), EncodePoint(Some(s.N));
               && X.Ok? && Z.Ok? && V.Ok? && M.Ok? && N.Ok?
               && share.x == x && share.X == r.X && share.message == X.value
               && share.tt == LenPrefix(PAKE_LABEL + session.userRandom + session.devRandom) + LenPrefix([]) + LenPrefix([])
                              + LenPrefix(M.value) + LenPrefix(N.value) + LenPrefix(X.value) + LenPrefix(devShare)
                              + LenPrefix(Z.value) + LenPrefix(V.value) + LenPrefix(BigEndian(w0, 32))
               && share.keys == Schedule(f, share.tt, X.value, devShare)
  {
    var w0, w1, x := Scalar(s.n, Slice(dk, 0, 32)), Scalar(s.n, Slice(dk, 32, 64)), Scalar(s.n, random);
    var r := ProverPoints(s, w0, w1, x, ParseShare(devShare).value).value;
    var X, Z, V, M, N := EncodePoint(Some(r.X)), EncodePoint(r.Z), EncodePoint(r.V), EncodePoint(Some(s.M)), EncodePoint(Some(s.N));
    TranscriptWritten(session, M.value, N.value, X.value, devShare, Z.value, V.value, BigEndian(w0, 32));
  }

  /** An empty share or one of another point format makes `compute_share` raise. */
  lemma ForeignShareRaises(s: Setting, f: Primitives, session: Session, devShare: Bytes, dk: Bytes, random: Bytes)
    requires devShare == [] || devShare[0] != 4
    ensures Prove(s, f, session, devShare, dk, random) == Raised
  {
  }

  /** The `tt += _len_prefix(...)` sequence of statements. */
  method BuildTranscript(fields: seq<Bytes>) returns (tt: Bytes)
    ensures tt == Transcript(fields)
  {
    tt := [];
    for i := 0 to |fields|
      invariant tt + Transcript(fields[i..]) == Transcript(fields)
    {
      assert tt + (LenPrefix(fields[i]) + Transcript(fields[i + 1..])) == tt + LenPrefix(fields[i]) + Transcript(fields[i + 1..]);
      tt := tt + LenPrefix(fields[i]);
    }
  }

  method FinishShare(s: Setting, f: Primitives, session: Session, devShare: Bytes,
                     w0: nat, X: Pair, Z: Option<Pair>, V: Option<Pair>) returns (res: Result<(Bytes, Bytes, Keys)>)
    ensures res == Finish(s, f, session, devShare, w0, X, Z, V)
  {
    var Xb, Zb, Vb := EncodePoint(Some(X)), EncodePoint(Z), EncodePoint(V);
    var Mb, Nb := EncodePoint(Some(s.M)), EncodePoint(Some(s.N));
    if Xb.Raised? || Zb.Raised? || Vb.Raised? || Mb.Raised? || Nb.Raised? {
      return Raised;
    }
    var tt := BuildTranscript(Fields(session, Mb.value, Nb.value, Xb.value, devShare, Zb.value, Vb.value, BigEndian(w0, 32)));
    return Ok((Xb.value, tt, Schedule(f, tt, Xb.value, devShare)));
  }

  // -------------------------------------------------------------- verifier

  /** The verifier's share and the secrets it derives from the prover's share. */
  datatype Verifier = Verifier(Y: Point, Z: Point, V: Point)

  /** Section 3.3 of RFC 9383, for cofactor 1: L is the registered w1*G. */
  ghost function VerifierSide(s: Setting, w0: nat, L: Point, y: nat, X: Point): Verifier {
    var Xp := Add(s.c, X, Negate(s.c, Times(s.c, w0, Lift(s.M))));
    Verifier(ShareOf(s, y, w0, s.N), Times(s.c, y, Xp), Times(s.c, y, L))
  }

  /** The transcript of section 3.3 for affine shares and secrets, both identities empty. */
  ghost function VerifierTranscript(s: Setting, session: Session, w0: nat, X: Point, v: Verifier): Bytes
    requires X.Affine? && v.Y.Affine? && v.Z.Affine? && v.V.Affine?
    requires OnCurvePoint(s.c, X) && OnCurvePoint(s.c, v.Y) && OnCurvePoint(s.c, v.Z) && OnCurvePoint(s.c, v.V)
    requires OnCurvePoint(s.c, Lift(s.M)) && OnCurvePoint(s.c, Lift(s.N))
  {
    LenPrefix(PAKE_LABEL + session.userRandom + session.devRandom) + LenPrefix([]) + LenPrefix([])
    + LenPrefix(PointBytes(s.M)) + LenPrefix(PointBytes(s.N))
    + LenPrefix(PointBytes((X.x, X.y))) + LenPrefix(PointBytes((v.Y.x, v.Y.y)))
    + LenPrefix(PointBytes((v.Z.x, v.Z.y))) + LenPrefix(PointBytes((v.V.x, v.V.y))) + LenPrefix(BigEndian(w0, 32))
  }

  /** Masking and unmasking cancel, so both sides multiply out to the same secrets. */
  lemma SecretsAgree(s: Setting, w0: nat, w1: nat, x: nat, y: nat)
    requires ValidSetting(s) && w0 < s.n && w1 < s.n && x < s.n && y < s.n
    ensures var X, L := ShareOf(s, x, w0, s.M), Times(s.c, w1, Lift(s.G));
            var v := VerifierSide(s, w0, L, y, X);
            var D := Unmasked(s, w0, v.Y);
            && D == Times(s.c, y, Lift(s.G))
            && v.Z == Times(s.c, x, D) && v.V == Times(s.c, w1, D)
            && OnCurvePoint(s.c, X) && OnCurvePoint(s.c, v.Y)
  {
    var g, G := CurveGroup(s.c), Lift(s.G);
    CurveIsAbelian(s.c);
    MulClosed(g, x, G);
    MulClosed(g, y, G);
    MulClosed(g, w0, Lift(s.M));
    MulClosed(g, w0, Lift(s.N));
    Cancel(g, Times(s.c, x, G), Times(s.c, w0, Lift(s.M)));
    Cancel(g, Times(s.c, y, G), Times(s.c, w0, Lift(s.N)));
    MulSwap(g, x, y, G);
    MulSwap(g, w1, y, G);
    assert ClosedAt(g, Times(s.c, x, G), Times(s.c, w0, Lift(s.M)));
    assert ClosedAt(g, Times(s.c, y, G), Times(s.c, w0, Lift(s.N)));
  }

  /** Products of non-zero scalars do not reach the identity. */
  lemma SecretIsAffine(s: Setting, k: nat, y: nat)
    requires ValidSetting(s) && 0 < k < s.n && 0 < y < s.n
    ensures var D := Times(s.c, y, Lift(s.G));
            D.Affine? && OnCurvePoint(s.c, D) && Times(s.c, k, D).Affine? && OnCurvePoint(s.c, Times(s.c, k, D))
  {
    EveryPointHasOrder(s.c, s.n, Lift(s.G));
    EcMulIsMultiple(s.c, Lift(s.G), s.n, y);
    var D := Times(s.c, y, Lift(s.G));
    EveryPointHasOrder(s.c, s.n, D);
    EcMulIsMultiple(s.c, D, s.n, k);
  }

  lemma ShareOnCurve(s: Setting, x: nat, w0: nat)
    requires ValidSetting(s)
    ensures OnCurvePoint(s.c, ShareOf(s, x, w0, s.M))
  {
    var g := CurveGroup(s.c);
    CurveIsAbelian(s.c);
    MulClosed(g, x, Lift(s.G));
    MulClosed(g, w0, Lift(s.M));
    assert ClosedAt(g, Times(s.c, x, Lift(s.G)), Times(s.c, w0, Lift(s.M)));
  }

  lemma EncodeOnCurve(s: Setting, P: Point)
    requires ValidSetting(s) && P.Affine? && OnCurvePoint(s.c, P)
    ensures EncodePoint(Some((P.x, P.y))) == Ok(PointBytes((P.x, P.y)))
    ensures ParseShare(PointBytes((P.x, P.y))) == Ok((P.x, P.y))
  {
    ShareRoundTrip((P.x, P.y));
  }

  /**
   With non-zero scalars and shares other than the identity, the client completes, the two
   transcripts are the same bytes, and so are both sides' keys and confirmations.
   */
  lemma Agreement(s: Setting, f: Primitives, session: Session, dk: Bytes, random: Bytes, y: nat)
    requires ValidSetting(s) && 0 < y < s.n
    requires Scalar(s.n, Slice(dk, 0, 32)) > 0 && Scalar(s.n, Slice(dk, 32, 64)) > 0 && Scalar(s.n, random) > 0
    requires ShareOf(s, Scalar(s.n, random), Scalar(s.n, Slice(dk, 0, 32)), s.M).Affine?
    requires ShareOf(s, y, Scalar(s.n, Slice(dk, 0, 32)), s.N).Affine?
    ensures var w0, w1 := Scalar(s.n, Slice(dk, 0, 32)), Scalar(s.n, Slice(dk, 32, 64));
            var X := ShareOf(s, Scalar(s.n, random), w0, s.M);
            var v := VerifierSide(s, w0, Times(s.c, w1, Lift(s.G)), y, X);
            && v.Z.Affine? && v.V.Affine? && OnCurvePoint(s.c, v.Y) && OnCurvePoint(s.c, X)
            && OnCurvePoint(s.c, v.Z) && OnCurvePoint(s.c, v.V)
            && var Xb, Yb := PointBytes((X.x, X.y)), PointBytes((v.Y.x, v.Y.y));
               var Zb, Vb := PointBytes((v.Z.x, v.Z.y)), PointBytes((v.V.x, v.V.y));
               var tt := LenPrefix(PAKE_LABEL + session.userRandom + session.devRandom) + LenPrefix([]) + LenPrefix([])
                         + LenPrefix(PointBytes(s.M)) + LenPrefix(PointBytes(s.N)) + LenPrefix(Xb) + LenPrefix(Yb)
                         + LenPrefix(Zb) + LenPrefix(Vb) + LenPrefix(BigEndian(w0, 32));
               && tt == VerifierTranscript(s, session, w0, X, v)
               && Prove(s, f, session, Yb, dk, random)
                  == Ok(Share(Scalar(s.n, random), (X.x, X.y), Xb, tt, Schedule(f, tt, Xb, Yb)))
  {
    var w0, w1, x := Scalar(s.n, Slice(dk, 0, 32)), Scalar(s.n, Slice(dk, 32, 64)), Scalar(s.n, random);
    var X := ShareOf(s, x, w0, s.M);
    var v := VerifierSide(s, w0, Times(s.c, w1, Lift(s.G)), y, X);
    SecretsAgree(s, w0, w1, x, y);
    SecretIsAffine(s, x, y);
    SecretIsAffine(s, w1, y);
    SubtractMultiple(s, w0, v.Y);
    ProverPointsMeaning(s, w0, w1, x, v.Y);
    EncodeOnCurve(s, X);
    EncodeOnCurve(s, v.Y);
    EncodeOnCurve(s, v.Z);
    EncodeOnCurve(s, v.V);
    EncodeOnCurve(s, Lift(s.M));
    EncodeOnCurve(s, Lift(s.N));
    TranscriptWritten(session, PointBytes(s.M), PointBytes(s.N), PointBytes((X.x, X.y)), PointBytes((v.Y.x, v.Y.y)),
                      PointBytes((v.Z.x, v.Z.y)), PointBytes((v.V.x, v.V.y)), BigEndian(w0, 32));
  }

  /** For points of the curve, only the identity cannot be encoded. */
  lemma FinishCompletes(s: Setting, f: Primitives, session: Session, devShare: Bytes, w0: nat, X: Point, Z: Point, V: Point)
    requires ValidSetting(s) && X.Affine? && Z.Affine?
    requires OnCurvePoint(s.c, X) && OnCurvePoint(s.c, Z) && OnCurvePoint(s.c, V)
    ensures Finish(s, f, session, devShare, w0, (X.x, X.y), Coordinates(Z), Coordinates(V)).Ok? <==> V.Affine?
  {
    EncodeOnCurve(s, X);
    EncodeOnCurve(s, Z);
    EncodeOnCurve(s, Lift(s.M));
    EncodeOnCurve(s, Lift(s.N));
    if V.Affine? {
      EncodeOnCurve(s, V);
    }
  }

  /** For a valid peer share, the client raises exactly on a zero scalar or an exceptional sum. */
  lemma ProveCompletes(s: Setting, f: Primitives, session: Session, Y: Point, dk: Bytes, random: Bytes)
    requires ValidSetting(s) && Y.Affine? && OnCurvePoint(s.c, Y)
    ensures var w0, w1, x := Scalar(s.n, Slice(dk, 0, 32)), Scalar(s.n, Slice(dk, 32, 64)), Scalar(s.n, random);
            Prove(s, f, session, PointBytes((Y.x, Y.y)), dk, random).Ok?
            <==> w0 != 0 && w1 != 0 && x != 0 && ShareOf(s, x, w0, s.M) != Infinity && Y != Times(s.c, w0, Lift(s.N))
  {
    var w0, w1, x := Scalar(s.n, Slice(dk, 0, 32)), Scalar(s.n, Slice(dk, 32, 64)), Scalar(s.n, random);
    EncodeOnCurve(s, Y);
    ProverPointsMeaning(s, w0, w1, x, Y);
    if ProverCompletes(s, w0, x, Y) {
      var r := ProverPoints(s, w0, w1, x, (Y.x, Y.y)).value;
      SubtractMultiple(s, w0, Y);
      MultiplesOf(s, Unmasked(s, w0, Y), x, w1);
      ShareOnCurve(s, x, w0);
      FinishCompletes(s, f, session, PointBytes((Y.x, Y.y)), w0, Lift(r.X), Times(s.c, x, Unmasked(s, w0, Y)), Times(s.c, w1, Unmasked(s, w0, Y)));
    }
  }

  // ------------------------------------------------ unique decodability

  ghost predicate Prefixable(fields: seq<Bytes>) {
    forall b | b in fields :: |b| < Pow256(8)
  }

  lemma PrefixSplitsAt(a: Bytes, b: Bytes, s: Bytes, t: Bytes, width: nat)
    requires |a| < Pow256(width) && |b| < Pow256(width)
    requires LittleEndian(|a|, width) + (a + s) == LittleEndian(|b|, width) + (b + t)
    ensures a == b && s == t
  {
    SplitConcat(LittleEndian(|a|, width), a + s, LittleEndian(|b|, width), b + t);
    LittleEndianRoundTrip(|a|, width);
    LittleEndianRoundTrip(|b|, width);
    SplitConcat(a, s, b, t);
  }

  lemma PrefixSplits(a: Bytes, b: Bytes, s: Bytes, t: Bytes)
    requires |a| < Pow256(8) && |b| < Pow256(8) && LenPrefix(a) + s == LenPrefix(b) + t
    ensures a == b && s == t
  {
    ConcatAssociates(LittleEndian(|a|, 8), a, s);
    ConcatAssociates(LittleEndian(|b|, 8), b, t);
    PrefixSplitsAt(a, b, s, t, 8);
  }

  /** Equal transcripts come from equal field lists, whatever their lengths. */
  lemma {:induction false} TranscriptInjective(a: seq<Bytes>, b: seq<Bytes>)
    requires Prefixable(a) && Prefixable(b) && Transcript(a) == Transcript(b)
    ensures a == b
  {
    if a != [] && b != [] {
      PrefixSplits(a[0], b[0], Transcript(a[1..]), Transcript(b[1..]));
      TranscriptInjective(a[1..], b[1..]);
      assert a == [a[0]] + a[1..] && b == [b[0]] + b[1..];
    }
  }

  lemma PointBytesInjective(q: Pair, r: Pair)
    requires 0 <= q.0 < Pow256(32) && 0 <= q.1 < Pow256(32) && 0 <= r.0 < Pow256(32) && 0 <= r.1 < Pow256(32)
    requires PointBytes(q) == PointBytes(r)
    ensures q == r
  {
    ShareRoundTrip(q);
    ShareRoundTrip(r);
  }

  lemma EncodedSize(q: Option<Pair>)
    requires EncodePoint(q).Ok?
    ensures |EncodePoint(q).value| == 65
  {
    ShareRoundTrip(q.value);
  }

  lemma SmallerThanLengthField()
    ensures Pow256(8) == 0x1_0000_0000_0000_0000
  {
    assert Pow256(4) == 0x1_0000_0000;
    assert Pow256(6) == 0x1_0000_0000_0000;
  }

  lemma FieldsArePrefixable(a: Session, M: Bytes, N: Bytes, X: Pair, Y: Bytes, Z: Pair, V: Pair, w0: nat)
    requires |M| == 65 && |N| == 65 && |a.userRandom| == 32 && |a.devRandom| < Pow256(7) && |Y| < Pow256(7)
    requires EncodePoint(Some(X)).Ok? && EncodePoint(Some(Z)).Ok? && EncodePoint(Some(V)).Ok?
    ensures Prefixable(Fields(a, M, N, PointBytes(X), Y, PointBytes(Z), PointBytes(V), BigEndian(w0, 32)))
  {
    SmallerThanLengthField();
    assert Pow256(7) == 0x100_0000_0000_0000;
    EncodedSize(Some(X));
    EncodedSize(Some(Z));
    EncodedSize(Some(V));
  }

  /**
   Two transcripts of equal bytes bind the same nonces, shares, secrets and w0: nothing
   hashed into the session key can be read in two ways. The client draws 32 bytes of
   `user_random`; the device may send any number of bytes.
   */
  lemma TranscriptBinds(M: Bytes, N: Bytes, a: Session, b: Session,
                        X: Pair, Y: Bytes, Z: Pair, V: Pair, w0: nat,
                        X': Pair, Y': Bytes, Z': Pair, V': Pair, w0': nat)
    requires |M| == 65 && |N| == 65 && w0 < Pow256(32) && w0' < Pow256(32)
    requires |a.userRandom| == 32 && |b.userRandom| == 32
    requires |a.devRandom| < Pow256(7) && |b.devRandom| < Pow256(7) && |Y| < Pow256(7) && |Y'| < Pow256(7)
    requires EncodePoint(Some(X)).Ok? && EncodePoint(Some(Z)).Ok? && EncodePoint(Some(V)).Ok?
    requires EncodePoint(Some(X')).Ok? && EncodePoint(Some(Z')).Ok? && EncodePoint(Some(V')).Ok?
    requires Transcript(Fields(a, M, N, PointBytes(X), Y, PointBytes(Z), PointBytes(V), BigEndian(w0, 32)))
          == Transcript(Fields(b, M, N, PointBytes(X'), Y', PointBytes(Z'), PointBytes(V'), BigEndian(w0', 32)))
    ensures a == b && X == X' && Y == Y' && Z == Z' && V == V' && w0 == w0'
  {
    var fa := Fields(a, M, N, PointBytes(X), Y, PointBytes(Z), PointBytes(V), BigEndian(w0, 32));
    var fb := Fields(b, M, N, PointBytes(X'), Y', PointBytes(Z'), PointBytes(V'), BigEndian(w0', 32));
    SmallerThanLengthField();
    FieldsArePrefixable(a, M, N, X, Y, Z, V, w0);
    FieldsArePrefixable(b, M, N, X', Y', Z', V', w0');
    TranscriptInjective(fa, fb);
    assert fa[0] == fb[0] && fa[5] == fb[5] && fa[6] == fb[6] && fa[7] == fb[7] && fa[8] == fb[8] && fa[9] == fb[9];
    PointBytesInjective(X, X');
    PointBytesInjective(Z, Z');
    PointBytesInjective(V, V');
    BigEndianRoundTrip(w0, 32);
    BigEndianRoundTrip(w0', 32);
    SplitConcat(PAKE_LABEL + a.userRandom, a.devRandom, PAKE_LABEL + b.userRandom, b.devRandom);
    SplitConcat(PAKE_LABEL, a.userRandom, PAKE_LABEL, b.userRandom);
  }

  // ------------------------------------------------------ the client object

  class Client {
    const setting: Setting
    const primitives: Primitives
    const userRandom: Bytes
    var devRandom: Bytes
    var devShare: Bytes
    var x: Option<nat>
    var X: Option<Pair>
    var sessionKey: Option<Bytes>
    var expectedConfirm: Option<Bytes>

    constructor (setting: Setting, primitives: Primitives, userRandom: Bytes)
      ensures this.setting == setting && this.primitives == primitives && this.userRandom == userRandom
      ensures x == None && X == None && sessionKey == None && expectedConfirm == None
    {
      this.setting, this.primitives, this.userRandom := setting, primitives, userRandom;
      devRandom, devShare := [], [];
      x, X, sessionKey, expectedConfirm := None, None, None, None;
    }

    method ProcessRegisterResponse(devRandom: Bytes, devShare: Bytes)
      modifies this`devRandom, this`devShare
      ensures this.devRandom == devRandom && this.devShare == devShare
    {
      this.devRandom, this.devShare := devRandom, devShare;
    }

    /** The outcome `compute_share` should have on the current fields. */
    ghost function Expected(dk: Bytes, random: Bytes): Result<Share>
      reads this
    {
      Prove(setting, primitives, Session(userRandom, devRandom), devShare, dk, random)
    }

    /** `compute_share`: an exception leaves the session key and the expected confirmation as they were. */
    method ComputeShare(dk: Bytes, random: Bytes) returns (res: Result<(Bytes, Bytes)>)
      modifies this`x, this`X, this`sessionKey, this`expectedConfirm
      ensures res.Ok? <==> Expected(dk, random).Ok?
      ensures res.Ok? ==>
                var e := Expected(dk, random).value;
                && res.value == (e.message, e.keys.confirmClient)
                && x == Some(e.x) && X == Some(e.X)
                && sessionKey == Some(e.keys.session) && expectedConfirm == Some(e.keys.confirmServer)
      ensures res.Raised? ==> sessionKey == old(sessionKey) && expectedConfirm == old(expectedConfirm)
    {
      var s := setting;
      var w0, w1 := Scalar(s.n, Slice(dk, 0, 32)), Scalar(s.n, Slice(dk, 32, 64));
      var k := Scalar(s.n, random);
      x := Some(k);
      var share := ComputeX(s, w0, k);
      if share.Raised? {
        return Raised;
      }
      X := Some(share.value);
      var Y := ParseShare(devShare);
      if Y.Raised? {
        return Raised;
      }
      var secrets := ComputeSecrets(s, w0, w1, k, Y.value);
      if secrets.Raised? {
        return Raised;
      }
      var r := FinishShare(s, primitives, Session(userRandom, devRandom), devShare, w0, share.value, secrets.value.1, secrets.value.2);
      if r.Raised? {
        return Raised;
      }
      var keys := r.value.2;
      expectedConfirm := Some(keys.confirmServer);
      sessionKey := Some(keys.session);
      return Ok((r.value.0, keys.confirmClient));
    }

    /** `verify_share_response`: before a share was computed there is no such attribute. */
    method VerifyShareResponse(devConfirm: Bytes) returns (res: Result<bool>)
      ensures res == if expectedConfirm.None? then Raised else Ok(devConfirm == expectedConfirm.value)
    {
      if expectedConfirm.None? { return Raised; }
      return Ok(devConfirm == expectedConfirm.value);
    }
  }

  /** The scalars of a run and the shares they give are none of the exceptional ones. */
  ghost predicate Regular(s: Setting, dk: Bytes, random: Bytes, y: nat) {
    var w0, w1, x := Scalar(s.n, Slice(dk, 0, 32)), Scalar(s.n, Slice(dk, 32, 64)), Scalar(s.n, random);
    && ValidSetting(s) && 0 < y < s.n && w0 > 0 && w1 > 0 && x > 0
    && ShareOf(s, x, w0, s.M).Affine? && ShareOf(s, y, w0, s.N).Affine?
  }

  /** The keys a verifier with private scalar `y` derives from the client's share. */
  ghost function VerifierKeys(s: Setting, f: Primitives, session: Session, dk: Bytes, random: Bytes, y: nat): (Bytes, Keys)
    requires Regular(s, dk, random, y)
  {
    var w0, w1 := Scalar(s.n, Slice(dk, 0, 32)), Scalar(s.n, Slice(dk, 32, 64));
    var X := ShareOf(s, Scalar(s.n, random), w0, s.M);
    var v := VerifierSide(s, w0, Times(s.c, w1, Lift(s.G)), y, X);
    Agreement(s, f, session, dk, random, y);
    var Yb := PointBytes((v.Y.x, v.Y.y));
    (Yb, Schedule(f, VerifierTranscript(s, session, w0, X, v), PointBytes((X.x, X.y)), Yb))
  }

  /**
   `authenticate`, with the device's two answers as parameters and whether each carries an
   error code. Only success sets the flag; nothing here clears it.
   */
  method Authenticate(client: Client, was: bool, registerError: bool, devRandom: Bytes, devShare: Bytes,
                      shareError: bool, devConfirm: Bytes, dk: Bytes, random: Bytes, ghost y: nat)
    returns (res: Result<bool>, authenticated: bool)
    modifies client
    ensures authenticated <==> was || res == Ok(true)
    ensures registerError ==> res == Ok(false) && unchanged(client)
    ensures !registerError ==>
              match Prove(client.setting, client.primitives, Session(client.userRandom, devRandom), devShare, dk, random)
              case Raised => res == Raised && client.sessionKey == old(client.sessionKey)
              case Ok(share) =>
                && client.sessionKey == Some(share.keys.session)
                && res == Ok(!shareError && devConfirm == share.keys.confirmServer)
    ensures var session := Session(client.userRandom, devRandom);
            !registerError && Regular(client.setting, dk, random, y) ==>
              var v := VerifierKeys(client.setting, client.primitives, session, dk, random, y);
              devShare == v.0 ==>
                && res == Ok(!shareError && devConfirm == v.1.confirmServer)
                && client.sessionKey == Some(v.1.session)
  {
    authenticated := was;
    if registerError {
      return Ok(false), authenticated;
    }
    client.ProcessRegisterResponse(devRandom, devShare);
    ghost var s := client.setting;
    ghost var session := Session(client.userRandom, devRandom);
    if Regular(s, dk, random, y) {
      Agreement(s, client.primitives, session, dk, random, y);
    }
    var share := client.ComputeShare(dk, random);
    if share.Raised? {
      return Raised, authenticated;
    }
    if shareError {
      return Ok(false), authenticated;
    }
    res := client.VerifyShareResponse(devConfirm);
    authenticated := was || res == Ok(true);
  }
}
