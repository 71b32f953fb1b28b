/** The four-fold ambiguity of an essential matrix and its resolution by the cheirality vote. */
module TwistedPair {
  import opened Geometry
  import opened Cheirality
  import opened CheiralityLaws

  // ------------------------------------------------------------------- half turns about an axis

  function HalfTurn(t: Vec3, v: Vec3): Vec3 {
    Sub(Scale(2.0 * Dot(t, v), t), v)
  }

  /** The rotation followed by a half turn about the translation. */
  function Twist(r: Mat, t: Vec3): Mat {
    Mat(HalfTurn(t, r.c0), HalfTurn(t, r.c1), HalfTurn(t, r.c2))
  }

  predicate UnitLength(t: Vec3) {
    Dot(t, t) == 1.0
  }

  lemma DotSub(u: Vec3, a: Vec3, b: Vec3)
    ensures Dot(u, Sub(a, b)) == Dot(u, a) - Dot(u, b)
  {
  }

  lemma DotHalfTurn(u: Vec3, t: Vec3, v: Vec3)
    ensures Dot(u, HalfTurn(t, v)) == 2.0 * Dot(t, v) * Dot(u, t) - Dot(u, v)
  {
    DotSub(u, Scale(2.0 * Dot(t, v), t), v);
    DotScale(u, 2.0 * Dot(t, v), t);
  }

  lemma AxisStays(t: Vec3, v: Vec3)
    requires UnitLength(t)
    ensures Dot(t, HalfTurn(t, v)) == Dot(t, v)
  {
    DotHalfTurn(t, t, v);
  }

  lemma HalfTurnDots(t: Vec3, a: Vec3, b: Vec3)
    requires UnitLength(t)
    ensures Dot(HalfTurn(t, a), HalfTurn(t, b)) == Dot(a, b)
  {
    var u := HalfTurn(t, a);
    DotHalfTurn(u, t, b);
    AxisStays(t, a);
    DotSymmetric(u, t);
    DotSymmetric(u, b);
    DotHalfTurn(b, t, a);
    DotSymmetric(b, t);
    DotSymmetric(a, b);
  }

  lemma HalfTurnTwice(t: Vec3, v: Vec3)
    requires UnitLength(t)
    ensures HalfTurn(t, HalfTurn(t, v)) == v
  {
    AxisStays(t, v);
  }

  lemma OppositeAxis(t: Vec3, v: Vec3)
    ensures HalfTurn(Neg(t), v) == HalfTurn(t, v)
  {
    DotSymmetric(Neg(t), v);
    DotNeg(v, t);
    DotSymmetric(v, t);
    OppositeTerms(2.0 * Dot(t, v), t);
  }

  lemma OppositeTerms(k: real, t: Vec3)
    ensures Scale(-k, Neg(t)) == Scale(k, t)
  {
  }

  lemma TwistOrthonormal(r: Mat, t: Vec3)
    requires Orthonormal(r) && UnitLength(t)
    ensures Orthonormal(Twist(r, t))
  {
    HalfTurnDots(t, r.c0, r.c0);
    HalfTurnDots(t, r.c1, r.c1);
    HalfTurnDots(t, r.c2, r.c2);
    HalfTurnDots(t, r.c0, r.c1);
    HalfTurnDots(t, r.c0, r.c2);
    HalfTurnDots(t, r.c1, r.c2);
  }

  lemma TwistTwice(r: Mat, t: Vec3)
    requires UnitLength(t)
    ensures Twist(Twist(r, t), t) == r
  {
    HalfTurnTwice(t, r.c0);
    HalfTurnTwice(t, r.c1);
    HalfTurnTwice(t, r.c2);
  }

  lemma TwistOpposite(r: Mat, t: Vec3)
    ensures Twist(r, Neg(t)) == Twist(r, t)
  {
    OppositeAxis(t, r.c0);
    OppositeAxis(t, r.c1);
    OppositeAxis(t, r.c2);
  }

  lemma HalfTurnAdd(t: Vec3, a: Vec3, b: Vec3)
    ensures HalfTurn(t, Add(a, b)) == Add(HalfTurn(t, a), HalfTurn(t, b))
  {
    DotAdd(t, a, b);
    ScaleSum(2.0 * Dot(t, a), 2.0 * Dot(t, b), t);
  }

  lemma ScaleSum(k: real, l: real, t: Vec3)
    ensures Scale(k + l, t) == Add(Scale(k, t), Scale(l, t))
  {
  }

  lemma ScaleScale(k: real, l: real, t: Vec3)
    ensures Scale(k, Scale(l, t)) == Scale(k * l, t)
  {
  }

  lemma ScaleSub(k: real, a: Vec3, b: Vec3)
    ensures Scale(k, Sub(a, b)) == Sub(Scale(k, a), Scale(k, b))
  {
  }

  lemma HalfTurnScale(t: Vec3, k: real, a: Vec3)
    ensures HalfTurn(t, Scale(k, a)) == Scale(k, HalfTurn(t, a))
  {
    var e := 2.0 * Dot(t, a);
    DotScale(t, k, a);
    HalfTurnBy(t, Scale(k, a), k * e);
    ScaleSub(k, Scale(e, t), a);
    ScaleScale(k, e, t);
  }

  lemma HalfTurnBy(t: Vec3, v: Vec3, e: real)
    requires e == 2.0 * Dot(t, v)
    ensures HalfTurn(t, v) == Sub(Scale(e, t), v)
  {
  }

  /** Twisting the rotation turns what it maps to. */
  lemma ApplyTwist(r: Mat, t: Vec3, v: Vec3)
    ensures Apply(Twist(r, t), v) == HalfTurn(t, Apply(r, v))
  {
    var p, q, s := Scale(v.x, r.c0), Scale(v.y, r.c1), Scale(v.z, r.c2);
    HalfTurnAdd(t, Add(p, q), s);
    HalfTurnAdd(t, p, q);
    HalfTurnScale(t, v.x, r.c0);
    HalfTurnScale(t, v.y, r.c1);
    HalfTurnScale(t, v.z, r.c2);
  }

  // --------------------------------------------------------------------- the twisted candidate

  lemma TurnedComponent(g: real, n: real, d: real, e: real, t: real, y: real, h: real)
    requires e == 2.0 * d && g + 2.0 * (g * d) == 1.0 && n == -g && h == e * t - y
    ensures n * h + t == g * (y + t)
  {
    assert g * (e * t) == (2.0 * (g * d)) * t;
    assert g * t + (2.0 * (g * d)) * t == t;
  }

  /** The components of the two sides, from those of the turned vector. */
  lemma TurnedTerms(t: Vec3, y: Vec3, g: real, n: real, h: Vec3, s: Vec3)
    requires s == Scale(n, h)
    requires n * h.x + t.x == g * (y.x + t.x) && n * h.y + t.y == g * (y.y + t.y) && n * h.z + t.z == g * (y.z + t.z)
    ensures Add(s, t) == Scale(g, Add(y, t))
  {
    ScaleTerms(n, h);
    ScaleTerms(g, Add(y, t));
  }

  lemma TurnedTwice(t: Vec3, y: Vec3, d: real, e: real) returns (h: Vec3)
    requires d == Dot(t, y) && e == 2.0 * d
    ensures h == HalfTurn(t, y) && h.x == e * t.x - y.x && h.y == e * t.y - y.y && h.z == e * t.z - y.z
  {
    HalfTurnBy(t, y, e);
    ScaleTerms(e, t);
    h := HalfTurn(t, y);
  }

  lemma Turned(t: Vec3, y: Vec3, g: real, n: real, d: real)
    requires d == Dot(t, y) && g + 2.0 * (g * d) == 1.0 && n == -g
    ensures Add(Scale(n, HalfTurn(t, y)), t) == Scale(g, Add(y, t))
  {
    var e := 2.0 * d;
    var h := TurnedTwice(t, y, d, e);
    TurnedComponent(g, n, d, e, t.x, y.x, h.x);
    TurnedComponent(g, n, d, e, t.y, y.y, h.y);
    TurnedComponent(g, n, d, e, t.z, y.z, h.z);
    TurnedTerms(t, y, g, n, h, Scale(n, h));
  }

  /** Where the twisted candidate's rays meet, if they are not parallel. */
  lemma TwistedMeets(r: Mat, t: Vec3, rs: Vec3, rt: Vec3, a: real, b: real, g: real, e: real, n: real, na: real,
                     gb: real)
    requires Meets(r, t, rs, rt, a, b) && e == Dot(t, Apply(r, Scale(a, rs))) && g + 2.0 * (g * e) == 1.0
    requires n == -g && na == n * a && gb == g * b
    ensures Meets(Twist(r, t), t, rs, rt, na, gb)
  {
    Turned(t, Apply(r, Scale(a, rs)), g, n, e);
    TwistedAt(r, t, rs, a, n, na);
    ScaleScale(g, b, rt);
  }

  lemma TwistedAt(r: Mat, t: Vec3, rs: Vec3, a: real, n: real, na: real)
    requires na == n * a
    ensures Apply(Twist(r, t), Scale(na, rs)) == Scale(n, HalfTurn(t, Apply(r, Scale(a, rs))))
  {
    ScaleScale(n, a, rs);
    ApplyScale(Twist(r, t), n, Scale(a, rs));
    ApplyTwist(r, t, Scale(a, rs));
  }

  lemma TurnedBack(t: Vec3, y: Vec3)
    requires 1.0 + 2.0 * Dot(t, y) == 0.0
    ensures HalfTurn(t, y) == Neg(Add(y, t))
  {
    var k := 2.0 * Dot(t, y);
    assert k == -1.0;
  }

  lemma NegScale(k: real, v: Vec3)
    ensures Neg(Scale(k, v)) == Scale(-k, v)
  {
  }

  lemma ParallelGram(a: real, z: real, u: Vec3, v: Vec3)
    requires Scale(a, u) == Scale(z, v) && a != 0.0
    ensures Gram(Dot(u, u), -Dot(u, v), Dot(v, v)) == 0.0
  {
    DotScale(u, a, u);
    DotScale(u, z, v);
    DotScale(v, a, u);
    DotScale(v, z, v);
    DotSymmetric(u, v);
    ParallelProducts(a, z, Dot(u, u), Dot(u, v), Dot(v, v));
  }

  lemma ParallelProducts(a: real, z: real, uu: real, uv: real, vv: real)
    requires a * uu == z * uv && a * uv == z * vv && a != 0.0
    ensures Gram(uu, -uv, vv) == 0.0
  {
    assert a * (uu * vv) == (z * uv) * vv;
    assert a * (uv * uv) == (z * vv) * uv;
    ZeroFactor(a, uu * vv - uv * uv);
  }

  lemma ZeroFactor(a: real, x: real)
    requires a * x == 0.0 && a != 0.0
    ensures x == 0.0
  {
  }

  lemma TwistedBack(r: Mat, t: Vec3, rs: Vec3, rt: Vec3, a: real, b: real)
    requires Meets(r, t, rs, rt, a, b) && 1.0 + 2.0 * Dot(t, Apply(r, Scale(a, rs))) == 0.0
    ensures Apply(Twist(r, t), Scale(a, rs)) == Scale(-b, rt)
  {
    TurnedBack(t, Apply(r, Scale(a, rs)));
    NegScale(b, rt);
    ApplyTwist(r, t, Scale(a, rs));
  }

  lemma SameDirection(w: Mat, rs: Vec3, rt: Vec3, a: real, z: real)
    requires Orthonormal(w) && Apply(w, Scale(a, rs)) == Scale(z, rt) && a != 0.0
    ensures Degenerate(w, rs, rt)
  {
    TransposedInverts(w, Scale(a, rs));
    TransposedScale(w, z, rt);
    ParallelGram(a, z, rs, ApplyTransposed(w, rt));
  }

  /** Otherwise the twisted candidate sees them parallel. */
  lemma TwistedParallel(r: Mat, t: Vec3, rs: Vec3, rt: Vec3, a: real, b: real)
    requires Orthonormal(r) && UnitLength(t) && Meets(r, t, rs, rt, a, b) && a != 0.0
    requires 1.0 + 2.0 * Dot(t, Apply(r, Scale(a, rs))) == 0.0
    ensures Degenerate(Twist(r, t), rs, rt)
  {
    TwistedBack(r, t, rs, rt, a, b);
    TwistOrthonormal(r, t);
    SameDirection(Twist(r, t), rs, rt, a, -b);
  }

  /** A ray pair of a point in front of both cameras of the candidate, at depths far enough from
      parallel. */
  predicate SeenAt(c: Candidate, rs: Vec3, rt: Vec3, a: real, b: real) {
    Meets(c.r, c.t, rs, rt, a, b) && a * rs.z > 0.0 && b * rt.z > 0.0 && !Degenerate(c.r, rs, rt)
  }

  predicate Pose(c: Candidate) {
    Orthonormal(c.r) && UnitLength(c.t)
  }

  lemma TwistedSigns(g: real, a: real, b: real, zs: real, zt: real, na: real, gb: real)
    requires a * zs > 0.0 && b * zt > 0.0 && na == -g * a && gb == g * b
    ensures !(na * zs > 0.0 && gb * zt > 0.0) && !(-(na * zs) > 0.0 && -(gb * zt) > 0.0)
  {
    var p, q := a * zs, b * zt;
    assert na * zs == -g * p && gb * zt == g * q;
    OppositeSigns(g, p, q);
  }

  lemma OppositeSigns(g: real, p: real, q: real)
    requires p > 0.0 && q > 0.0
    ensures !(-g * p > 0.0 && g * q > 0.0) && !(-(-g * p) > 0.0 && -(g * q) > 0.0)
  {
    if g > 0.0 {
      assert g * p > 0.0 && g * q > 0.0;
    } else {
      assert -g * p >= 0.0 && -g * q >= 0.0;
    }
  }

  /** A point seen by both cameras of a candidate is behind one of the twisted candidate's,
      with either translation. */
  lemma TwistedSplits(c: Candidate, rs: Vec3, rt: Vec3, a: real, b: real)
    requires Pose(c) && SeenAt(c, rs, rt, a, b)
    ensures !Favours(TriangulateUnitRays(rs, rt, Twist(c.r, c.t), c.t))
    ensures !Favours(TriangulateUnitRays(rs, rt, Twist(c.r, c.t), Neg(c.t)))
  {
    var w := Twist(c.r, c.t);
    var e := Dot(c.t, Apply(c.r, Scale(a, rs)));
    var d := 1.0 + 2.0 * e;
    FlipNegatesDepths(rs, rt, w, c.t);
    if !Degenerate(w, rs, rt) {
      NotZero(a, rs.z);
      if d == 0.0 {
        TwistedParallel(c.r, c.t, rs, rt, a, b);
      } else {
        var g := Inverted(d, e);
        var na, gb := -g * a, g * b;
        TwistedMeets(c.r, c.t, rs, rt, a, b, g, e, -g, na, gb);
        TwistOrthonormal(c.r, c.t);
        ExactDepths(w, c.t, rs, rt, na, gb);
        TwistedSigns(g, a, b, rs.z, rt.z, na, gb);
      }
    }
  }

  lemma NotZero(a: real, z: real)
    requires a * z > 0.0
    ensures a != 0.0
  {
  }

  lemma Inverted(d: real, e: real) returns (g: real)
    requires d == 1.0 + 2.0 * e && d != 0.0
    ensures g + 2.0 * (g * e) == 1.0
  {
    g := 1.0 / d;
    assert g * d == 1.0;
  }

  /** It votes for its candidate. */
  lemma SeenFavours(c: Candidate, rs: Vec3, rt: Vec3, a: real, b: real)
    requires Pose(c) && SeenAt(c, rs, rt, a, b)
    ensures Favours(TriangulateUnitRays(rs, rt, c.r, c.t))
    ensures !Favours(TriangulateUnitRays(rs, rt, c.r, Neg(c.t)))
  {
    ExactDepths(c.r, c.t, rs, rt, a, b);
    FlipNegatesDepths(rs, rt, c.r, c.t);
  }

  // ------------------------------------------------------------------------- the four candidates

  /** The shape of an essential matrix's decomposition. */
  predicate Decomposed(d: Decomposition) {
    Orthonormal(d.r1) && UnitLength(d.t) && d.r2 == Twist(d.r1, d.t)
  }

  lemma NegUnit(t: Vec3)
    requires UnitLength(t)
    ensures UnitLength(Neg(t)) && Neg(Neg(t)) == t
  {
  }

  lemma CandidatePose(d: Decomposition, k: int)
    requires Decomposed(d) && 0 <= k < 4
    ensures Pose(CandidateAt(d, k))
  {
    NegUnit(d.t);
    TwistOrthonormal(d.r1, d.t);
  }

  /** The other candidates negate the translation, twist the rotation, or do both. */
  lemma OtherCandidates(d: Decomposition, k: int, j: int)
    requires Decomposed(d) && 0 <= k < 4 && 0 <= j < 4 && j != k
    ensures var c, e := CandidateAt(d, k), CandidateAt(d, j);
            || e == Candidate(c.r, Neg(c.t))
            || e == Candidate(Twist(c.r, c.t), c.t)
            || e == Candidate(Twist(c.r, c.t), Neg(c.t))
  {
    NegUnit(d.t);
    TwistTwice(d.r1, d.t);
    TwistOpposite(d.r1, d.t);
    TwistOpposite(d.r2, d.t);
  }

  ghost predicate Exact(m: Rays, c: Candidate, i: int)
    requires Valid(m)
  {
    IsInlier(m, i) && exists a, b :: SeenAt(c, m.source[i], m.target[i], a, b)
  }

  /** An exact inlier votes for its candidate and for no other. */
  lemma ExactVotesOnce(d: Decomposition, m: Rays, k: int, j: int, i: int)
    requires Valid(m) && Decomposed(d) && 0 <= k < 4 && 0 <= j < 4 && Exact(m, CandidateAt(d, k), i)
    ensures VotesFor(m, CandidateAt(d, j), i) <==> j == k
  {
    var c := CandidateAt(d, k);
    var a, b :| SeenAt(c, m.source[i], m.target[i], a, b);
    CandidatePose(d, k);
    SeenFavours(c, m.source[i], m.target[i], a, b);
    if j != k {
      TwistedSplits(c, m.source[i], m.target[i], a, b);
      OtherCandidates(d, k, j);
    }
  }

  /** If more than half of the inliers are exact for one of the candidates, the vote succeeds
      with that candidate, whatever the other inliers are. */
  lemma ExactMajorityWins(d: Decomposition, m: Rays, k: int)
    requires Valid(m) && Decomposed(d) && 0 <= k < 4
    requires Count(i => Exact(m, CandidateAt(d, k), i), |m.inlier|) * 2 > Inliers(m)
    ensures Wins(d, m, k) && forall j :: Wins(d, m, j) ==> j == k
  {
    var c, n := CandidateAt(d, k), |m.inlier|;
    var exact := i => Exact(m, c, i);
    forall i | 0 <= i < n && exact(i)
      ensures VotesFor(m, c, i)
    {
      ExactVotesOnce(d, m, k, k, i);
    }
    CountWithin(exact, i => VotesFor(m, c, i), n);
    forall j | 0 <= j < 4 && j != k
      ensures Votes(m, CandidateAt(d, j)) < Votes(m, c)
    {
      forall i | 0 <= i < n && exact(i)
        ensures !VotesFor(m, CandidateAt(d, j), i)
      {
        ExactVotesOnce(d, m, k, j, i);
      }
      CountDisjoint(exact, i => VotesFor(m, CandidateAt(d, j), i), i => IsInlier(m, i), n);
    }
  }

  // --------------------------------------------------------- the decomposition has this shape

  /** A column of U W V^T, with row the matching row of V and W the quarter turn about z; the
      second rotation takes W transposed. */
  function Column(u: Mat, s: real, turn: real, row: Vec3): Vec3 {
    Scale(s, Add(Scale(turn, Sub(Scale(row.x, u.c1), Scale(row.y, u.c0))), Scale(row.z, u.c2)))
  }

  function Rotation(u: Mat, s: real, turn: real, v: Mat): Mat {
    var rows := Transposed(v);
    Mat(Column(u, s, turn, rows.c0), Column(u, s, turn, rows.c1), Column(u, s, turn, rows.c2))
  }

  /** The two rotations an essential matrix with singular vectors U and V decomposes into, with
      the sign s that makes them proper, and the third left singular vector. */
  function DecompositionOf(u: Mat, s: real, v: Mat): Decomposition {
    Decomposition(Rotation(u, s, 1.0, v), Rotation(u, s, -1.0, v), u.c2)
  }

  lemma DotScaleAs(w: Vec3, k: real, v: Vec3, d: real)
    requires d == Dot(w, v)
    ensures Dot(w, Scale(k, v)) == k * d
  {
    DotScale(w, k, v);
  }

  /** A dot product with a column of the first rotation, from those with the columns of U. */
  lemma DotColumn(w: Vec3, u: Mat, s: real, row: Vec3, d0: real, d1: real, d2: real) returns (r: real)
    requires d0 == Dot(w, u.c0) && d1 == Dot(w, u.c1) && d2 == Dot(w, u.c2)
    ensures r == Dot(w, Column(u, s, 1.0, row)) && r == s * (row.x * d1 - row.y * d0 + row.z * d2)
  {
    var p, q, n := Scale(row.x, u.c1), Scale(row.y, u.c0), Scale(row.z, u.c2);
    var m := Scale(1.0, Sub(p, q));
    assert m == Sub(p, q);
    DotScaleAs(w, row.x, u.c1, d1);
    DotScaleAs(w, row.y, u.c0, d0);
    DotScaleAs(w, row.z, u.c2, d2);
    DotSub(w, p, q);
    DotAdd(w, m, n);
    DotScaleAs(w, s, Add(m, n), row.x * d1 - row.y * d0 + row.z * d2);
    r := Dot(w, Column(u, s, 1.0, row));
  }

  lemma ColumnAgainst(u: Mat, s: real, row: Vec3)
    requires Orthonormal(u)
    ensures var w := Column(u, s, 1.0, row);
            Dot(w, u.c0) == -(s * row.y) && Dot(w, u.c1) == s * row.x && Dot(w, u.c2) == s * row.z
  {
    var w := Column(u, s, 1.0, row);
    DotSymmetric(w, u.c0);
    DotSymmetric(w, u.c1);
    DotSymmetric(w, u.c2);
    DotSymmetric(u.c0, u.c1);
    DotSymmetric(u.c0, u.c2);
    DotSymmetric(u.c1, u.c2);
    var r0 := DotColumn(u.c0, u, s, row, 1.0, 0.0, 0.0);
    var r1 := DotColumn(u.c1, u, s, row, 0.0, 1.0, 0.0);
    var r2 := DotColumn(u.c2, u, s, row, 0.0, 0.0, 1.0);
  }

  lemma ColumnDots(u: Mat, s: real, row: Vec3, other: Vec3)
    requires Orthonormal(u) && s * s == 1.0
    ensures Dot(Column(u, s, 1.0, row), Column(u, s, 1.0, other)) == Dot(row, other)
  {
    var w := Column(u, s, 1.0, row);
    var p0, p1, p2 := Dot(w, u.c0), Dot(w, u.c1), Dot(w, u.c2);
    ColumnAgainst(u, s, row);
    var r := DotColumn(w, u, s, other, p0, p1, p2);
    SignedDot(s, row, other, p0, p1, p2, r);
  }

  lemma SignedDot(s: real, row: Vec3, other: Vec3, p0: real, p1: real, p2: real, r: real)
    requires s * s == 1.0 && p0 == -(s * row.y) && p1 == s * row.x && p2 == s * row.z
    requires r == s * (other.x * p1 - other.y * p0 + other.z * p2)
    ensures r == Dot(row, other)
  {
    assert s * (other.x * p1) == (s * s) * (row.x * other.x);
    assert s * (other.y * p0) == -((s * s) * (row.y * other.y));
    assert s * (other.z * p2) == (s * s) * (row.z * other.z);
  }

  lemma AcrossAxis(t: Vec3, v: Vec3)
    requires Dot(t, v) == 0.0
    ensures HalfTurn(t, v) == Scale(-1.0, v)
  {
    HalfTurnBy(t, v, 0.0);
  }

  lemma AlongAxis(t: Vec3, k: real)
    requires UnitLength(t)
    ensures HalfTurn(t, Scale(k, t)) == Scale(k, t)
  {
    HalfTurnBy(t, t, 2.0);
    HalfTurnScale(t, k, t);
  }

  lemma ColumnTwists(u: Mat, s: real, row: Vec3)
    requires Orthonormal(u)
    ensures HalfTurn(u.c2, Column(u, s, 1.0, row)) == Column(u, s, -1.0, row)
  {
    var p, q, n := Scale(row.x, u.c1), Scale(row.y, u.c0), Scale(row.z, u.c2);
    var m := Sub(p, q);
    DotSub(u.c2, p, q);
    DotScale(u.c2, row.x, u.c1);
    DotScale(u.c2, row.y, u.c0);
    DotSymmetric(u.c2, u.c1);
    DotSymmetric(u.c2, u.c0);
    assert Scale(1.0, m) == m;
    AcrossAxis(u.c2, m);
    AlongAxis(u.c2, row.z);
    HalfTurnAdd(u.c2, m, n);
    HalfTurnScale(u.c2, s, Add(m, n));
  }

  /** For orthogonal U and V the decomposition is a twisted pair. */
  lemma DecompositionIsTwisted(u: Mat, s: real, v: Mat)
    requires Orthonormal(u) && Orthonormal(Transposed(v)) && s * s == 1.0
    ensures Decomposed(DecompositionOf(u, s, v))
  {
    var rows := Transposed(v);
    ColumnDots(u, s, rows.c0, rows.c0);
    ColumnDots(u, s, rows.c1, rows.c1);
    ColumnDots(u, s, rows.c2, rows.c2);
    ColumnDots(u, s, rows.c0, rows.c1);
    ColumnDots(u, s, rows.c0, rows.c2);
    ColumnDots(u, s, rows.c1, rows.c2);
    ColumnTwists(u, s, rows.c0);
    ColumnTwists(u, s, rows.c1);
    ColumnTwists(u, s, rows.c2);
  }
}
