/** Why the vote finds the pose: flipping the translation negates both depths, exact rays
    give exact depths, and of the four candidates only the true one puts a point seen by both
    cameras in front of both. */
module CheiralityLaws {
  import opened Wrappers
  import opened Geometry
  import opened Cheirality

  // ------------------------------------------------------------------------------ vectors

  lemma DotAdd(u: Vec3, a: Vec3, b: Vec3)
    ensures Dot(u, Add(a, b)) == Dot(u, a) + Dot(u, b)
  {
  }

  lemma DotScale(u: Vec3, k: real, a: Vec3)
    ensures Dot(u, Scale(k, a)) == k * Dot(u, a) && Dot(Scale(k, a), u) == k * Dot(a, u)
  {
  }

  lemma DotNeg(u: Vec3, a: Vec3)
    ensures Dot(u, Neg(a)) == -Dot(u, a)
  {
  }

  lemma DotSymmetric(u: Vec3, v: Vec3)
    ensures Dot(u, v) == Dot(v, u)
  {
  }

  function Transposed(m: Mat): Mat {
    Mat(Vec3(m.c0.x, m.c1.x, m.c2.x), Vec3(m.c0.y, m.c1.y, m.c2.y), Vec3(m.c0.z, m.c1.z, m.c2.z))
  }

  lemma ApplyByRows(m: Mat, v: Vec3)
    ensures Apply(m, v) == ApplyTransposed(Transposed(m), v)
  {
  }

  lemma ApplyScale(m: Mat, k: real, v: Vec3)
    ensures Apply(m, Scale(k, v)) == Scale(k, Apply(m, v))
  {
    ApplyByRows(m, v);
    ApplyByRows(m, Scale(k, v));
    TransposedScale(Transposed(m), k, v);
  }

  lemma TransposedAdd(m: Mat, a: Vec3, b: Vec3)
    ensures ApplyTransposed(m, Add(a, b)) == Add(ApplyTransposed(m, a), ApplyTransposed(m, b))
  {
    DotAdd(m.c0, a, b);
    DotAdd(m.c1, a, b);
    DotAdd(m.c2, a, b);
  }

  lemma TransposedScale(m: Mat, k: real, a: Vec3)
    ensures ApplyTransposed(m, Scale(k, a)) == Scale(k, ApplyTransposed(m, a))
  {
    DotScale(m.c0, k, a);
    DotScale(m.c1, k, a);
    DotScale(m.c2, k, a);
  }

  lemma TransposedNeg(m: Mat, a: Vec3)
    ensures ApplyTransposed(m, Neg(a)) == Neg(ApplyTransposed(m, a))
  {
    DotNeg(m.c0, a);
    DotNeg(m.c1, a);
    DotNeg(m.c2, a);
  }

  // ------------------------------------------------------------------------ least squares

  lemma NoFactor(x: real, d: real)
    requires x * d == 0.0 && d != 0.0
    ensures x == 0.0
  {
  }

  lemma FirstNormal(a: real, b: real, c: real, uw: real, vw: real, det: real, x: real, y: real)
    requires det == a * c - b * b && det != 0.0 && x * det == c * uw + b * vw && y * det == -(b * uw + a * vw)
    ensures a * x + b * y == uw
  {
    assert (a * x + b * y - uw) * det == a * (x * det) + b * (y * det) - uw * det;
    assert a * (x * det) == a * (c * uw) + a * (b * vw) && b * (y * det) == -(b * (b * uw)) - b * (a * vw);
    assert uw * det == a * (c * uw) - b * (b * uw);
    NoFactor(a * x + b * y - uw, det);
  }

  lemma SecondNormal(a: real, b: real, c: real, uw: real, vw: real, det: real, x: real, y: real)
    requires det == a * c - b * b && det != 0.0 && x * det == c * uw + b * vw && y * det == -(b * uw + a * vw)
    ensures b * x + c * y == -vw
  {
    assert (b * x + c * y + vw) * det == b * (x * det) + c * (y * det) + vw * det;
    assert b * (x * det) == b * (c * uw) + b * (b * vw) && c * (y * det) == -(c * (b * uw)) - c * (a * vw);
    assert vw * det == c * (a * vw) - b * (b * vw);
    NoFactor(b * x + c * y + vw, det);
  }

  lemma Undivided(n: real, det: real)
    requires det != 0.0
    ensures n / det * det == n
  {
  }

  lemma SolveNormal(a: real, b: real, c: real, uw: real, vw: real)
    requires Solve(a, b, c, uw, vw).Some?
    ensures var s := Solve(a, b, c, uw, vw).value; a * s.0 + b * s.1 == uw && b * s.0 + c * s.1 == -vw
  {
    var det, s := Gram(a, b, c), Solve(a, b, c, uw, vw).value;
    Undivided(c * uw + b * vw, det);
    Undivided(-(b * uw + a * vw), det);
    FirstNormal(a, b, c, uw, vw, det, s.0, s.1);
    SecondNormal(a, b, c, uw, vw, det, s.0, s.1);
  }

  /** What is left of the offset between the points at two depths, in the source camera. */
  function Remainder(u: Vec3, v: Vec3, w: Vec3, x: real, y: real): Vec3 {
    Add(Add(Scale(x, u), Scale(-y, v)), Neg(w))
  }

  lemma DotRemainder(z: Vec3, u: Vec3, v: Vec3, w: Vec3, x: real, y: real)
    ensures Dot(z, Remainder(u, v, w, x, y)) == x * Dot(z, u) - y * Dot(z, v) - Dot(z, w)
  {
    DotAdd(z, Add(Scale(x, u), Scale(-y, v)), Neg(w));
    DotAdd(z, Scale(x, u), Scale(-y, v));
    DotScale(z, x, u);
    DotScale(z, -y, v);
    DotNeg(z, w);
  }

  /** The depths are those of the least-squares solution: what is left between the point on the
      source ray and the one on the target ray is orthogonal to both rays. */
  lemma DepthsLeastSquares(rs: Vec3, rt: Vec3, r: Mat, t: Vec3) returns (x: real, y: real)
    requires TriangulateUnitRays(rs, rt, r, t).Depths?
    ensures var v, w := ApplyTransposed(r, rt), Neg(ApplyTransposed(r, t));
            Dot(rs, Remainder(rs, v, w, x, y)) == 0.0 && Dot(v, Remainder(rs, v, w, x, y)) == 0.0
    ensures TriangulateUnitRays(rs, rt, r, t) == DepthsAt(rs, r, t, x)
  {
    var v, w := ApplyTransposed(r, rt), Neg(ApplyTransposed(r, t));
    var a, b, c := Dot(rs, rs), -Dot(rs, v), Dot(v, v);
    var s := Solve(a, b, c, Dot(rs, w), Dot(v, w)).value;
    x, y := s.0, s.1;
    SolveNormal(a, b, c, Dot(rs, w), Dot(v, w));
    DotSymmetric(v, rs);
    OrthogonalToBoth(rs, v, w, a, b, c, Dot(rs, w), Dot(v, w), x, y);
  }

  lemma OrthogonalToBoth(u: Vec3, v: Vec3, w: Vec3, a: real, b: real, c: real, uw: real, vw: real, x: real, y: real)
    requires a == Dot(u, u) && b == -Dot(u, v) && c == Dot(v, v) && uw == Dot(u, w) && vw == Dot(v, w)
    requires Dot(v, u) == Dot(u, v) && a * x + b * y == uw && b * x + c * y == -vw
    ensures Dot(u, Remainder(u, v, w, x, y)) == 0.0 && Dot(v, Remainder(u, v, w, x, y)) == 0.0
  {
    DotRemainder(u, u, v, w, x, y);
    DotRemainder(v, u, v, w, x, y);
    assert b * y == -(y * Dot(u, v)) && b * x == -(x * Dot(v, u));
  }

  // -------------------------------------------------------------------- flipping the translation

  lemma NegNumerator(x: real, d: real)
    requires d != 0.0
    ensures (-x) / d == -(x / d)
  {
  }

  lemma SolveFlips(a: real, b: real, c: real, uw: real, vw: real)
    ensures Solve(a, b, c, uw, vw).None? <==> Solve(a, b, c, -uw, -vw).None?
    ensures Solve(a, b, c, uw, vw).Some? ==> Solve(a, b, c, -uw, -vw).value.0 == -Solve(a, b, c, uw, vw).value.0
  {
    var det := Gram(a, b, c);
    if !NearZero(det) {
      assert c * -uw + b * -vw == -(c * uw + b * vw);
      NegNumerator(c * uw + b * vw, det);
    }
  }

  lemma DepthsFlip(rs: Vec3, r: Mat, t: Vec3, a: real)
    ensures DepthsAt(rs, r, Neg(t), -a).zs == -DepthsAt(rs, r, t, a).zs
    ensures DepthsAt(rs, r, Neg(t), -a).zt == -DepthsAt(rs, r, t, a).zt
  {
    ApplyScale(r, a, rs);
    ApplyScale(r, -a, rs);
  }

  /** Flipping the translation negates both depths. */
  lemma FlipNegatesDepths(rs: Vec3, rt: Vec3, r: Mat, t: Vec3)
    ensures var d, e := TriangulateUnitRays(rs, rt, r, t), TriangulateUnitRays(rs, rt, r, Neg(t));
            if d.Depths? then e == Depths(-d.zs, -d.zt) else e == NoDepths
  {
    var v, w := ApplyTransposed(r, rt), Neg(ApplyTransposed(r, t));
    TransposedNeg(r, t);
    DotNeg(rs, w);
    DotNeg(v, w);
    SolveFlips(Dot(rs, rs), -Dot(rs, v), Dot(v, v), Dot(rs, w), Dot(v, w));
    match Solve(Dot(rs, rs), -Dot(rs, v), Dot(v, v), Dot(rs, w), Dot(v, w))
    case None =>
    case Some(s) => DepthsFlip(rs, r, t, s.0);
  }

  /** Opposite translations share the inliers between them: nobody votes for both. */
  lemma OppositeVotes(m: Rays, r: Mat, t: Vec3)
    requires Valid(m)
    ensures Votes(m, Candidate(r, t)) + Votes(m, Candidate(r, Neg(t))) <= Inliers(m)
  {
    forall i | 0 <= i < |m.inlier|
      ensures !(VotesFor(m, Candidate(r, t), i) && VotesFor(m, Candidate(r, Neg(t)), i))
    {
      FlipNegatesDepths(m.source[i], m.target[i], r, t);
    }
    CountDisjoint(i => VotesFor(m, Candidate(r, t), i), i => VotesFor(m, Candidate(r, Neg(t)), i),
                  i => IsInlier(m, i), |m.inlier|);
  }

  // --------------------------------------------------------------------------- exact depths

  predicate Orthonormal(m: Mat) {
    Dot(m.c0, m.c0) == 1.0 && Dot(m.c1, m.c1) == 1.0 && Dot(m.c2, m.c2) == 1.0 &&
    Dot(m.c0, m.c1) == 0.0 && Dot(m.c0, m.c2) == 0.0 && Dot(m.c1, m.c2) == 0.0
  }

  lemma DotApply(u: Vec3, m: Mat, v: Vec3)
    ensures Dot(u, Apply(m, v)) == v.x * Dot(u, m.c0) + v.y * Dot(u, m.c1) + v.z * Dot(u, m.c2)
  {
    var p, q, s := Scale(v.x, m.c0), Scale(v.y, m.c1), Scale(v.z, m.c2);
    DotAdd(u, Add(p, q), s);
    DotAdd(u, p, q);
    DotScale(u, v.x, m.c0);
    DotScale(u, v.y, m.c1);
    DotScale(u, v.z, m.c2);
  }

  lemma TransposedInverts(m: Mat, v: Vec3)
    requires Orthonormal(m)
    ensures ApplyTransposed(m, Apply(m, v)) == v
  {
    DotApply(m.c0, m, v);
    DotApply(m.c1, m, v);
    DotApply(m.c2, m, v);
    DotSymmetric(m.c0, m.c1);
    DotSymmetric(m.c0, m.c2);
    DotSymmetric(m.c1, m.c2);
  }

  /** The rays meet: the point at a along the source ray is the one at b along the target ray. */
  predicate Meets(r: Mat, t: Vec3, rs: Vec3, rt: Vec3, a: real, b: real) {
    Add(Apply(r, Scale(a, rs)), t) == Scale(b, rt)
  }

  /** In the source camera's axes. */
  lemma MeetsInSource(r: Mat, t: Vec3, rs: Vec3, rt: Vec3, a: real, b: real)
    requires Orthonormal(r) && Meets(r, t, rs, rt, a, b)
    ensures Scale(a, rs) == Add(Scale(b, ApplyTransposed(r, rt)), Neg(ApplyTransposed(r, t)))
  {
    TransposedAdd(r, Apply(r, Scale(a, rs)), t);
    TransposedInverts(r, Scale(a, rs));
    TransposedScale(r, b, rt);
  }

  lemma OffsetAt(s: real, z: real, u: Vec3, v: Vec3, w: Vec3)
    requires Scale(s, u) == Add(Scale(z, v), w)
    ensures Dot(u, w) == s * Dot(u, u) - z * Dot(u, v)
    ensures Dot(v, w) == s * Dot(u, v) - z * Dot(v, v)
  {
    DotAdd(u, Scale(z, v), w);
    DotAdd(v, Scale(z, v), w);
    DotScale(u, s, u);
    DotScale(u, z, v);
    DotScale(v, s, u);
    DotScale(v, z, v);
    DotSymmetric(u, v);
  }

  lemma Offset(s: real, z: real, u: Vec3, v: Vec3, w: Vec3, a: real, b: real, c: real, uw: real, vw: real)
    requires Scale(s, u) == Add(Scale(z, v), w)
    requires a == Dot(u, u) && b == -Dot(u, v) && c == Dot(v, v) && uw == Dot(u, w) && vw == Dot(v, w)
    ensures uw == s * a + z * b && vw == -(s * b + z * c)
  {
    OffsetAt(s, z, u, v, w);
    OffsetSigns(s, z, Dot(u, v), b);
  }

  lemma OffsetSigns(s: real, z: real, d: real, b: real)
    requires b == -d
    ensures z * b == -(z * d) && s * b == -(s * d)
  {
  }

  lemma Quotient(x: real, d: real, a: real)
    requires d != 0.0 && x == a * d
    ensures x / d == a
  {
  }

  lemma SolveExact(a: real, b: real, c: real, uw: real, vw: real, s: real, z: real)
    requires uw == s * a + z * b && vw == -(s * b + z * c) && !NearZero(Gram(a, b, c))
    ensures Solve(a, b, c, uw, vw).Some? && Solve(a, b, c, uw, vw).value.0 == s
  {
    var det := Gram(a, b, c);
    assert c * uw == s * (a * c) + z * (b * c);
    assert b * vw == -(s * (b * b)) - z * (b * c);
    assert s * det == s * (a * c) - s * (b * b);
    Quotient(c * uw + b * vw, det, s);
  }

  /** The rays are too close to parallel to be triangulated. */
  predicate Degenerate(r: Mat, rs: Vec3, rt: Vec3) {
    var v := ApplyTransposed(r, rt);
    NearZero(Gram(Dot(rs, rs), -Dot(rs, v), Dot(v, v)))
  }

  /** Rays that meet are triangulated at their meeting point. */
  lemma ExactDepths(r: Mat, t: Vec3, rs: Vec3, rt: Vec3, a: real, b: real)
    requires Orthonormal(r) && Meets(r, t, rs, rt, a, b) && !Degenerate(r, rs, rt)
    ensures TriangulateUnitRays(rs, rt, r, t) == Depths(a * rs.z, b * rt.z)
  {
    var v, w := ApplyTransposed(r, rt), Neg(ApplyTransposed(r, t));
    MeetsInSource(r, t, rs, rt, a, b);
    var aa, bb, cc, uw, vw := Dot(rs, rs), -Dot(rs, v), Dot(v, v), Dot(rs, w), Dot(v, w);
    Offset(a, b, rs, v, w, aa, bb, cc, uw, vw);
    SolveExact(aa, bb, cc, uw, vw, a, b);
  }
}
