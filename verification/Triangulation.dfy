/** Two-ray triangulation over the reals (core/geometry/triangulation.h, lines 135 to 216). */
module Triangulation {
  import opened Geometry

  datatype Acceptance = Accepted | NonFinite | NegativeDepth | LowParallax | HighResidual

  datatype Triangulated = Triangulated(acceptance: Acceptance, xyz: Vec3)

  const PARALLEL := 0.000000000001

  /** The foot points' parameters on the two rays. */
  datatype Feet = Feet(t: real, s: real)

  function Denominator(r1: Vec3, r2: Vec3): real {
    Dot(r1, r1) * Dot(r2, r2) - Dot(r1, r2) * Dot(r1, r2)
  }

  function FeetOf(o1: Vec3, r1: Vec3, o2: Vec3, r2: Vec3): Feet
    requires Denominator(r1, r2) != 0.0
  {
    var e := Sub(o2, o1);
    var a, b, c, d, f := Dot(r1, r1), Dot(r1, r2), Dot(r2, r2), Dot(r1, e), Dot(r2, e);
    Feet((c * d - b * f) / Denominator(r1, r2), (b * d - a * f) / Denominator(r1, r2))
  }

  /** The point at a parameter of a ray. */
  function At(o: Vec3, r: Vec3, t: real): Vec3 {
    Add(o, Scale(t, r))
  }

  function Midpoint(o1: Vec3, r1: Vec3, o2: Vec3, r2: Vec3): Vec3
    requires Denominator(r1, r2) != 0.0
  {
    var f := FeetOf(o1, r1, o2, r2);
    Scale(0.5, Add(At(o1, r1, f.t), At(o2, r2, f.s)))
  }

  /** The angle between the rays is below the minimum with the given cosine. The quotient
      and the arc cosine are avoided by squaring. */
  predicate TooNarrow(r1: Vec3, r2: Vec3, cosine: real) {
    var b, n := Dot(r1, r2), Dot(r1, r1) * Dot(r2, r2);
    if cosine >= 0.0 then b > 0.0 && b * b > cosine * cosine * n
    else b >= 0.0 || b * b < cosine * cosine * n
  }

  function Depth(world: SE3, p: Vec3): real {
    TransformPoint(Inverse(world), p).z
  }

  predicate Parallel(denominator: real) {
    -PARALLEL < denominator < PARALLEL
  }

  /** Closest points of the two rays, then depth in both cameras, then parallax. */
  function TriangulateTwoRays(w1: SE3, ray1: Vec3, w2: SE3, ray2: Vec3, cosine: real): (r: Triangulated)
    ensures var parallel := Parallel(Denominator(Rotate(w1.rotation, ray1), Rotate(w2.rotation, ray2)));
            var front := Depth(w1, r.xyz) > 0.0 && Depth(w2, r.xyz) > 0.0;
            var narrow := TooNarrow(Rotate(w1.rotation, ray1), Rotate(w2.rotation, ray2), cosine);
            && (r.acceptance == Accepted <==> !parallel && front && !narrow)
            && (r.acceptance == NegativeDepth <==> !parallel && !front)
            && (r.acceptance == LowParallax <==> parallel || (front && narrow))
  {
    var r1, r2 := Rotate(w1.rotation, ray1), Rotate(w2.rotation, ray2);
    if Parallel(Denominator(r1, r2)) then Triangulated(LowParallax, ZERO3)
    else
      var xyz := Midpoint(w1.translation, r1, w2.translation, r2);
      if Depth(w1, xyz) <= 0.0 || Depth(w2, xyz) <= 0.0 then Triangulated(NegativeDepth, xyz)
      else if TooNarrow(r1, r2, cosine) then Triangulated(LowParallax, xyz)
      else Triangulated(Accepted, xyz)
  }

  // ------------------------------------------------------------------------- scalar algebra

  lemma ZeroFactor(x: real, d: real)
    requires x * d == 0.0 && d != 0.0
    ensures x == 0.0
  {
  }

  /** Cramer's rule for the two normal equations. */
  lemma NormalEquations(a: real, b: real, c: real, d: real, f: real, den: real, t: real, s: real)
    requires den == a * c - b * b && den != 0.0
    requires t * den == c * d - b * f && s * den == b * d - a * f
    ensures d + s * b - t * a == 0.0 && f + s * c - t * b == 0.0
  {
    var x, y := d + s * b - t * a, f + s * c - t * b;
    assert x * den == d * den + b * (s * den) - a * (t * den);
    assert d * den == a * (c * d) - b * (b * d);
    assert b * (s * den) == b * (b * d) - b * (a * f);
    assert a * (t * den) == a * (c * d) - a * (b * f);
    ZeroFactor(x, den);
    assert y * den == f * den + c * (s * den) - b * (t * den);
    assert f * den == f * (a * c) - f * (b * b);
    assert c * (s * den) == c * (b * d) - c * (a * f);
    assert b * (t * den) == b * (c * d) - b * (b * f);
    ZeroFactor(y, den);
  }

  lemma NormalUnique(a: real, b: real, c: real, d: real, f: real, den: real, t: real, s: real)
    requires den == a * c - b * b
    requires d + s * b - t * a == 0.0 && f + s * c - t * b == 0.0
    ensures t * den == c * d - b * f && s * den == b * d - a * f
  {
    assert c * (d + s * b - t * a) == c * d + s * (b * c) - t * (a * c);
    assert b * (f + s * c - t * b) == b * f + s * (b * c) - t * (b * b);
    assert t * den == t * (a * c) - t * (b * b);
    assert b * (d + s * b - t * a) == b * d + s * (b * b) - t * (a * b);
    assert a * (f + s * c - t * b) == a * f + s * (a * c) - t * (a * b);
    assert s * den == s * (a * c) - s * (b * b);
  }

  lemma GapComponent(o1: real, o2: real, a: real, b: real, t: real, s: real, r: real)
    ensures (o2 + s * b - (o1 + t * a)) * r == (o2 - o1) * r + s * (b * r) - t * (a * r)
  {
  }

  lemma DotSum(k: real, u: real, v: real, w: real)
    ensures k * (u + v + w) == k * u + k * v + k * w
  {
  }

  /** The gap between a point of one ray and a point of the other. */
  function Gap(o1: Vec3, r1: Vec3, o2: Vec3, r2: Vec3, t: real, s: real): Vec3 {
    Sub(At(o2, r2, s), At(o1, r1, t))
  }

  lemma GapDot(o1: Vec3, r1: Vec3, o2: Vec3, r2: Vec3, t: real, s: real, r: Vec3)
    ensures Dot(Gap(o1, r1, o2, r2, t, s), r) == Dot(Sub(o2, o1), r) + s * Dot(r2, r) - t * Dot(r1, r)
  {
    GapComponent(o1.x, o2.x, r1.x, r2.x, t, s, r.x);
    GapComponent(o1.y, o2.y, r1.y, r2.y, t, s, r.y);
    GapComponent(o1.z, o2.z, r1.z, r2.z, t, s, r.z);
    DotSum(s, r2.x * r.x, r2.y * r.y, r2.z * r.z);
    DotSum(t, r1.x * r.x, r1.y * r.y, r1.z * r.z);
  }

  lemma DotCommutes(u: Vec3, v: Vec3)
    ensures Dot(u, v) == Dot(v, u)
  {
  }

  // ---------------------------------------------------------------------- the closest points

  lemma TimesDenominator(x: real, y: real, den: real, t: real, s: real)
    requires den != 0.0 && t == x / den && s == y / den
    ensures t * den == x && s * den == y
  {
  }

  /** The feet's parameters solve the normal equations. */
  predicate SolvesFor(a: real, b: real, c: real, d: real, f: real, t: real, s: real) {
    d + s * b - t * a == 0.0 && f + s * c - t * b == 0.0
  }

  lemma FeetSolve(a: real, b: real, c: real, d: real, f: real, den: real, t: real, s: real)
    requires den == a * c - b * b && den != 0.0
    requires t == (c * d - b * f) / den && s == (b * d - a * f) / den
    ensures SolvesFor(a, b, c, d, f, t, s)
  {
    TimesDenominator(c * d - b * f, b * d - a * f, den, t, s);
    NormalEquations(a, b, c, d, f, den, t, s);
  }

  /** Which feet solve the normal equations of the two rays. */
  predicate AreFeet(r1: Vec3, r2: Vec3, e: Vec3, f: Feet) {
    SolvesFor(Dot(r1, r1), Dot(r1, r2), Dot(r2, r2), Dot(r1, e), Dot(r2, e), f.t, f.s)
  }

  lemma FeetOfAreFeet(o1: Vec3, r1: Vec3, o2: Vec3, r2: Vec3, f: Feet)
    requires Denominator(r1, r2) != 0.0 && f == FeetOf(o1, r1, o2, r2)
    ensures AreFeet(r1, r2, Sub(o2, o1), f)
  {
    var e := Sub(o2, o1);
    FeetSolve(Dot(r1, r1), Dot(r1, r2), Dot(r2, r2), Dot(r1, e), Dot(r2, e), Denominator(r1, r2), f.t, f.s);
  }

  /** The gap between the foot points. */
  function FeetGap(o1: Vec3, r1: Vec3, o2: Vec3, r2: Vec3, f: Feet): Vec3 {
    Gap(o1, r1, o2, r2, f.t, f.s)
  }

  predicate Orthogonal(u: Vec3, v: Vec3) {
    Dot(u, v) == 0.0
  }

  lemma GapsVanish(o1: Vec3, r1: Vec3, o2: Vec3, r2: Vec3, f: Feet)
    requires AreFeet(r1, r2, Sub(o2, o1), f)
    ensures Orthogonal(FeetGap(o1, r1, o2, r2, f), r1) && Orthogonal(FeetGap(o1, r1, o2, r2, f), r2)
  {
    var e := Sub(o2, o1);
    GapDot(o1, r1, o2, r2, f.t, f.s, r1);
    GapDot(o1, r1, o2, r2, f.t, f.s, r2);
    DotCommutes(e, r1);
    DotCommutes(e, r2);
    DotCommutes(r2, r1);
  }

  /** The difference of the foot points is orthogonal to both rays. */
  lemma FeetOrthogonal(o1: Vec3, r1: Vec3, o2: Vec3, r2: Vec3)
    requires Denominator(r1, r2) != 0.0
    ensures var gap := FeetGap(o1, r1, o2, r2, FeetOf(o1, r1, o2, r2)); Orthogonal(gap, r1) && Orthogonal(gap, r2)
  {
    var f := FeetOf(o1, r1, o2, r2);
    FeetOfAreFeet(o1, r1, o2, r2, f);
    GapsVanish(o1, r1, o2, r2, f);
  }

  lemma SumSquare(w: real, d: real)
    ensures (w + d) * (w + d) == w * w + 2.0 * (w * d) + d * d
  {
  }

  lemma Pythagoras(w: Vec3, d: Vec3)
    requires Orthogonal(w, d)
    ensures Norm2(Add(w, d)) == Norm2(w) + Norm2(d) && Norm2(d) >= 0.0
  {
    SumSquare(w.x, d.x);
    SumSquare(w.y, d.y);
    SumSquare(w.z, d.z);
  }

  lemma StepComponent(o1: real, o2: real, a: real, b: real, t: real, s: real, t': real, s': real)
    ensures (o2 + s' * b) - (o1 + t' * a) == ((o2 + s * b) - (o1 + t * a)) + ((s' - s) * b - (t' - t) * a)
  {
  }

  lemma GapSteps(o1: Vec3, r1: Vec3, o2: Vec3, r2: Vec3, t: real, s: real, t': real, s': real)
    ensures Gap(o1, r1, o2, r2, t', s')
            == Add(Gap(o1, r1, o2, r2, t, s), Sub(Scale(s' - s, r2), Scale(t' - t, r1)))
  {
    StepComponent(o1.x, o2.x, r1.x, r2.x, t, s, t', s');
    StepComponent(o1.y, o2.y, r1.y, r2.y, t, s, t', s');
    StepComponent(o1.z, o2.z, r1.z, r2.z, t, s, t', s');
  }

  lemma ComboComponent(w: real, b: real, a: real, k: real, l: real)
    ensures w * (k * b - l * a) == k * (w * b) - l * (w * a)
  {
  }

  lemma DotCombo(w: Vec3, k: real, u: Vec3, l: real, v: Vec3)
    ensures Dot(w, Sub(Scale(k, u), Scale(l, v))) == k * Dot(w, u) - l * Dot(w, v)
  {
    ComboComponent(w.x, u.x, v.x, k, l);
    ComboComponent(w.y, u.y, v.y, k, l);
    ComboComponent(w.z, u.z, v.z, k, l);
    DotSum(k, w.x * u.x, w.y * u.y, w.z * u.z);
    DotSum(l, w.x * v.x, w.y * v.y, w.z * v.z);
  }

  /** No other pair of points on the two lines is closer. */
  lemma FeetClosest(o1: Vec3, r1: Vec3, o2: Vec3, r2: Vec3, t: real, s: real)
    requires Denominator(r1, r2) != 0.0
    ensures var f := FeetOf(o1, r1, o2, r2);
            Norm2(Gap(o1, r1, o2, r2, f.t, f.s)) <= Norm2(Gap(o1, r1, o2, r2, t, s))
  {
    var f := FeetOf(o1, r1, o2, r2);
    var w := Gap(o1, r1, o2, r2, f.t, f.s);
    FeetOrthogonal(o1, r1, o2, r2);
    GapSteps(o1, r1, o2, r2, f.t, f.s, t, s);
    DotCombo(w, s - f.s, r2, t - f.t, r1);
    assert (s - f.s) * 0.0 == 0.0 && (t - f.t) * 0.0 == 0.0;
    Pythagoras(w, Sub(Scale(s - f.s, r2), Scale(t - f.t, r1)));
  }

  lemma QuotientUnique(x: real, y: real, d: real)
    requires x * d == y && d != 0.0
    ensures x == y / d
  {
  }

  lemma HalfTwice(p: Vec3)
    ensures Scale(0.5, Add(p, p)) == p
  {
  }

  lemma ZeroDot(r: Vec3)
    ensures Dot(ZERO3, r) == 0.0
  {
  }

  /** When the lines meet, the triangulated point is exactly where they meet. */
  lemma MeetingPointFound(o1: Vec3, r1: Vec3, o2: Vec3, r2: Vec3, t: real, s: real)
    requires Denominator(r1, r2) != 0.0 && At(o1, r1, t) == At(o2, r2, s)
    ensures FeetOf(o1, r1, o2, r2) == Feet(t, s) && Midpoint(o1, r1, o2, r2) == At(o1, r1, t)
  {
    var e := Sub(o2, o1);
    var den := Denominator(r1, r2);
    assert Gap(o1, r1, o2, r2, t, s) == ZERO3;
    ZeroDot(r1);
    ZeroDot(r2);
    GapDot(o1, r1, o2, r2, t, s, r1);
    GapDot(o1, r1, o2, r2, t, s, r2);
    DotCommutes(e, r1);
    DotCommutes(e, r2);
    DotCommutes(r2, r1);
    NormalUnique(Dot(r1, r1), Dot(r1, r2), Dot(r2, r2), Dot(r1, e), Dot(r2, e), den, t, s);
    QuotientUnique(t, Dot(r2, r2) * Dot(r1, e) - Dot(r1, r2) * Dot(r2, e), den);
    QuotientUnique(s, Dot(r1, r2) * Dot(r1, e) - Dot(r1, r1) * Dot(r2, e), den);
    HalfTwice(At(o1, r1, t));
  }

  // ------------------------------------------------------------- what the result stands for

  lemma HalfwayComponent(p: real, a: real, b: real, m: real)
    requires m == 0.5 * (a + b)
    ensures (p - a) * (p - a) + (p - b) * (p - b) == 2.0 * ((p - m) * (p - m)) + 0.5 * ((b - a) * (b - a))
  {
    var u, v := p - m, 0.5 * (b - a);
    assert p - a == u + v && p - b == u - v;
    assert (u + v) * (u + v) + (u - v) * (u - v) == 2.0 * (u * u) + 2.0 * (v * v);
    assert (b - a) * (b - a) == 4.0 * (v * v);
  }

  function Halfway(a: Vec3, b: Vec3): Vec3 {
    Scale(0.5, Add(a, b))
  }

  /** The squared distances of p from a and from b, together. */
  function Spread(p: Vec3, a: Vec3, b: Vec3): real {
    Norm2(Sub(p, a)) + Norm2(Sub(p, b))
  }

  lemma SpreadAboutHalfway(p: Vec3, a: Vec3, b: Vec3)
    ensures Spread(p, a, b) == 2.0 * Norm2(Sub(p, Halfway(a, b))) + 0.5 * Norm2(Sub(b, a))
  {
    var m := Halfway(a, b);
    HalfwayComponent(p.x, a.x, b.x, m.x);
    HalfwayComponent(p.y, a.y, b.y, m.y);
    HalfwayComponent(p.z, a.z, b.z, m.z);
  }

  lemma NormNonNegative(v: Vec3)
    ensures Norm2(v) >= 0.0
  {
  }

  lemma NoDistance(m: Vec3)
    ensures Norm2(Sub(m, m)) == 0.0
  {
  }

  lemma HalfwayClosest(p: Vec3, a: Vec3, b: Vec3, c: Vec3, d: Vec3)
    requires Norm2(Sub(b, a)) <= Norm2(Sub(d, c))
    ensures Spread(Halfway(a, b), a, b) <= Spread(p, c, d)
  {
    SpreadAboutHalfway(Halfway(a, b), a, b);
    NoDistance(Halfway(a, b));
    SpreadAboutHalfway(p, c, d);
    NormNonNegative(Sub(p, Halfway(c, d)));
  }

  /** Of all points, the midpoint has the least sum of squared distances from the two lines: for
      any point and any feet the sum is at least as large. */
  lemma MidpointClosest(o1: Vec3, r1: Vec3, o2: Vec3, r2: Vec3, p: Vec3, t: real, s: real)
    requires Denominator(r1, r2) != 0.0
    ensures var f := FeetOf(o1, r1, o2, r2);
            Spread(Midpoint(o1, r1, o2, r2), At(o1, r1, f.t), At(o2, r2, f.s))
            <= Spread(p, At(o1, r1, t), At(o2, r2, s))
  {
    var f := FeetOf(o1, r1, o2, r2);
    FeetClosest(o1, r1, o2, r2, t, s);
    HalfwayClosest(p, At(o1, r1, f.t), At(o2, r2, f.s), At(o1, r1, t), At(o2, r2, s));
  }

  /** The triangulated point is the one closest to the two viewing lines, in the sum of squared
      distances, whenever these are not parallel. */
  lemma TriangulatedClosest(w1: SE3, ray1: Vec3, w2: SE3, ray2: Vec3, cosine: real, p: Vec3, t: real, s: real)
    returns (a: real, b: real)
    requires !Parallel(Denominator(Rotate(w1.rotation, ray1), Rotate(w2.rotation, ray2)))
    ensures var r1, r2 := Rotate(w1.rotation, ray1), Rotate(w2.rotation, ray2);
            var m := TriangulateTwoRays(w1, ray1, w2, ray2, cosine).xyz;
            Spread(m, At(w1.translation, r1, a), At(w2.translation, r2, b))
            <= Spread(p, At(w1.translation, r1, t), At(w2.translation, r2, s))
  {
    var r1, r2 := Rotate(w1.rotation, ray1), Rotate(w2.rotation, ray2);
    var f := FeetOf(w1.translation, r1, w2.translation, r2);
    a, b := f.t, f.s;
    MidpointClosest(w1.translation, r1, w2.translation, r2, p, t, s);
  }

  /** The depth of a point is its third coordinate as the camera sees it. */
  lemma DepthInCamera(world: SE3, c: Vec3)
    requires Rigid(world)
    ensures Depth(world, TransformPoint(world, c)) == c.z
  {
    InverseUndoes(world, c);
  }

  lemma PositiveProduct(x: real, y: real)
    requires x > 0.0 && y > 0.0
    ensures x * y > 0.0
  {
  }

  lemma SquareOrder(x: real, y: real)
    requires y >= 0.0
    ensures x > y <==> x > 0.0 && x * x > y * y
  {
    if x > y {
      PositiveProduct(x - y, x + y);
      assert (x - y) * (x + y) == x * x - y * y;
    } else if x > 0.0 {
      assert x * x <= x * y && x * y <= y * y;
    }
  }

  lemma ProductSquared(c: real, root: real, n: real)
    requires root * root == n
    ensures (c * root) * (c * root) == c * c * n
  {
  }

  /** The angle test compares cosines: with root the product of the rays' lengths, the rays are
      too narrow exactly when their dot product exceeds the cosine times it. */
  lemma NarrowByCosine(r1: Vec3, r2: Vec3, cosine: real, root: real)
    requires root > 0.0 && root * root == Dot(r1, r1) * Dot(r2, r2)
    ensures TooNarrow(r1, r2, cosine) <==> Dot(r1, r2) > cosine * root
  {
    NarrowReals(Dot(r1, r2), Dot(r1, r1) * Dot(r2, r2), cosine, root);
  }

  lemma NarrowReals(b: real, n: real, c: real, root: real)
    requires root > 0.0 && root * root == n
    ensures (if c >= 0.0 then b > 0.0 && b * b > c * c * n else b >= 0.0 || b * b < c * c * n) <==> b > c * root
  {
    ProductSquared(c, root, n);
    if c >= 0.0 {
      assert c * root >= 0.0;
      SquareOrder(b, c * root);
    } else {
      assert (-c) * root > 0.0 && c * root == -((-c) * root);
      if b < 0.0 {
        SquareOrder((-c) * root, -b);
        assert (-b) * (-b) == b * b && ((-c) * root) * ((-c) * root) == (c * root) * (c * root);
      }
    }
  }
}
