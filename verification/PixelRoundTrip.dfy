/** Projection to a pixel and back-projection along its ray (core/geometry/camera_model.h). */
module PixelRoundTrip {
  import opened Wrappers
  import opened Geometry
  import opened CameraModels
  import LensContraction

  datatype Camera = Camera(fx: real, fy: real, cx: real, cy: real, lens: Lens)

  predicate Valid(c: Camera) {
    c.fx > 0.0 && c.fy > 0.0
  }

  function PixelToNormalized(c: Camera, p: Vec2): Vec2
    requires Valid(c)
  {
    Vec2((p.x - c.cx) / c.fx, (p.y - c.cy) / c.fy)
  }

  function NormalizedToPixel(c: Camera, x: Vec2): Vec2 {
    Vec2(c.fx * x.x + c.cx, c.fy * x.y + c.cy)
  }

  datatype Error = BehindCamera | DegenerateRay

  function Project(c: Camera, p: Vec3): Result<Vec2, Error> {
    if p.z <= 0.0 then Err(BehindCamera)
    else Ok(NormalizedToPixel(c, DistortUnit(c.lens, Vec2(p.x / p.z, p.y / p.z))))
  }

  function SquaredNorm(p: Vec3): real {
    p.x * p.x + p.y * p.y + p.z * p.z
  }

  /** A square root. */
  predicate RootAt(root: real -> real, s: real) {
    root(s) >= 0.0 && root(s) * root(s) == s
  }

  ghost predicate IsRoot(root: real -> real) {
    forall s :: s >= 0.0 ==> RootAt(root, s)
  }

  /** Far enough inside the image, with a lens that bends little enough, for the inversion to
      contract. */
  predicate TamePixel(c: Camera, pixel: Vec2)
    requires Valid(c)
  {
    LensContraction.Tame(c.lens, PixelToNormalized(c, pixel))
  }

  /** Two pixels closer than the tolerance, in units of the focal lengths. */
  predicate SamePixel(c: Camera, p: Vec2, q: Vec2)
    requires Valid(c)
  {
    Square(Minus(PixelToNormalized(c, p), PixelToNormalized(c, q))) < TOLERANCE2
  }

  lemma BackToNormalized(c: Camera, x: Vec2)
    requires Valid(c)
    ensures PixelToNormalized(c, NormalizedToPixel(c, x)) == x
  {
  }

  lemma ProductBelow(n: real)
    requires 0.0 <= n < 1.0
    ensures n * n < 1.0
  {
    assert n * n <= n * 1.0;
  }

  lemma SquareNotNegative(x: real)
    ensures x * x >= 0.0
  {
  }

  lemma AtLeastOne(n: real, s: real, x2: real, y2: real)
    requires n >= 0.0 && n * n == s && s == x2 + y2 + 1.0 && x2 >= 0.0 && y2 >= 0.0
    ensures n >= 1.0
  {
    if n < 1.0 {
      ProductBelow(n);
    }
  }

  /** The length of the ray through a point of the plane at depth one. */
  predicate IsLength(x: Vec2, norm: real) {
    norm * norm == x.x * x.x + x.y * x.y + 1.0
  }

  method RayNorm(root: real -> real, x: Vec2) returns (norm: real)
    requires IsRoot(root)
    ensures norm >= 1.0 && IsLength(x, norm)
  {
    var x2, y2 := x.x * x.x, x.y * x.y;
    SquareNotNegative(x.x);
    SquareNotNegative(x.y);
    var s := x2 + y2 + 1.0;
    norm := root(s);
    assert RootAt(root, s);
    AtLeastOne(norm, s, x2, y2);
  }

  lemma Quotient(x: real, n: real)
    requires n > 0.0
    ensures (x / n) / (1.0 / n) == x
  {
  }

  lemma UnitLength(x: real, y: real, n: real, s: real)
    requires n > 0.0 && n * n == s && s == x * x + y * y + 1.0
    ensures SquaredNorm(Vec3(x / n, y / n, 1.0 / n)) == 1.0
  {
    var i := 1.0 / n;
    assert x / n == x * i && y / n == y * i;
    assert i * n == 1.0;
    assert (x * i) * (x * i) == (x * x) * (i * i) && (y * i) * (y * i) == (y * y) * (i * i);
    assert (i * n) * (i * n) == (i * i) * s;
  }

  lemma RayProjects(c: Camera, x: Vec2, n: real)
    requires Valid(c) && n > 0.0
    ensures Project(c, Vec3(x.x / n, x.y / n, 1.0 / n)) == Ok(NormalizedToPixel(c, DistortUnit(c.lens, x)))
  {
    Quotient(x.x, n);
    Quotient(x.y, n);
    assert 1.0 / n > 0.0;
  }

  /** Some step of the inversion, the hundredth at the latest, is below the tolerance. */
  ghost predicate Settles(c: Camera, pixel: Vec2)
    requires Valid(c)
  {
    exists k :: 0 <= k <= MAX_ITERATIONS && ConvergedAt(Radial(c.lens), PixelToNormalized(c, pixel), k)
  }

  lemma ProjectedDistance(c: Camera, pixel: Vec2, p: Vec2, x: Vec2)
    requires Valid(c) && p == NormalizedToPixel(c, DistortUnit(c.lens, x))
    ensures SamePixel(c, p, pixel) <==> Converged(Radial(c.lens), PixelToNormalized(c, pixel), x)
  {
    BackToNormalized(c, DistortUnit(c.lens, x));
  }

  lemma RayReprojects(c: Camera, pixel: Vec2, x: Vec2, n: real)
    requires Valid(c) && n > 0.0
    ensures 1.0 / n > 0.0 && Project(c, Vec3(x.x / n, x.y / n, 1.0 / n)).Ok?
    ensures SamePixel(c, Project(c, Vec3(x.x / n, x.y / n, 1.0 / n)).value, pixel)
            <==> Converged(Radial(c.lens), PixelToNormalized(c, pixel), x)
  {
    RayProjects(c, x, n);
    ProjectedDistance(c, pixel, NormalizedToPixel(c, DistortUnit(c.lens, x)), x);
  }

  lemma RayIsGood(c: Camera, pixel: Vec2, x: Vec2, n: real, ray: Vec3)
    requires Valid(c) && n >= 1.0 && IsLength(x, n) && ray == Vec3(x.x / n, x.y / n, 1.0 / n)
    ensures SquaredNorm(ray) == 1.0 && ray.z > 0.0 && Project(c, ray).Ok?
    ensures SamePixel(c, Project(c, ray).value, pixel) <==> Converged(Radial(c.lens), PixelToNormalized(c, pixel), x)
  {
    UnitLength(x.x, x.y, n, n * n);
    RayReprojects(c, pixel, x, n);
  }

  /** The inverted point of a pixel: it distorts back exactly when the inversion settles, which
      it does for every tame pixel. */
  method Undistorted(c: Camera, pixel: Vec2) returns (x: Vec2)
    requires Valid(c)
    ensures Converged(Radial(c.lens), PixelToNormalized(c, pixel), x) <==> Settles(c, pixel)
    ensures TamePixel(c, pixel) ==> Settles(c, pixel)
  {
    var xd := PixelToNormalized(c, pixel);
    var n;
    x, n := UndistortUnit(c.lens, xd);
    SettledAtExit(Radial(c.lens), xd, x, n);
    if LensContraction.Tame(c.lens, xd) {
      LensContraction.UndistortSucceeds(c.lens, xd);
    }
  }

  lemma SettledAtExit(d: Map, xd: Vec2, x: Vec2, n: nat)
    requires n <= MAX_ITERATIONS && x == Iterate(d, xd, n)
    requires n < MAX_ITERATIONS ==> Converged(d, xd, x)
    requires forall k :: 0 <= k < n ==> !Converged(d, xd, Iterate(d, xd, k))
    ensures Converged(d, xd, x) <==> exists k :: 0 <= k <= MAX_ITERATIONS && ConvergedAt(d, xd, k)
  {
    if Converged(d, xd, x) {
      assert ConvergedAt(d, xd, n);
    }
    forall k | 0 <= k <= MAX_ITERATIONS && ConvergedAt(d, xd, k)
      ensures Converged(d, xd, x)
    {
      assert k >= n;
    }
  }

  /** The viewing ray of a pixel has unit length and points forward; projecting it gives the
      pixel back exactly when the inversion settles, and so for every tame pixel. */
  method Unproject(c: Camera, root: real -> real, pixel: Vec2) returns (r: Result<Vec3, Error>)
    requires Valid(c) && IsRoot(root)
    ensures r.Ok? && SquaredNorm(r.value) == 1.0 && r.value.z > 0.0
    ensures Project(c, r.value).Ok?
    ensures SamePixel(c, Project(c, r.value).value, pixel) <==> Settles(c, pixel)
    ensures TamePixel(c, pixel) ==> SamePixel(c, Project(c, r.value).value, pixel)
  {
    var x := Undistorted(c, pixel);
    var norm := RayNorm(root, x);
    if norm < 0.000000000001 {
      return Err(DegenerateRay);
    }
    var ray := Vec3(x.x / norm, x.y / norm, 1.0 / norm);
    RayIsGood(c, pixel, x, norm, ray);
    r := Ok(ray);
  }

  // ------------------------------------------------------------------------ not for every lens

  const RIM := Vec2(1.0, 0.0)
  const CENTRE := Vec2(0.0, 0.0)

  lemma ResidualAt(d: Map, xd: Vec2, x: Vec2, y: Vec2, u: real)
    requires d(x) == y && y.x - xd.x == u && y.y == xd.y && (u == 1.0 || u == -1.0)
    ensures Residual(d, xd, x) == Vec2(u, 0.0) && !Converged(d, xd, x)
  {
  }

  lemma StepFrom(d: Map, xd: Vec2, x: Vec2, y: Vec2, u: real, next: Vec2)
    requires d(x) == y && y.x - xd.x == u && y.y == xd.y && (u == 1.0 || u == -1.0) && next == Vec2(x.x - u, x.y)
    ensures Step(d, xd, x, next) && !Converged(d, xd, x)
  {
    ResidualAt(d, xd, x, y, u);
  }

  predicate Step(d: Map, xd: Vec2, x: Vec2, next: Vec2) {
    Minus(x, Residual(d, xd, x)) == next
  }

  lemma IterateOnce(d: Map, xd: Vec2, x: Vec2, next: Vec2, k: nat)
    requires Step(d, xd, x, next) && Iterate(d, xd, k) == x
    ensures Iterate(d, xd, k + 1) == next
  {
  }

  lemma {:induction false} Swings(d: Map, a: Vec2, b: Vec2, k: nat)
    requires Step(d, a, a, b) && Step(d, a, b, a)
    ensures Iterate(d, a, 2 * k) == a && Iterate(d, a, 2 * k + 1) == b
  {
    if k > 0 {
      Swings(d, a, b, k - 1);
      IterateOnce(d, a, b, a, 2 * k - 1);
    }
    IterateOnce(d, a, a, b, 2 * k);
  }

  predicate Takes(d: Map, v: Vec2, w: Vec2) {
    d(v) == w
  }

  /** Where the strong lens takes the two points. */
  predicate Spreads(d: Map, a: Vec2, b: Vec2, w: Vec2) {
    Takes(d, b, b) && Takes(d, a, w)
  }

  predicate FirstOrder(c: Lens) {
    c.k1 == 1.0 && c.k2 == 0.0 && c.k3 == 0.0 && c.p1 == 0.0 && c.p2 == 0.0
  }

  /** On the axis the strong lens leaves zero and doubles one. */
  lemma StretchesPoint(c: Lens, d: Map, v: Vec2, u: real, w: Vec2)
    requires FirstOrder(c) && d == Radial(c) && v == Vec2(u, 0.0) && (u == 0.0 || u == 1.0)
    requires w == Vec2(u + u, 0.0)
    ensures Takes(d, v, w)
  {
    var radial, m, n := LensContraction.DistortedBy(c, v, u, 0.0, u, u, u);
  }

  lemma FirstOrderSpreads(c: Lens, d: Map, a: Vec2, b: Vec2, w: Vec2)
    requires FirstOrder(c) && d == Radial(c)
    requires a == Vec2(1.0, 0.0) && b == Vec2(0.0, 0.0) && w == Vec2(2.0, 0.0)
    ensures Spreads(d, a, b, w)
  {
    StretchesPoint(c, d, a, 1.0, w);
    StretchesPoint(c, d, b, 0.0, b);
  }

  const STRONG := Lens(1.0, 0.0, 0.0, 0.0, 0.0)

  /** Two points the inversion swings between, neither of which distorts near the first. */
  predicate Swinging(d: Map, a: Vec2, b: Vec2) {
    Step(d, a, a, b) && Step(d, a, b, a) && !Converged(d, a, a) && !Converged(d, a, b)
  }

  lemma SwingsBack(d: Map, a: Vec2, b: Vec2)
    requires d(b) == b && a.x == 1.0 && b.x == 0.0 && a.y == b.y
    ensures Step(d, a, b, a) && !Converged(d, a, b)
  {
    StepFrom(d, a, b, b, -1.0, a);
  }

  lemma SwingsBetween(d: Map, a: Vec2, b: Vec2, w: Vec2)
    requires Spreads(d, a, b, w) && a == Vec2(1.0, 0.0) && b == Vec2(0.0, 0.0) && w == Vec2(2.0, 0.0)
    ensures Swinging(d, a, b)
  {
    SwingsBack(d, a, b);
    StepFrom(d, a, a, w, 1.0, b);
  }

  lemma SwingingNeverConverges(d: Map, a: Vec2, b: Vec2, k: nat)
    requires Swinging(d, a, b)
    ensures !ConvergedAt(d, a, k)
  {
    Swings(d, a, b, k / 2);
    assert k == 2 * (k / 2) || k == 2 * (k / 2) + 1;
  }

  lemma FirstOrderSwings(c: Lens, a: Vec2, b: Vec2, k: nat)
    requires FirstOrder(c) && a == Vec2(1.0, 0.0) && b == Vec2(0.0, 0.0)
    ensures !ConvergedAt(Radial(c), a, k)
  {
    FirstOrderSpreads(c, Radial(c), a, b, Vec2(2.0, 0.0));
    SwingsBetween(Radial(c), a, b, Vec2(2.0, 0.0));
    SwingingNeverConverges(Radial(c), a, b, k);
  }

  /** A lens the construction accepts, and a point, for which no number of steps gets the
      residual below the tolerance; the loop then returns a point that does not distort back. */
  lemma NeverConverges(k: nat)
    ensures !ConvergedAt(Radial(STRONG), RIM, k)
  {
    FirstOrderSwings(STRONG, RIM, CENTRE, k);
  }

  // --------------------------------------------------------------------- where a pixel comes from

  predicate NoDistortion(l: Lens) {
    l.k1 == 0.0 && l.k2 == 0.0 && l.k3 == 0.0 && l.p1 == 0.0 && l.p2 == 0.0
  }

  /** The monomials of a point of the plane at depth one. */
  predicate Monomials(v: Vec2, x2: real, y2: real, xy: real, s: real, s4: real, s6: real) {
    && x2 == v.x * v.x && y2 == v.y * v.y && xy == v.x * v.y
    && s == x2 + y2 && s4 == s * s && s6 == s4 * s
  }

  /** What each coefficient adds to a coordinate u: k1, k2 and k3 multiples of u times a power of
      the squared radius, p twice the product of the coordinates, and p' the squared radius
      with twice the square of u. */
  predicate Moved(r: real, u: real, k1: real, k2: real, k3: real, p: real, p': real, u2: real, xy: real, s: real,
                  s4: real, s6: real) {
    r == u + k1 * (u * s) + k2 * (u * s4) + k3 * (u * s6) + (2.0 * p) * xy + p' * (s + 2.0 * u2)
  }

  lemma MonomialsArePowers(v: Vec2, x2: real, y2: real, xy: real, s: real, s4: real, s6: real)
    requires Monomials(v, x2, y2, xy, s, s4, s6)
    ensures LensContraction.PowersAt(v, x2, y2, s, s4, s6)
  {
  }

  lemma MixedMonomial(l: Lens, v: Vec2, x2: real, y2: real, xy: real, s: real, s4: real, s6: real)
    requires Monomials(v, x2, y2, xy, s, s4, s6)
    ensures LensContraction.MixedTerm(l.p1, v.x, v.y) == (2.0 * l.p1) * xy
    ensures LensContraction.MixedTerm(l.p2, v.y, v.x) == (2.0 * l.p2) * xy
  {
    assert v.y * v.x == xy;
  }

  lemma MovedAt(k1: real, k2: real, k3: real, p: real, p': real, u: real, u2: real, xy: real, s: real, s4: real,
                s6: real, radial: real, m: real, r: real)
    requires LensContraction.IsRadial(radial, k1, k2, k3, s, s4, s6) && m == (2.0 * p) * xy
    requires LensContraction.IsCoordinate(r, u, radial, m, p', s, u2)
    ensures Moved(r, u, k1, k2, k3, p, p', u2, xy, s, s4, s6)
  {
    assert u * radial == u + k1 * (u * s) + k2 * (u * s4) + k3 * (u * s6);
  }

  /** The first coordinate gets p1 times the mixed term and p2 times its own; the second the
      other way round. */
  lemma CoefficientsMove(l: Lens, v: Vec2, x2: real, y2: real, xy: real, s: real, s4: real, s6: real, d: Vec2)
    requires Monomials(v, x2, y2, xy, s, s4, s6) && d == DistortUnit(l, v)
    ensures Moved(d.x, v.x, l.k1, l.k2, l.k3, l.p1, l.p2, x2, xy, s, s4, s6)
    ensures Moved(d.y, v.y, l.k1, l.k2, l.k3, l.p2, l.p1, y2, xy, s, s4, s6)
  {
    MonomialsArePowers(v, x2, y2, xy, s, s4, s6);
    MixedMonomial(l, v, x2, y2, xy, s, s4, s6);
    MovesBoth(l, v, x2, y2, xy, s, s4, s6, d);
  }

  lemma MovesBoth(l: Lens, v: Vec2, x2: real, y2: real, xy: real, s: real, s4: real, s6: real, d: Vec2)
    requires LensContraction.PowersAt(v, x2, y2, s, s4, s6) && d == DistortUnit(l, v)
    requires LensContraction.MixedTerm(l.p1, v.x, v.y) == (2.0 * l.p1) * xy
    requires LensContraction.MixedTerm(l.p2, v.y, v.x) == (2.0 * l.p2) * xy
    ensures Moved(d.x, v.x, l.k1, l.k2, l.k3, l.p1, l.p2, x2, xy, s, s4, s6)
    ensures Moved(d.y, v.y, l.k1, l.k2, l.k3, l.p2, l.p1, y2, xy, s, s4, s6)
  {
    var radial, m, n := LensContraction.DistortedBy(l, v, x2, y2, s, s4, s6);
    MovedAt(l.k1, l.k2, l.k3, l.p1, l.p2, v.x, x2, xy, s, s4, s6, radial, m, d.x);
    MovedAt(l.k1, l.k2, l.k3, l.p2, l.p1, v.y, y2, xy, s, s4, s6, radial, n, d.y);
  }

  lemma NothingMoves(l: Lens, v: Vec2)
    requires NoDistortion(l)
    ensures DistortUnit(l, v) == v
  {
    var x2, y2, xy := v.x * v.x, v.y * v.y, v.x * v.y;
    var s := x2 + y2;
    var s4 := s * s;
    CoefficientsMove(l, v, x2, y2, xy, s, s4, s4 * s, DistortUnit(l, v));
  }

  lemma ProjectAt(c: Camera, p: Vec3, v: Vec2, d: Vec2)
    requires p.z > 0.0 && v == Vec2(p.x / p.z, p.y / p.z) && d == DistortUnit(c.lens, v)
    ensures Project(c, p) == Ok(NormalizedToPixel(c, d))
  {
  }

  lemma PixelAt(c: Camera, d: Vec2, q: Vec2)
    requires q.x == c.fx * d.x + c.cx && q.y == c.fy * d.y + c.cy
    ensures NormalizedToPixel(c, d) == q
  {
  }

  lemma PinholePixel(c: Camera, p: Vec3, v: Vec2, q: Vec2)
    requires NoDistortion(c.lens) && p.z > 0.0 && v == Vec2(p.x / p.z, p.y / p.z) && NormalizedToPixel(c, v) == q
    ensures Project(c, p) == Ok(q)
  {
    NothingMoves(c.lens, v);
    ProjectAt(c, p, v, v);
  }

  /** A pinhole camera sees a point in front of it at focal length times its slope, from the
      principal point, along each axis. */
  lemma PinholeProjects(c: Camera, p: Vec3, v: Vec2, q: Vec2)
    requires NoDistortion(c.lens) && p.z > 0.0 && v == Vec2(p.x / p.z, p.y / p.z)
    requires q.x == c.fx * v.x + c.cx && q.y == c.fy * v.y + c.cy
    ensures Project(c, p) == Ok(q)
  {
    PixelAt(c, v, q);
    PinholePixel(c, p, v, q);
  }

  /** Any camera refuses a point that is not in front of it. */
  lemma NotInFront(c: Camera, p: Vec3)
    ensures Project(c, p) == Err(BehindCamera) <==> p.z <= 0.0
  {
  }
}
