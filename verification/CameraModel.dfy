/** The radial lens model and its fixed-point inversion (core/geometry/camera_model.h), over
    the reals. */
module CameraModels {

  datatype Vec2 = Vec2(x: real, y: real)

  function Minus(a: Vec2, b: Vec2): Vec2 {
    Vec2(a.x - b.x, a.y - b.y)
  }

  function Square(a: Vec2): real {
    a.x * a.x + a.y * a.y
  }

  /** A four-coefficient camera has k3 zero; a pinhole has all of them zero. */
  datatype Lens = Lens(k1: real, k2: real, p1: real, p2: real, k3: real)

  function Squared(x: real): real { x * x }

  function SquaredRadius(v: Vec2): real {
    Squared(v.x) + Squared(v.y)
  }

  function DistortUnit(c: Lens, v: Vec2): Vec2 {
    DistortWith(c, v, Squared(v.x), Squared(v.y), SquaredRadius(v))
  }

  /** The distortion, given the squares of the coordinates and of the radius. */
  function DistortWith(c: Lens, v: Vec2, x2: real, y2: real, r2: real): Vec2 {
    var r4 := r2 * r2;
    var r6 := r4 * r2;
    var radial := 1.0 + c.k1 * r2 + c.k2 * r4 + c.k3 * r6;
    Vec2(v.x * radial + 2.0 * c.p1 * v.x * v.y + c.p2 * (r2 + 2.0 * x2),
         v.y * radial + 2.0 * c.p2 * v.x * v.y + c.p1 * (r2 + 2.0 * y2))
  }

  // --------------------------------------------------------------------- fixed-point inversion

  const MAX_ITERATIONS := 100

  /** The square of the tolerance 1e-10. */
  const TOLERANCE2 := 0.00000000000000000001

  type Map = Vec2 -> Vec2

  function Radial(c: Lens): Map {
    (v: Vec2) => DistortUnit(c, v)
  }

  /** How far the distortion of x is from the wanted point. */
  function Residual(d: Map, xd: Vec2, x: Vec2): Vec2 {
    Minus(d(x), xd)
  }

  function Iterate(d: Map, xd: Vec2, k: nat): Vec2 {
    if k == 0 then xd
    else
      var x := Iterate(d, xd, k - 1);
      Minus(x, Residual(d, xd, x))
  }

  predicate Converged(d: Map, xd: Vec2, x: Vec2) {
    Square(Residual(d, xd, x)) < TOLERANCE2
  }

  predicate ConvergedAt(d: Map, xd: Vec2, k: nat) {
    Converged(d, xd, Iterate(d, xd, k))
  }

  /** Iterates until the residual is below the tolerance, a hundred times at most. */
  method UndistortUnit(c: Lens, xd: Vec2) returns (x: Vec2, n: nat)
    ensures n <= MAX_ITERATIONS && x == Iterate(Radial(c), xd, n)
    ensures n < MAX_ITERATIONS ==> Converged(Radial(c), xd, x)
    ensures forall k :: 0 <= k < n ==> !Converged(Radial(c), xd, Iterate(Radial(c), xd, k))
  {
    x := xd;
    n := 0;
    while n < MAX_ITERATIONS
      invariant n <= MAX_ITERATIONS && x == Iterate(Radial(c), xd, n)
      invariant forall k :: 0 <= k < n ==> !Converged(Radial(c), xd, Iterate(Radial(c), xd, k))
    {
      var residual := Minus(DistortUnit(c, x), xd);
      if Square(residual) < TOLERANCE2 {
        return;
      }
      x := Minus(x, residual);
      n := n + 1;
    }
  }

  // ----------------------------------------------------------------------- geometric decrease

  function Power(q: real, k: nat): real {
    if k == 0 then 1.0 else q * Power(q, k - 1)
  }

  lemma Monotone(a: real, b: real, c: real, d: real)
    requires 0.0 <= a <= b && 0.0 <= c <= d
    ensures 0.0 <= a * c <= b * d
  {
    assert a * c <= b * c;
    assert b * c <= b * d;
  }

  lemma {:induction false} PowerBetween(q: real, p: real, k: nat)
    requires 0.0 <= q <= p
    ensures 0.0 <= Power(q, k) <= Power(p, k)
  {
    if k > 0 {
      PowerBetween(q, p, k - 1);
      Monotone(q, p, Power(q, k - 1), Power(p, k - 1));
    }
  }

  lemma {:induction false} PowerSum(q: real, j: nat, k: nat)
    ensures Power(q, j + k) == Power(q, j) * Power(q, k)
  {
    if j > 0 {
      PowerSum(q, j - 1, k);
      assert q * (Power(q, j - 1) * Power(q, k)) == (q * Power(q, j - 1)) * Power(q, k);
    }
  }

  lemma NineSteps(q: real)
    requires q == 0.5625
    ensures 0.0 <= Power(q, 9) <= 0.006
  {
    var q2, q4 := q * q, q * q * q * q;
    assert Power(q, 1) == q && Power(q, 2) == q2;
    assert Power(q, 3) == q * q2 && Power(q, 4) == q4;
    PowerSum(q, 4, 4);
    PowerSum(q, 1, 8);
    assert q4 == 0.1001129150390625;
  }

  lemma {:induction false} HundredthPower(k: nat)
    ensures 0.0 <= Power(0.006, k) && Power(0.01, k) >= 0.0
    ensures k > 0 ==> Power(0.006, k) <= 0.6 * Power(0.01, k)
  {
    if k > 0 {
      HundredthPower(k - 1);
      PowerBetween(0.006, 0.01, k - 1);
    }
  }

  lemma {:induction false} NineTimes(q: real, m: nat)
    requires 0.0 <= q && 0.0 <= Power(q, 9) <= 0.006
    ensures 0.0 <= Power(q, 9 * m) <= Power(0.006, m)
  {
    if m > 0 {
      NineTimes(q, m - 1);
      PowerSum(q, 9, 9 * (m - 1));
      Monotone(Power(q, 9), 0.006, Power(q, 9 * (m - 1)), Power(0.006, m - 1));
    }
  }

  lemma TenHundredths()
    ensures Power(0.01, 10) == TOLERANCE2
  {
    assert Power(0.01, 2) == 0.0001;
    PowerSum(0.01, 2, 2);
    PowerSum(0.01, 4, 4);
    PowerSum(0.01, 8, 2);
  }

  /** Ninety steps at a rate of nine sixteenths end below the squared tolerance. */
  lemma NinetySteps()
    ensures Power(0.5625, 90) <= 0.6 * TOLERANCE2
  {
    NineSteps(0.5625);
    NineTimes(0.5625, 10);
    HundredthPower(10);
    TenHundredths();
  }

  predicate Shrinks(e: nat -> real, q: real, j: nat) {
    0.0 <= e(j + 1) <= q * e(j)
  }

  /** A size that shrinks by a rate at each step shrinks geometrically. */
  lemma {:induction false} ShrinksGeometrically(e: nat -> real, q: real, k: nat)
    requires q >= 0.0 && e(0) >= 0.0 && forall j :: 0 <= j < k ==> Shrinks(e, q, j)
    ensures 0.0 <= e(k) <= Power(q, k) * e(0)
  {
    if k > 0 {
      ShrinksGeometrically(e, q, k - 1);
      assert Shrinks(e, q, k - 1);
      Monotone(q, q, e(k - 1), Power(q, k - 1) * e(0));
      assert q * (Power(q, k - 1) * e(0)) == Power(q, k) * e(0);
    }
  }

  // --------------------------------------------------------------------------- contraction

  /** The part of the distortion beyond the identity. */
  function Bend(d: Map, x: Vec2): Vec2 {
    Minus(d(x), x)
  }

  function Opposite(a: Vec2): Vec2 {
    Vec2(-a.x, -a.y)
  }

  /** A way to measure vectors: the squared length, or the larger coordinate. */
  type Size = Vec2 -> real

  predicate SizeAt(n: Size, a: Vec2) {
    n(a) >= 0.0 && n(Opposite(a)) == n(a)
  }

  ghost predicate IsSize(n: Size) {
    forall a :: SizeAt(n, a)
  }

  /** The residual after a step is the change of the bend over the step. */
  lemma ResidualIsBend(d: Map, xd: Vec2, x: Vec2, next: Vec2)
    requires next == Minus(x, Residual(d, xd, x))
    ensures Residual(d, xd, next) == Minus(Bend(d, next), Bend(d, x))
    ensures Minus(next, x) == Opposite(Residual(d, xd, x))
  {
  }

  /** The size of the bend's change is at most p times that of the step. */
  predicate LipschitzAt(n: Size, d: Map, p: real, x: Vec2, y: Vec2) {
    n(Minus(Bend(d, y), Bend(d, x))) <= p * n(Minus(y, x))
  }

  predicate LipschitzStep(n: Size, d: Map, xd: Vec2, p: real, j: nat) {
    LipschitzAt(n, d, p, Iterate(d, xd, j), Iterate(d, xd, j + 1))
  }

  /** The bend is Lipschitz from each of the first k iterates to the next. */
  ghost predicate LipschitzOnIterates(n: Size, d: Map, xd: Vec2, p: real, k: nat) {
    forall j :: 0 <= j < k ==> LipschitzStep(n, d, xd, p, j)
  }

  function ResidualSize(n: Size, d: Map, xd: Vec2): nat -> real {
    (k: nat) => n(Residual(d, xd, Iterate(d, xd, k)))
  }

  lemma StepShrinks(n: Size, d: Map, xd: Vec2, p: real, j: nat)
    requires IsSize(n) && LipschitzStep(n, d, xd, p, j)
    ensures Shrinks(ResidualSize(n, d, xd), p, j)
  {
    var x, y := Iterate(d, xd, j), Iterate(d, xd, j + 1);
    ResidualIsBend(d, xd, x, y);
    assert SizeAt(n, Residual(d, xd, x)) && SizeAt(n, Residual(d, xd, y));
  }

  lemma ResidualShrinks(n: Size, d: Map, xd: Vec2, p: real, k: nat)
    requires IsSize(n) && p >= 0.0 && LipschitzOnIterates(n, d, xd, p, k)
    ensures n(Residual(d, xd, Iterate(d, xd, k))) <= Power(p, k) * n(Residual(d, xd, xd))
  {
    var e := ResidualSize(n, d, xd);
    forall j | 0 <= j < k
      ensures Shrinks(e, p, j)
    {
      assert LipschitzStep(n, d, xd, p, j);
      StepShrinks(n, d, xd, p, j);
    }
    assert Iterate(d, xd, 0) == xd;
    assert e(0) == n(Residual(d, xd, Iterate(d, xd, 0)));
    assert SizeAt(n, Residual(d, xd, xd));
    assert e(k) == n(Residual(d, xd, Iterate(d, xd, k)));
    ShrinksGeometrically(e, p, k);
  }

  // ---------------------------------------------------------- contraction in squared length

  function SquareSize(): Size {
    (a: Vec2) => Square(a)
  }

  lemma SquareNonNegative(a: Vec2)
    ensures Square(a) >= 0.0 && Square(Opposite(a)) == Square(a)
  {
  }

  lemma SquareIsSize()
    ensures IsSize(SquareSize())
  {
    var n := SquareSize();
    forall a: Vec2
      ensures SizeAt(n, a)
    {
      SquareNonNegative(a);
    }
  }

  /** If the bend is Lipschitz with constant q on the iterates, the residual after k steps is
      at most q^k times the first; all in squares. */
  lemma ResidualAfterSteps(d: Map, xd: Vec2, q: real, k: nat)
    requires q >= 0.0 && LipschitzOnIterates(SquareSize(), d, xd, q * q, k)
    ensures Square(Residual(d, xd, Iterate(d, xd, k))) <= Power(q * q, k) * Square(Residual(d, xd, xd))
  {
    SquareIsSize();
    Monotone(q, q, q, q);
    ResidualShrinks(SquareSize(), d, xd, q * q, k);
  }

  lemma RateBelow(q: real, e: real)
    requires 0.0 <= q <= 0.75 && 0.0 <= e <= 1.0
    ensures Power(q * q, 90) * e <= 0.6 * TOLERANCE2
  {
    Monotone(q, 0.75, q, 0.75);
    PowerBetween(q * q, 0.5625, 90);
    NinetySteps();
    Monotone(Power(q * q, 90), 0.6 * TOLERANCE2, e, 1.0);
  }

  /** With q at most three quarters and a first residual of at most one, the tolerance test is
      met within ninety steps. */
  lemma ConvergesInTime(d: Map, xd: Vec2, q: real)
    requires 0.0 <= q <= 0.75 && Square(Residual(d, xd, xd)) <= 1.0
    requires LipschitzOnIterates(SquareSize(), d, xd, q * q, 90)
    ensures Converged(d, xd, Iterate(d, xd, 90))
  {
    ResidualAfterSteps(d, xd, q, 90);
    SquareNonNegative(Residual(d, xd, xd));
    RateBelow(q, Square(Residual(d, xd, xd)));
  }
}
