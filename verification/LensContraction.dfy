/** A condition on the lens and the point under which the fixed-point inversion contracts:
    the Lipschitz constant of the radial and tangential terms over the unit square. */
module LensContraction {
  import opened CameraModels

  // ------------------------------------------------------- contraction in the larger coordinate

  function Abs(x: real): real {
    if x < 0.0 then -x else x
  }

  function Max(a: Vec2): real {
    if Abs(a.x) >= Abs(a.y) then Abs(a.x) else Abs(a.y)
  }

  function MaxSize(): Size {
    (a: Vec2) => Max(a)
  }

  lemma MaxIsSize()
    ensures IsSize(MaxSize())
  {
  }

  predicate Within(x: real, a: real) {
    -a <= x <= a
  }

  lemma TimesNonNegative(x: real, y: real)
    requires x >= 0.0 && y >= 0.0
    ensures x * y >= 0.0
  {
  }

  lemma WithinProduct(x: real, y: real, a: real, b: real)
    requires Within(x, a) && Within(y, b)
    ensures Within(x * y, a * b)
  {
    TimesNonNegative(a - x, b + y);
    TimesNonNegative(a + x, b - y);
    TimesNonNegative(a - x, b - y);
    TimesNonNegative(a + x, b + y);
  }

  /** Two values at most m in size and at most d apart. */
  predicate Near(u: real, v: real, m: real, d: real) {
    Within(u, m) && Within(v, m) && Within(u - v, d)
  }

  lemma Difference(u: real, v: real, u': real, v': real, du: real, du': real)
    requires du == u - v && du' == u' - v'
    ensures u * u' - v * v' == du * u' + v * du'
  {
  }

  lemma FromParts(p: real, q: real, n: real, a: real, am: real, b: real, bm: real, e: real)
    requires Within(p, n) && Within(q, n) && Within(a, am) && Within(b, bm) && p - q == a + b && e == am + bm
    ensures Near(p, q, n, e)
  {
  }

  lemma NearProduct(u: real, v: real, m: real, d: real, u': real, v': real, m': real, d': real)
    requires Near(u, v, m, d) && Near(u', v', m', d')
    ensures Near(u * u', v * v', m * m', d * m' + m * d')
  {
    var du, du' := u - v, u' - v';
    WithinProduct(u, u', m, m');
    WithinProduct(v, v', m, m');
    WithinProduct(du, u', d, m');
    WithinProduct(v, du', m, d');
    Difference(u, v, u', v', du, du');
    FromParts(u * u', v * v', m * m', du * u', d * m', v * du', m * d', d * m' + m * d');
  }

  lemma NearScale(k: real, n: real, u: real, v: real, m: real, d: real)
    requires Near(u, v, m, d) && Within(k, n)
    ensures Near(k * u, k * v, n * m, n * d)
  {
    WithinProduct(k, u, n, m);
    WithinProduct(k, v, n, m);
    WithinProduct(k, u - v, n, d);
    assert k * u - k * v == k * (u - v);
  }

  lemma NearSum(u: real, v: real, m: real, d: real, u': real, v': real, m': real, d': real)
    requires Near(u, v, m, d) && Near(u', v', m', d')
    ensures Near(u + u', v + v', m + m', d + d')
  {
  }

  lemma ScaleRate(n: real, l: real, e: real, d: real, l': real, d': real)
    requires d == l * e && l' == n * l && d' == l' * e
    ensures d' == n * d
  {
  }

  lemma NearSumRate(u: real, v: real, m: real, l: real, u': real, v': real, m': real, l': real, e: real, m'': real,
                    l'': real)
    requires Near(u, v, m, l * e) && Near(u', v', m', l' * e) && m'' == m + m' && l'' == l + l'
    ensures Near(u + u', v + v', m'', l'' * e)
  {
    NearSum(u, v, m, l * e, u', v', m', l' * e);
    assert l'' * e == l * e + l' * e;
  }

  lemma ProductRate(m: real, d: real, l: real, m': real, d': real, l': real, e: real, l'': real, d'': real)
    requires d == l * e && d' == l' * e && l'' == l * m' + m * l' && d'' == l'' * e
    ensures d'' == d * m' + m * d'
  {
    assert d'' == (l * m') * e + (m * l') * e;
  }

  // ---------------------------------------------------------- Lipschitz functions of a point

  type Field = Vec2 -> real

  /** Two points of the unit square with no coordinate more than e apart. */
  predicate Close(x: Vec2, y: Vec2, e: real) {
    Near(y.x, x.x, 1.0, e) && Near(y.y, x.y, 1.0, e)
  }

  predicate NearBy(f: Field, m: real, d: real, x: Vec2, y: Vec2) {
    Near(f(y), f(x), m, d)
  }

  predicate NearAt(f: Field, m: real, l: real, x: Vec2, y: Vec2, e: real) {
    NearBy(f, m, l * e, x, y)
  }

  /** Within the unit square, at most m in size and at most l times as far apart as the points. */
  ghost predicate Lipschitz(f: Field, m: real, l: real) {
    forall x, y, e :: Close(x, y, e) ==> NearAt(f, m, l, x, y, e)
  }

  function X(v: Vec2): real { v.x }

  function Y(v: Vec2): real { v.y }

  function Scaled(k: real, f: Field): Field {
    (v: Vec2) => k * f(v)
  }

  function Sum(f: Field, g: Field): Field {
    (v: Vec2) => f(v) + g(v)
  }

  function Times(f: Field, g: Field): Field {
    (v: Vec2) => f(v) * g(v)
  }

  lemma CoordinatesLipschitz()
    ensures Lipschitz(X, 1.0, 1.0) && Lipschitz(Y, 1.0, 1.0)
  {
  }

  lemma NearScaleAs(k: real, n: real, u: real, v: real, m: real, d: real, p: real, q: real, m': real, d': real)
    requires Near(u, v, m, d) && Within(k, n) && p == k * u && q == k * v && m' == n * m && d' == n * d
    ensures Near(p, q, m', d')
  {
    NearScale(k, n, u, v, m, d);
  }

  lemma ScaledNear(k: real, n: real, f: Field, m: real, d: real, x: Vec2, y: Vec2, m': real, d': real)
    requires NearBy(f, m, d, x, y) && Within(k, n) && m' == n * m && d' == n * d
    ensures NearBy(Scaled(k, f), m', d', x, y)
  {
    NearScaleAs(k, n, f(y), f(x), m, d, Scaled(k, f)(y), Scaled(k, f)(x), m', d');
  }

  lemma ScaledNearAt(f: Field, m: real, l: real, k: real, n: real, m': real, l': real, x: Vec2, y: Vec2, e: real)
    requires NearAt(f, m, l, x, y, e) && Within(k, n) && m' == n * m && l' == n * l
    ensures NearAt(Scaled(k, f), m', l', x, y, e)
  {
    var d, d' := l * e, l' * e;
    ScaleRate(n, l, e, d, l', d');
    ScaledNear(k, n, f, m, d, x, y, m', d');
  }

  lemma LipschitzScaled(f: Field, m: real, l: real, k: real, n: real, m': real, l': real)
    requires Lipschitz(f, m, l) && Within(k, n) && m' == n * m && l' == n * l
    ensures Lipschitz(Scaled(k, f), m', l')
  {
    forall x, y, e | Close(x, y, e)
      ensures NearAt(Scaled(k, f), m', l', x, y, e)
    {
      ScaledNearAt(f, m, l, k, n, m', l', x, y, e);
    }
  }

  lemma LipschitzSum(f: Field, m: real, l: real, g: Field, m': real, l': real, m'': real, l'': real)
    requires Lipschitz(f, m, l) && Lipschitz(g, m', l') && m'' == m + m' && l'' == l + l'
    ensures Lipschitz(Sum(f, g), m'', l'')
  {
    forall x, y, e | Close(x, y, e)
      ensures NearAt(Sum(f, g), m'', l'', x, y, e)
    {
      assert NearAt(f, m, l, x, y, e) && NearAt(g, m', l', x, y, e);
      NearSumRate(f(y), f(x), m, l, g(y), g(x), m', l', e, m'', l'');
    }
  }

  lemma NearProductAs(u: real, v: real, m: real, d: real, u': real, v': real, m': real, d': real, p: real, q: real,
                      m'': real, d'': real)
    requires Near(u, v, m, d) && Near(u', v', m', d') && p == u * u' && q == v * v' && m'' == m * m'
    requires d'' == d * m' + m * d'
    ensures Near(p, q, m'', d'')
  {
    NearProduct(u, v, m, d, u', v', m', d');
  }

  lemma TimesNear(f: Field, m: real, d: real, g: Field, m': real, d': real, x: Vec2, y: Vec2, m'': real, d'': real)
    requires NearBy(f, m, d, x, y) && NearBy(g, m', d', x, y) && m'' == m * m' && d'' == d * m' + m * d'
    ensures NearBy(Times(f, g), m'', d'', x, y)
  {
    NearProductAs(f(y), f(x), m, d, g(y), g(x), m', d', Times(f, g)(y), Times(f, g)(x), m'', d'');
  }

  lemma TimesNearAt(f: Field, m: real, l: real, g: Field, m': real, l': real, m'': real, l'': real, x: Vec2, y: Vec2,
                    e: real)
    requires NearAt(f, m, l, x, y, e) && NearAt(g, m', l', x, y, e) && m'' == m * m' && l'' == l * m' + m * l'
    ensures NearAt(Times(f, g), m'', l'', x, y, e)
  {
    var d, d', d'' := l * e, l' * e, l'' * e;
    ProductRate(m, d, l, m', d', l', e, l'', d'');
    TimesNear(f, m, d, g, m', d', x, y, m'', d'');
  }

  lemma LipschitzTimes(f: Field, m: real, l: real, g: Field, m': real, l': real, m'': real, l'': real)
    requires Lipschitz(f, m, l) && Lipschitz(g, m', l') && m'' == m * m' && l'' == l * m' + m * l'
    ensures Lipschitz(Times(f, g), m'', l'')
  {
    forall x, y, e | Close(x, y, e)
      ensures NearAt(Times(f, g), m'', l'', x, y, e)
    {
      assert NearAt(f, m, l, x, y, e) && NearAt(g, m', l', x, y, e);
      TimesNearAt(f, m, l, g, m', l', m'', l'', x, y, e);
    }
  }

  // --------------------------------------------------- the radial bend's Lipschitz constant

  /** How much the bend changes at most over a step in the unit square, per unit. */
  function Constant(c: Lens): real {
    6.0 * Abs(c.k1) + 20.0 * Abs(c.k2) + 56.0 * Abs(c.k3) + 8.0 * (Abs(c.p1) + Abs(c.p2))
  }

  /** The powers of the squared radius. */
  function R2(): Field { Sum(Times(X, X), Times(Y, Y)) }

  function R4(): Field { Times(R2(), R2()) }

  function R6(): Field { Times(R4(), R2()) }

  lemma RadiusLipschitz()
    ensures Lipschitz(R2(), 2.0, 4.0) && Lipschitz(R4(), 4.0, 16.0) && Lipschitz(R6(), 8.0, 48.0)
  {
    CoordinatesLipschitz();
    LipschitzTimes(X, 1.0, 1.0, X, 1.0, 1.0, 1.0, 2.0);
    LipschitzTimes(Y, 1.0, 1.0, Y, 1.0, 1.0, 1.0, 2.0);
    LipschitzSum(Times(X, X), 1.0, 2.0, Times(Y, Y), 1.0, 2.0, 2.0, 4.0);
    LipschitzTimes(R2(), 2.0, 4.0, R2(), 2.0, 4.0, 4.0, 16.0);
    LipschitzTimes(R4(), 4.0, 16.0, R2(), 2.0, 4.0, 8.0, 48.0);
  }

  /** The radial part of a coordinate: the coordinate times a polynomial in the squared radius. */
  function RadialPart(k1: real, k2: real, k3: real): Field {
    Sum(Sum(Scaled(k1, Times(X, R2())), Scaled(k2, Times(X, R4()))), Scaled(k3, Times(X, R6())))
  }

  lemma RadialTermsLipschitz()
    ensures Lipschitz(Times(X, R2()), 2.0, 6.0) && Lipschitz(Times(X, R4()), 4.0, 20.0)
    ensures Lipschitz(Times(X, R6()), 8.0, 56.0)
  {
    CoordinatesLipschitz();
    RadiusLipschitz();
    LipschitzTimes(X, 1.0, 1.0, R2(), 2.0, 4.0, 2.0, 6.0);
    LipschitzTimes(X, 1.0, 1.0, R4(), 4.0, 16.0, 4.0, 20.0);
    LipschitzTimes(X, 1.0, 1.0, R6(), 8.0, 48.0, 8.0, 56.0);
  }

  lemma RadialLipschitz(k1: real, k2: real, k3: real, n1: real, n2: real, n3: real) returns (m: real)
    requires Within(k1, n1) && Within(k2, n2) && Within(k3, n3)
    ensures Lipschitz(RadialPart(k1, k2, k3), m, n1 * 6.0 + n2 * 20.0 + n3 * 56.0)
  {
    RadialTermsLipschitz();
    var f, g, h := Times(X, R2()), Times(X, R4()), Times(X, R6());
    LipschitzScaled(f, 2.0, 6.0, k1, n1, n1 * 2.0, n1 * 6.0);
    LipschitzScaled(g, 4.0, 20.0, k2, n2, n2 * 4.0, n2 * 20.0);
    LipschitzScaled(h, 8.0, 56.0, k3, n3, n3 * 8.0, n3 * 56.0);
    LipschitzSum(Scaled(k1, f), n1 * 2.0, n1 * 6.0, Scaled(k2, g), n2 * 4.0, n2 * 20.0,
                 n1 * 2.0 + n2 * 4.0, n1 * 6.0 + n2 * 20.0);
    m := n1 * 2.0 + n2 * 4.0 + n3 * 8.0;
    LipschitzSum(Sum(Scaled(k1, f), Scaled(k2, g)), n1 * 2.0 + n2 * 4.0, n1 * 6.0 + n2 * 20.0, Scaled(k3, h),
                 n3 * 8.0, n3 * 56.0,
                 m, n1 * 6.0 + n2 * 20.0 + n3 * 56.0);
  }

  function Tangential(): Field { Sum(R2(), Scaled(2.0, Times(X, X))) }

  lemma TangentialLipschitz()
    ensures Lipschitz(Times(X, Y), 1.0, 2.0) && Lipschitz(Tangential(), 4.0, 8.0)
  {
    CoordinatesLipschitz();
    RadiusLipschitz();
    LipschitzTimes(X, 1.0, 1.0, Y, 1.0, 1.0, 1.0, 2.0);
    LipschitzTimes(X, 1.0, 1.0, X, 1.0, 1.0, 1.0, 2.0);
    LipschitzScaled(Times(X, X), 1.0, 2.0, 2.0, 2.0, 2.0, 4.0);
    LipschitzSum(R2(), 2.0, 4.0, Scaled(2.0, Times(X, X)), 2.0, 4.0, 4.0, 8.0);
  }

  /** A component of the bend, with p its mixed and p' its tangential coefficient. */
  function Component(k1: real, k2: real, k3: real, p: real, p': real): Field {
    Sum(Sum(RadialPart(k1, k2, k3), Scaled(2.0 * p, Times(X, Y))), Scaled(p', Tangential()))
  }

  lemma ComponentLipschitz(k1: real, k2: real, k3: real, p: real, p': real, m: real, l: real, n: real, n': real)
    returns (m': real)
    requires Lipschitz(RadialPart(k1, k2, k3), m, l) && Within(p, n) && Within(p', n')
    ensures Lipschitz(Component(k1, k2, k3, p, p'), m', l + 2.0 * n * 2.0 + n' * 8.0)
  {
    TangentialLipschitz();
    var f, g := Scaled(2.0 * p, Times(X, Y)), Scaled(p', Tangential());
    LipschitzScaled(Times(X, Y), 1.0, 2.0, 2.0 * p, 2.0 * n, 2.0 * n, 2.0 * n * 2.0);
    LipschitzScaled(Tangential(), 4.0, 8.0, p', n', n' * 4.0, n' * 8.0);
    LipschitzSum(RadialPart(k1, k2, k3), m, l, f, 2.0 * n, 2.0 * n * 2.0, m + 2.0 * n, l + 2.0 * n * 2.0);
    m' := m + 2.0 * n + n' * 4.0;
    LipschitzSum(Sum(RadialPart(k1, k2, k3), f), m + 2.0 * n, l + 2.0 * n * 2.0, g, n' * 4.0, n' * 8.0,
                 m', l + 2.0 * n * 2.0 + n' * 8.0);
  }

  // ------------------------------------------------------------- the bend by its components

  function Swapped(v: Vec2): Vec2 { Vec2(v.y, v.x) }

  lemma ScaledAt(k: real, f: Field, v: Vec2, x: real, r: real)
    requires f(v) == x && r == k * x
    ensures Scaled(k, f)(v) == r
  {
  }

  lemma SumAt(f: Field, g: Field, v: Vec2, x: real, y: real, r: real)
    requires f(v) == x && g(v) == y && r == x + y
    ensures Sum(f, g)(v) == r
  {
  }

  lemma TimesAt(f: Field, g: Field, v: Vec2, x: real, y: real, r: real)
    requires f(v) == x && g(v) == y && r == x * y
    ensures Times(f, g)(v) == r
  {
  }

  lemma CoordinatesAt(f: Field, g: Field, v: Vec2)
    requires f == X && g == Y
    ensures f(v) == v.x && g(v) == v.y
  {
  }

  lemma RadiusAt(v: Vec2, u2: real, w2: real, s: real, s4: real, s6: real)
    requires u2 == v.x * v.x && w2 == v.y * v.y && s == u2 + w2 && s4 == s * s && s6 == s4 * s
    ensures R2()(v) == s && R4()(v) == s4 && R6()(v) == s6
  {
    CoordinatesAt(X, Y, v);
    TimesAt(X, X, v, v.x, v.x, u2);
    TimesAt(Y, Y, v, v.y, v.y, w2);
    SumAt(Times(X, X), Times(Y, Y), v, u2, w2, s);
    TimesAt(R2(), R2(), v, s, s, s4);
    TimesAt(R4(), R2(), v, s4, s, s6);
  }

  /** A coefficient times the coordinate times a power of the radius. */
  lemma TermAt(k: real, f: Field, v: Vec2, s: real, r: real)
    requires f(v) == s && r == k * (v.x * s)
    ensures Scaled(k, Times(X, f))(v) == r
  {
    var p := v.x * s;
    CoordinatesAt(X, Y, v);
    TimesAt(X, f, v, v.x, s, p);
    ScaledAt(k, Times(X, f), v, p, r);
  }

  function RadialTerms(k1: real, k2: real, k3: real, u: real, s: real, s4: real, s6: real): real {
    k1 * (u * s) + k2 * (u * s4) + k3 * (u * s6)
  }

  function MixedTerm(p: real, u: real, w: real): real {
    (2.0 * p) * (u * w)
  }

  function TangentialTerm(p: real, s: real, u2: real): real {
    p * (s + 2.0 * u2)
  }

  /** A component of the bend in the powers of the radius and the square of the coordinate. */
  function Terms(k1: real, k2: real, k3: real, p: real, p': real, u: real, w: real, u2: real, s: real, s4: real,
                 s6: real): real {
    RadialTerms(k1, k2, k3, u, s, s4, s6) + MixedTerm(p, u, w) + TangentialTerm(p', s, u2)
  }

  lemma RadialPartAt(k1: real, k2: real, k3: real, v: Vec2, s: real, s4: real, s6: real)
    requires R2()(v) == s && R4()(v) == s4 && R6()(v) == s6
    ensures RadialPart(k1, k2, k3)(v) == RadialTerms(k1, k2, k3, v.x, s, s4, s6)
  {
    var a, b, c := k1 * (v.x * s), k2 * (v.x * s4), k3 * (v.x * s6);
    TermAt(k1, R2(), v, s, a);
    TermAt(k2, R4(), v, s4, b);
    TermAt(k3, R6(), v, s6, c);
    ThreeAt(Scaled(k1, Times(X, R2())), Scaled(k2, Times(X, R4())), Scaled(k3, Times(X, R6())), v, a, b, c);
  }

  lemma ThreeAt(f: Field, g: Field, h: Field, v: Vec2, a: real, b: real, c: real)
    requires f(v) == a && g(v) == b && h(v) == c
    ensures Sum(Sum(f, g), h)(v) == a + b + c
  {
  }

  lemma MixedAt(p: real, v: Vec2)
    ensures Scaled(2.0 * p, Times(X, Y))(v) == MixedTerm(p, v.x, v.y)
  {
    CoordinatesAt(X, Y, v);
    TimesAt(X, Y, v, v.x, v.y, v.x * v.y);
    ScaledAt(2.0 * p, Times(X, Y), v, v.x * v.y, (2.0 * p) * (v.x * v.y));
  }

  lemma TangentialAt(p: real, v: Vec2, s: real, u2: real)
    requires R2()(v) == s && u2 == v.x * v.x
    ensures Scaled(p, Tangential())(v) == TangentialTerm(p, s, u2)
  {
    var t := s + 2.0 * u2;
    CoordinatesAt(X, Y, v);
    TimesAt(X, X, v, v.x, v.x, u2);
    ScaledAt(2.0, Times(X, X), v, u2, 2.0 * u2);
    SumAt(R2(), Scaled(2.0, Times(X, X)), v, s, 2.0 * u2, t);
    ScaledAt(p, Tangential(), v, t, p * t);
  }

  lemma ComponentAt(k1: real, k2: real, k3: real, p: real, p': real, v: Vec2, s: real, s4: real, s6: real, u2: real)
    requires R2()(v) == s && R4()(v) == s4 && R6()(v) == s6 && u2 == v.x * v.x
    ensures Component(k1, k2, k3, p, p')(v) == Terms(k1, k2, k3, p, p', v.x, v.y, u2, s, s4, s6)
  {
    RadialPartAt(k1, k2, k3, v, s, s4, s6);
    MixedAt(p, v);
    TangentialAt(p', v, s, u2);
    ThreeAt(RadialPart(k1, k2, k3), Scaled(2.0 * p, Times(X, Y)), Scaled(p', Tangential()), v,
            RadialTerms(k1, k2, k3, v.x, s, s4, s6), MixedTerm(p, v.x, v.y), TangentialTerm(p', s, u2));
  }

  predicate IsRadial(radial: real, k1: real, k2: real, k3: real, s: real, s4: real, s6: real) {
    radial == 1.0 + k1 * s + k2 * s4 + k3 * s6
  }

  predicate IsCoordinate(r: real, u: real, radial: real, m: real, p: real, s: real, u2: real) {
    r == u * radial + m + p * (s + 2.0 * u2)
  }

  /** A distorted coordinate less the coordinate itself, in the same powers. */
  lemma CoordinateTerms(k1: real, k2: real, k3: real, p: real, p': real, u: real, w: real, u2: real, s: real, s4: real,
                        s6: real, radial: real, m: real, r: real)
    requires IsRadial(radial, k1, k2, k3, s, s4, s6) && m == MixedTerm(p, u, w)
    requires IsCoordinate(r, u, radial, m, p', s, u2)
    ensures r - u == Terms(k1, k2, k3, p, p', u, w, u2, s, s4, s6)
  {
    assert u * radial == u + k1 * (u * s) + k2 * (u * s4) + k3 * (u * s6);
  }

  lemma MixedProduct(p: real, x: real, y: real)
    ensures 2.0 * p * x * y == MixedTerm(p, x, y) == MixedTerm(p, y, x)
  {
  }

  /** The squares and the powers of the radius at a point. */
  predicate PowersAt(v: Vec2, u2: real, w2: real, s: real, s4: real, s6: real) {
    u2 == Squared(v.x) && w2 == Squared(v.y) && s == SquaredRadius(v) && s4 == s * s && s6 == s4 * s
  }

  /** The two distorted coordinates, with the factors named. */
  lemma DistortedBy(c: Lens, v: Vec2, u2: real, w2: real, s: real, s4: real, s6: real)
    returns (radial: real, m: real, n: real)
    requires PowersAt(v, u2, w2, s, s4, s6)
    ensures IsRadial(radial, c.k1, c.k2, c.k3, s, s4, s6)
    ensures m == MixedTerm(c.p1, v.x, v.y) && n == MixedTerm(c.p2, v.y, v.x)
    ensures IsCoordinate(DistortUnit(c, v).x, v.x, radial, m, c.p2, s, u2)
    ensures IsCoordinate(DistortUnit(c, v).y, v.y, radial, n, c.p1, s, w2)
  {
    radial := 1.0 + c.k1 * s + c.k2 * s4 + c.k3 * s6;
    m, n := 2.0 * c.p1 * v.x * v.y, 2.0 * c.p2 * v.x * v.y;
    MixedProduct(c.p1, v.x, v.y);
    MixedProduct(c.p2, v.x, v.y);
    assert DistortUnit(c, v) == DistortWith(c, v, u2, w2, s);
  }

  lemma Powers(v: Vec2) returns (u2: real, w2: real, s: real, s4: real, s6: real)
    ensures PowersAt(v, u2, w2, s, s4, s6) && R2()(v) == s && R4()(v) == s4 && R6()(v) == s6
    ensures R2()(Swapped(v)) == s && R4()(Swapped(v)) == s4 && R6()(Swapped(v)) == s6
  {
    u2, w2, s := Squared(v.x), Squared(v.y), SquaredRadius(v);
    s4 := s * s;
    s6 := s4 * s;
    RadiusAt(v, u2, w2, s, s4, s6);
    RadiusAt(Swapped(v), w2, u2, s, s4, s6);
  }

  lemma FirstTerms(c: Lens, v: Vec2, u2: real, w2: real, s: real, s4: real, s6: real)
    requires PowersAt(v, u2, w2, s, s4, s6)
    ensures Bend(Radial(c), v).x == Terms(c.k1, c.k2, c.k3, c.p1, c.p2, v.x, v.y, u2, s, s4, s6)
  {
    var radial, m, n := DistortedBy(c, v, u2, w2, s, s4, s6);
    CoordinateTerms(c.k1, c.k2, c.k3, c.p1, c.p2, v.x, v.y, u2, s, s4, s6, radial, m, DistortUnit(c, v).x);
  }

  lemma SecondTerms(c: Lens, v: Vec2, u2: real, w2: real, s: real, s4: real, s6: real)
    requires PowersAt(v, u2, w2, s, s4, s6)
    ensures Bend(Radial(c), v).y == Terms(c.k1, c.k2, c.k3, c.p2, c.p1, v.y, v.x, w2, s, s4, s6)
  {
    var radial, m, n := DistortedBy(c, v, u2, w2, s, s4, s6);
    CoordinateTerms(c.k1, c.k2, c.k3, c.p2, c.p1, v.y, v.x, w2, s, s4, s6, radial, n, DistortUnit(c, v).y);
  }

  lemma FirstComponent(c: Lens, v: Vec2)
    ensures Bend(Radial(c), v).x == Component(c.k1, c.k2, c.k3, c.p1, c.p2)(v)
  {
    var u2, w2, s, s4, s6 := Powers(v);
    ComponentAt(c.k1, c.k2, c.k3, c.p1, c.p2, v, s, s4, s6, u2);
    FirstTerms(c, v, u2, w2, s, s4, s6);
  }

  lemma SecondComponent(c: Lens, v: Vec2)
    ensures Bend(Radial(c), v).y == Component(c.k1, c.k2, c.k3, c.p2, c.p1)(Swapped(v))
  {
    var u2, w2, s, s4, s6 := Powers(v);
    ComponentAt(c.k1, c.k2, c.k3, c.p2, c.p1, Swapped(v), s, s4, s6, w2);
    SecondTerms(c, v, u2, w2, s, s4, s6);
  }

  /** The bend is its two components, the second with the coordinates swapped. */
  lemma BendComponents(c: Lens, v: Vec2)
    ensures Bend(Radial(c), v).x == Component(c.k1, c.k2, c.k3, c.p1, c.p2)(v)
    ensures Bend(Radial(c), v).y == Component(c.k1, c.k2, c.k3, c.p2, c.p1)(Swapped(v))
  {
    FirstComponent(c, v);
    SecondComponent(c, v);
  }

  // --------------------------------------------------------------- contraction of the iterates

  lemma DistanceOf(x: Vec2, y: Vec2) returns (e: real)
    requires Max(x) <= 1.0 && Max(y) <= 1.0
    ensures e == Max(Minus(y, x)) && e >= 0.0 && Close(x, y, e)
  {
    e := Max(Minus(y, x));
  }

  lemma WithinMax(a: Vec2, m: real)
    requires Within(a.x, m) && Within(a.y, m)
    ensures Max(a) <= m
  {
  }

  lemma Enlarged(x: real, a: real, k: real, e: real)
    requires Within(x, a * e) && a <= k && e >= 0.0
    ensures Within(x, k * e)
  {
    TimesNonNegative(k - a, e);
  }

  lemma ComponentsToMax(d: Map, k: real, x: Vec2, y: Vec2, e: real)
    requires e == Max(Minus(y, x))
    requires Within(Bend(d, y).x - Bend(d, x).x, k * e) && Within(Bend(d, y).y - Bend(d, x).y, k * e)
    ensures LipschitzAt(MaxSize(), d, k, x, y)
  {
    WithinMax(Minus(Bend(d, y), Bend(d, x)), k * e);
  }

  lemma SwappedClose(x: Vec2, y: Vec2, e: real)
    requires Close(x, y, e)
    ensures Close(Swapped(x), Swapped(y), e)
  {
  }

  /** Lipschitz components change at most at the larger rate. */
  lemma ComponentsChange(d: Map, f: Field, m: real, a: real, g: Field, m': real, b: real, k: real, x: Vec2, y: Vec2,
                         e: real)
    requires e >= 0.0 && Close(x, y, e) && Lipschitz(f, m, a) && Lipschitz(g, m', b) && a <= k && b <= k
    requires Bend(d, x).x == f(x) && Bend(d, x).y == g(Swapped(x)) && Bend(d, y).x == f(y)
    requires Bend(d, y).y == g(Swapped(y))
    ensures Within(Bend(d, y).x - Bend(d, x).x, k * e) && Within(Bend(d, y).y - Bend(d, x).y, k * e)
  {
    SwappedClose(x, y, e);
    assert NearAt(f, m, a, x, y, e);
    assert NearAt(g, m', b, Swapped(x), Swapped(y), e);
    Enlarged(f(y) - f(x), a, k, e);
    Enlarged(g(Swapped(y)) - g(Swapped(x)), b, k, e);
  }

  /** Lipschitz components make the larger coordinate Lipschitz. */
  lemma LargestComponent(d: Map, f: Field, m: real, a: real, g: Field, m': real, b: real, k: real, x: Vec2, y: Vec2)
    requires Max(x) <= 1.0 && Max(y) <= 1.0 && Lipschitz(f, m, a) && Lipschitz(g, m', b) && a <= k && b <= k
    requires Bend(d, x).x == f(x) && Bend(d, x).y == g(Swapped(x)) && Bend(d, y).x == f(y)
    requires Bend(d, y).y == g(Swapped(y))
    ensures LipschitzAt(MaxSize(), d, k, x, y)
  {
    var e := DistanceOf(x, y);
    ComponentsChange(d, f, m, a, g, m', b, k, x, y, e);
    ComponentsToMax(d, k, x, y, e);
  }

  lemma RatesBelow(c: Lens, l: real)
    requires l == Abs(c.k1) * 6.0 + Abs(c.k2) * 20.0 + Abs(c.k3) * 56.0
    ensures l + 2.0 * Abs(c.p1) * 2.0 + Abs(c.p2) * 8.0 <= Constant(c)
    ensures l + 2.0 * Abs(c.p2) * 2.0 + Abs(c.p1) * 8.0 <= Constant(c)
  {
  }

  lemma AbsWithin(k: real)
    ensures Within(k, Abs(k)) && Abs(k) >= 0.0
  {
  }

  /** In the unit square the bend is Lipschitz with the lens's constant. */
  lemma BendLipschitz(c: Lens, x: Vec2, y: Vec2)
    requires Max(x) <= 1.0 && Max(y) <= 1.0
    ensures LipschitzAt(MaxSize(), Radial(c), Constant(c), x, y)
  {
    AbsWithin(c.k1);
    AbsWithin(c.k2);
    AbsWithin(c.k3);
    AbsWithin(c.p1);
    AbsWithin(c.p2);
    var l := Abs(c.k1) * 6.0 + Abs(c.k2) * 20.0 + Abs(c.k3) * 56.0;
    var m := RadialLipschitz(c.k1, c.k2, c.k3, Abs(c.k1), Abs(c.k2), Abs(c.k3));
    var mx := ComponentLipschitz(c.k1, c.k2, c.k3, c.p1, c.p2, m, l, Abs(c.p1), Abs(c.p2));
    var my := ComponentLipschitz(c.k1, c.k2, c.k3, c.p2, c.p1, m, l, Abs(c.p2), Abs(c.p1));
    RatesBelow(c, l);
    BendComponents(c, x);
    BendComponents(c, y);
    LargestComponent(Radial(c), Component(c.k1, c.k2, c.k3, c.p1, c.p2), mx,
                     l + 2.0 * Abs(c.p1) * 2.0 + Abs(c.p2) * 8.0,
                     Component(c.k1, c.k2, c.k3, c.p2, c.p1), my, l + 2.0 * Abs(c.p2) * 2.0 + Abs(c.p1) * 8.0,
                     Constant(c), x, y);
  }

  // ------------------------------------------------------------------- the iteration converges

  const ORIGIN := Vec2(0.0, 0.0)

  predicate NormAt(n: Size, a: Vec2, b: Vec2) {
    n(Minus(a, b)) <= n(a) + n(b)
  }

  ghost predicate IsNorm(n: Size) {
    IsSize(n) && n(ORIGIN) == 0.0 && forall a, b :: NormAt(n, a, b)
  }

  predicate ContractsAt(n: Size, d: Map, q: real, x: Vec2, y: Vec2) {
    n(x) <= 1.0 && n(y) <= 1.0 ==> LipschitzAt(n, d, q, x, y)
  }

  predicate FixesOrigin(d: Map) {
    Bend(d, ORIGIN) == ORIGIN
  }

  /** The bend is Lipschitz with constant q between any two points of size at most one. */
  ghost predicate Contracting(n: Size, d: Map, q: real) {
    q >= 0.0 && FixesOrigin(d) && forall x, y :: ContractsAt(n, d, q, x, y)
  }

  lemma FromOrigin(a: Vec2)
    ensures Minus(a, ORIGIN) == a
  {
  }

  lemma RateAtMostOne(q: real, e: real, r: real)
    requires 0.0 <= e <= 1.0 && q >= 0.0 && r <= q * e
    ensures r <= q
  {
    Monotone(q, q, e, 1.0);
  }

  lemma SmallFromOrigin(n: Size, d: Map, q: real, x: Vec2)
    requires Bend(d, ORIGIN) == ORIGIN && LipschitzAt(n, d, q, ORIGIN, x)
    ensures n(Bend(d, x)) <= q * n(x)
  {
    FromOrigin(Bend(d, x));
    FromOrigin(x);
  }

  /** In the unit ball the bend is no longer than the constant. */
  lemma BendSmall(n: Size, d: Map, q: real, x: Vec2)
    requires IsNorm(n) && Contracting(n, d, q) && n(x) <= 1.0
    ensures n(Bend(d, x)) <= q
  {
    assert ContractsAt(n, d, q, ORIGIN, x);
    assert SizeAt(n, x);
    SmallFromOrigin(n, d, q, x);
    RateAtMostOne(q, n(x), n(Bend(d, x)));
  }

  lemma NextByBend(d: Map, xd: Vec2, x: Vec2)
    ensures Minus(x, Residual(d, xd, x)) == Minus(xd, Bend(d, x))
  {
  }

  lemma {:induction false} IteratesInside(n: Size, d: Map, q: real, xd: Vec2, k: nat)
    requires IsNorm(n) && Contracting(n, d, q) && n(xd) <= 1.0 - q
    ensures n(Iterate(d, xd, k)) <= 1.0
  {
    if k > 0 {
      var x := Iterate(d, xd, k - 1);
      IteratesInside(n, d, q, xd, k - 1);
      BendSmall(n, d, q, x);
      NextByBend(d, xd, x);
      assert NormAt(n, xd, Bend(d, x));
    }
  }

  lemma ContractsOnIterates(n: Size, d: Map, q: real, xd: Vec2, k: nat)
    requires IsNorm(n) && Contracting(n, d, q) && n(xd) <= 1.0 - q
    ensures LipschitzOnIterates(n, d, xd, q, k)
  {
    forall j | 0 <= j < k
      ensures LipschitzStep(n, d, xd, q, j)
    {
      IteratesInside(n, d, q, xd, j);
      IteratesInside(n, d, q, xd, j + 1);
      assert ContractsAt(n, d, q, Iterate(d, xd, j), Iterate(d, xd, j + 1));
    }
  }

  /** The size of the residual after k steps. */
  lemma ResidualAfter(n: Size, d: Map, q: real, xd: Vec2, k: nat)
    requires IsNorm(n) && Contracting(n, d, q) && n(xd) <= 1.0 - q
    ensures n(Residual(d, xd, Iterate(d, xd, k))) <= Power(q, k) * n(Residual(d, xd, xd))
  {
    ContractsOnIterates(n, d, q, xd, k);
    ResidualShrinks(n, d, xd, q, k);
  }

  lemma FirstResidual(n: Size, d: Map, q: real, xd: Vec2)
    requires IsNorm(n) && Contracting(n, d, q) && n(xd) <= 1.0 - q
    ensures 0.0 <= n(Residual(d, xd, xd)) <= q
  {
    BendSmall(n, d, q, xd);
    assert Residual(d, xd, xd) == Bend(d, xd);
    assert SizeAt(n, Bend(d, xd));
  }

  // ------------------------------------------------------------------------------ the numbers

  lemma {:induction false} PowerSquare(q: real, k: nat)
    ensures Power(q, k) * Power(q, k) == Power(q * q, k)
  {
    if k > 0 {
      PowerSquare(q, k - 1);
      var p := Power(q, k - 1);
      assert (q * p) * (q * p) == (q * q) * (p * p);
    }
  }

  lemma SquareBelowMax(a: Vec2, m: real)
    requires Max(a) <= m
    ensures Square(a) <= 2.0 * (m * m)
  {
    MaxBounds(a, m);
    WithinProduct(a.x, a.x, m, m);
    WithinProduct(a.y, a.y, m, m);
  }

  lemma MaxBounds(a: Vec2, m: real)
    requires Max(a) <= m
    ensures Within(a.x, m) && Within(a.y, m)
  {
  }

  lemma SmallAfterNinety(e: real, m: real)
    requires 0.0 <= e <= 0.75 && m == Power(0.75, 90) * e
    ensures 2.0 * (m * m) < TOLERANCE2
  {
    var p := Power(0.75, 90);
    PowerSquare(0.75, 90);
    PowerBetween(0.75, 0.75, 90);
    NinetySteps();
    Monotone(e, 0.75, e, 0.75);
    Monotone(p * p, 0.6 * TOLERANCE2, e * e, 0.5625);
    assert m * m == (p * p) * (e * e);
  }

  lemma RateOfResidual(q: real, e: real, r: real)
    requires 0.0 <= q <= 0.75 && e >= 0.0 && r <= Power(q, 90) * e
    ensures r <= Power(0.75, 90) * e
  {
    PowerBetween(q, 0.75, 90);
    Monotone(Power(q, 90), Power(0.75, 90), e, e);
  }

  lemma SmallResidual(a: Vec2, q: real, e: real)
    requires 0.0 <= q <= 0.75 && 0.0 <= e <= 0.75 && Max(a) <= Power(q, 90) * e
    ensures Square(a) < TOLERANCE2
  {
    var m := Power(0.75, 90) * e;
    RateOfResidual(q, e, Max(a));
    SquareBelowMax(a, m);
    SmallAfterNinety(e, m);
  }

  // ------------------------------------------------------------------------------- the result

  lemma MaxIsNorm()
    ensures IsNorm(MaxSize())
  {
    MaxIsSize();
  }

  lemma LensContractsAt(c: Lens, x: Vec2, y: Vec2)
    ensures ContractsAt(MaxSize(), Radial(c), Constant(c), x, y)
  {
    if Max(x) <= 1.0 && Max(y) <= 1.0 {
      BendLipschitz(c, x, y);
    }
  }

  lemma LensContractsEverywhere(c: Lens)
    ensures forall x, y :: ContractsAt(MaxSize(), Radial(c), Constant(c), x, y)
  {
    forall x, y
      ensures ContractsAt(MaxSize(), Radial(c), Constant(c), x, y)
    {
      LensContractsAt(c, x, y);
    }
  }

  lemma LensContracts(c: Lens)
    ensures Contracting(MaxSize(), Radial(c), Constant(c))
  {
    LensFixesOrigin(c);
    ConstantNonNegative(c);
    LensContractsEverywhere(c);
  }

  lemma LensFixesOrigin(c: Lens)
    ensures FixesOrigin(Radial(c))
  {
    var radial, m, n := DistortedBy(c, ORIGIN, 0.0, 0.0, 0.0, 0.0, 0.0);
  }

  lemma ConstantNonNegative(c: Lens)
    ensures Constant(c) >= 0.0
  {
  }

  /** The lens bends little enough, and the point is far enough inside the unit square. */
  predicate Tame(c: Lens, xd: Vec2) {
    LeavesRoom(Constant(c), xd)
  }

  predicate LeavesRoom(q: real, xd: Vec2) {
    q <= 0.75 && Max(xd) <= 1.0 - q
  }

  lemma MeasuredBy(n: Size, d: Map, q: real, xd: Vec2) returns (r: Vec2, e: real)
    requires IsNorm(n) && Contracting(n, d, q) && q <= 0.75 && n(xd) <= 1.0 - q
    ensures r == Residual(d, xd, Iterate(d, xd, 90)) && 0.0 <= e <= 0.75 && n(r) <= Power(q, 90) * e
  {
    r := Residual(d, xd, Iterate(d, xd, 90));
    e := n(Residual(d, xd, xd));
    ResidualAfter(n, d, q, xd, 90);
    FirstResidual(n, d, q, xd);
  }

  lemma Measured(d: Map, q: real, xd: Vec2) returns (r: Vec2, e: real)
    requires Contracting(MaxSize(), d, q) && LeavesRoom(q, xd)
    ensures r == Residual(d, xd, Iterate(d, xd, 90)) && 0.0 <= e <= 0.75 && Max(r) <= Power(q, 90) * e
  {
    var n := MaxSize();
    MaxIsNorm();
    r, e := MeasuredBy(n, d, q, xd);
  }

  lemma ContractingConverges(d: Map, q: real, xd: Vec2)
    requires Contracting(MaxSize(), d, q) && LeavesRoom(q, xd)
    ensures ConvergedAt(d, xd, 90)
  {
    var r, e := Measured(d, q, xd);
    SmallResidual(r, q, e);
  }

  /** For every tame lens and point the tolerance test is met within ninety steps, so the loop
      never runs out of iterations. */
  lemma UndistortSucceeds(c: Lens, xd: Vec2)
    requires Tame(c, xd)
    ensures ConvergedAt(Radial(c), xd, 90)
  {
    LensContracts(c);
    ContractingConverges(Radial(c), Constant(c), xd);
  }
}
