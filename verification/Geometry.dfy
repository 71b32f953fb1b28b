/** Vectors, quaternions and rigid transforms over the reals
    (core/geometry/quaternion.h, core/geometry/se3.h). */
module Geometry {

  datatype Vec3 = Vec3(x: real, y: real, z: real)

  const ZERO3 := Vec3(0.0, 0.0, 0.0)

  function Add(a: Vec3, b: Vec3): Vec3 {
    Vec3(a.x + b.x, a.y + b.y, a.z + b.z)
  }

  function Sub(a: Vec3, b: Vec3): Vec3 {
    Vec3(a.x - b.x, a.y - b.y, a.z - b.z)
  }

  function Neg(a: Vec3): Vec3 {
    Vec3(-a.x, -a.y, -a.z)
  }

  function Scale(k: real, a: Vec3): Vec3 {
    Vec3(k * a.x, k * a.y, k * a.z)
  }

  lemma ScaleTerms(k: real, v: Vec3)
    ensures Scale(k, v).x == k * v.x && Scale(k, v).y == k * v.y && Scale(k, v).z == k * v.z
  {
  }

  function Dot(a: Vec3, b: Vec3): real {
    a.x * b.x + a.y * b.y + a.z * b.z
  }

  function Cross(a: Vec3, b: Vec3): Vec3 {
    Vec3(a.y * b.z - a.z * b.y, a.z * b.x - a.x * b.z, a.x * b.y - a.y * b.x)
  }

  function Norm2(a: Vec3): real {
    Dot(a, a)
  }

  // ---------------------------------------------------------------- quaternions

  /** Scalar-last storage, as in core/geometry/quaternion.h. */
  datatype Quat = Quat(x: real, y: real, z: real, w: real)

  const QUAT_ONE := Quat(0.0, 0.0, 0.0, 1.0)

  function Axis(q: Quat): Vec3 {
    Vec3(q.x, q.y, q.z)
  }

  function QNorm2(q: Quat): real {
    q.x * q.x + q.y * q.y + q.z * q.z + q.w * q.w
  }

  predicate Unit(q: Quat) {
    QNorm2(q) == 1.0
  }

  function Conj(q: Quat): Quat {
    Quat(-q.x, -q.y, -q.z, q.w)
  }

  function QMul(a: Quat, b: Quat): Quat {
    Quat(a.w * b.x + a.x * b.w + a.y * b.z - a.z * b.y,
         a.w * b.y + a.y * b.w + a.z * b.x - a.x * b.z,
         a.w * b.z + a.z * b.w + a.x * b.y - a.y * b.x,
         a.w * b.w - a.x * b.x - a.y * b.y - a.z * b.z)
  }

  /** The library inverse: conjugate over squared norm, and the zero quaternion for zero. */
  function QInverse(q: Quat): Quat {
    var n := QNorm2(q);
    if n > 0.0 then Quat(-q.x / n, -q.y / n, -q.z / n, q.w / n) else Quat(0.0, 0.0, 0.0, 0.0)
  }

  /** Rotation by the explicit formula: with t = 2 (axis x v), the result is v + w t + axis x t. */
  function Rotate(q: Quat, v: Vec3): Vec3 {
    var t := Scale(2.0, Cross(Axis(q), v));
    Add(Add(v, Scale(q.w, t)), Cross(Axis(q), t))
  }

  function Pure(v: Vec3): Quat {
    Quat(v.x, v.y, v.z, 0.0)
  }

  // Unfolding lemmas: they hand a caller the component equations as ground facts.

  lemma QMulTerms(a: Quat, b: Quat)
    ensures QMul(a, b).x == a.w * b.x + a.x * b.w + a.y * b.z - a.z * b.y
    ensures QMul(a, b).y == a.w * b.y + a.y * b.w + a.z * b.x - a.x * b.z
    ensures QMul(a, b).z == a.w * b.z + a.z * b.w + a.x * b.y - a.y * b.x
    ensures QMul(a, b).w == a.w * b.w - a.x * b.x - a.y * b.y - a.z * b.z
  {
  }

  lemma NormTerms(q: Quat)
    ensures QNorm2(q) == q.x * q.x + q.y * q.y + q.z * q.z + q.w * q.w
  {
  }

  lemma CrossTerms(a: Vec3, b: Vec3)
    ensures Cross(a, b).x == a.y * b.z - a.z * b.y
    ensures Cross(a, b).y == a.z * b.x - a.x * b.z
    ensures Cross(a, b).z == a.x * b.y - a.y * b.x
  {
  }

  lemma RotateTerms(q: Quat, v: Vec3, d: Vec3, t: Vec3, f: Vec3)
    requires d == Cross(Axis(q), v) && t == Scale(2.0, d) && f == Cross(Axis(q), t)
    ensures t.x == 2.0 * d.x && t.y == 2.0 * d.y && t.z == 2.0 * d.z
    ensures Rotate(q, v).x == v.x + q.w * t.x + f.x
    ensures Rotate(q, v).y == v.y + q.w * t.y + f.y
    ensures Rotate(q, v).z == v.z + q.w * t.z + f.z
  {
  }

  // Polynomial identities behind the quaternion laws. Each takes the intermediate values
  // as parameters, constrained to exactly the terms the definitions unfold to.

  lemma AssocXW(a: Quat, b: Quat, c: Quat, p: Quat, r: Quat)
    requires p.x == a.w * b.x + a.x * b.w + a.y * b.z - a.z * b.y
    requires p.y == a.w * b.y + a.y * b.w + a.z * b.x - a.x * b.z
    requires p.z == a.w * b.z + a.z * b.w + a.x * b.y - a.y * b.x
    requires p.w == a.w * b.w - a.x * b.x - a.y * b.y - a.z * b.z
    requires r.x == b.w * c.x + b.x * c.w + b.y * c.z - b.z * c.y
    requires r.y == b.w * c.y + b.y * c.w + b.z * c.x - b.x * c.z
    requires r.z == b.w * c.z + b.z * c.w + b.x * c.y - b.y * c.x
    requires r.w == b.w * c.w - b.x * c.x - b.y * c.y - b.z * c.z
    ensures p.w * c.x + p.x * c.w + p.y * c.z - p.z * c.y == a.w * r.x + a.x * r.w + a.y * r.z - a.z * r.y
    ensures p.w * c.w - p.x * c.x - p.y * c.y - p.z * c.z == a.w * r.w - a.x * r.x - a.y * r.y - a.z * r.z
  {
  }

  lemma AssocYZ(a: Quat, b: Quat, c: Quat, p: Quat, r: Quat)
    requires p.x == a.w * b.x + a.x * b.w + a.y * b.z - a.z * b.y
    requires p.y == a.w * b.y + a.y * b.w + a.z * b.x - a.x * b.z
    requires p.z == a.w * b.z + a.z * b.w + a.x * b.y - a.y * b.x
    requires p.w == a.w * b.w - a.x * b.x - a.y * b.y - a.z * b.z
    requires r.x == b.w * c.x + b.x * c.w + b.y * c.z - b.z * c.y
    requires r.y == b.w * c.y + b.y * c.w + b.z * c.x - b.x * c.z
    requires r.z == b.w * c.z + b.z * c.w + b.x * c.y - b.y * c.x
    requires r.w == b.w * c.w - b.x * c.x - b.y * c.y - b.z * c.z
    ensures p.w * c.y + p.y * c.w + p.z * c.x - p.x * c.z == a.w * r.y + a.y * r.w + a.z * r.x - a.x * r.z
    ensures p.w * c.z + p.z * c.w + p.x * c.y - p.y * c.x == a.w * r.z + a.z * r.w + a.x * r.y - a.y * r.x
  {
  }

  lemma QMulAssoc(a: Quat, b: Quat, c: Quat)
    ensures QMul(QMul(a, b), c) == QMul(a, QMul(b, c))
  {
    var p, r := QMul(a, b), QMul(b, c);
    QMulTerms(a, b);
    QMulTerms(b, c);
    QMulTerms(p, c);
    QMulTerms(a, r);
    AssocXW(a, b, c, p, r);
    AssocYZ(a, b, c, p, r);
  }

  lemma EulerFourSquares(a: Quat, b: Quat, p: Quat, m: real, n: real)
    requires p.x == a.w * b.x + a.x * b.w + a.y * b.z - a.z * b.y
    requires p.y == a.w * b.y + a.y * b.w + a.z * b.x - a.x * b.z
    requires p.z == a.w * b.z + a.z * b.w + a.x * b.y - a.y * b.x
    requires p.w == a.w * b.w - a.x * b.x - a.y * b.y - a.z * b.z
    requires m == a.x * a.x + a.y * a.y + a.z * a.z + a.w * a.w && m == 1.0
    requires n == b.x * b.x + b.y * b.y + b.z * b.z + b.w * b.w && n == 1.0
    ensures p.x * p.x + p.y * p.y + p.z * p.z + p.w * p.w == 1.0
  {
    assert (a.x * a.x + a.y * a.y + a.z * a.z + a.w * a.w) * (b.x * b.x + b.y * b.y + b.z * b.z + b.w * b.w) == 1.0;
  }

  lemma QMulUnit(a: Quat, b: Quat)
    requires Unit(a) && Unit(b)
    ensures Unit(QMul(a, b))
  {
    QMulTerms(a, b);
    NormTerms(a);
    NormTerms(b);
    NormTerms(QMul(a, b));
    EulerFourSquares(a, b, QMul(a, b), QNorm2(a), QNorm2(b));
  }

  lemma ConjOfProduct(a: Quat, b: Quat, p: Quat, c: Quat, d: Quat)
    requires p.x == a.w * b.x + a.x * b.w + a.y * b.z - a.z * b.y
    requires p.y == a.w * b.y + a.y * b.w + a.z * b.x - a.x * b.z
    requires p.z == a.w * b.z + a.z * b.w + a.x * b.y - a.y * b.x
    requires p.w == a.w * b.w - a.x * b.x - a.y * b.y - a.z * b.z
    requires c.x == -a.x && c.y == -a.y && c.z == -a.z && c.w == a.w
    requires d.x == -b.x && d.y == -b.y && d.z == -b.z && d.w == b.w
    ensures -p.x == d.w * c.x + d.x * c.w + d.y * c.z - d.z * c.y
    ensures -p.y == d.w * c.y + d.y * c.w + d.z * c.x - d.x * c.z
    ensures -p.z == d.w * c.z + d.z * c.w + d.x * c.y - d.y * c.x
    ensures p.w == d.w * c.w - d.x * c.x - d.y * c.y - d.z * c.z
  {
  }

  lemma ConjMul(a: Quat, b: Quat)
    ensures Conj(QMul(a, b)) == QMul(Conj(b), Conj(a))
  {
    QMulTerms(a, b);
    QMulTerms(Conj(b), Conj(a));
    ConjOfProduct(a, b, QMul(a, b), Conj(a), Conj(b));
  }

  lemma ConjProduct(x: real, y: real, z: real, w: real)
    ensures w * -x + x * w + y * -z - z * -y == 0.0
    ensures w * x + -x * w + -y * z - -z * y == 0.0
    ensures w * w - x * -x - y * -y - z * -z == x * x + y * y + z * z + w * w
    ensures w * w - -x * x - -y * y - -z * z == x * x + y * y + z * z + w * w
  {
  }

  lemma ConjCancels(a: Quat)
    requires Unit(a)
    ensures Unit(Conj(a)) && QInverse(a) == Conj(a)
    ensures QMul(a, Conj(a)) == QUAT_ONE && QMul(Conj(a), a) == QUAT_ONE
  {
    QMulTerms(a, Conj(a));
    QMulTerms(Conj(a), a);
    ConjProduct(a.x, a.y, a.z, a.w);
    ConjProduct(a.y, a.z, a.x, a.w);
    ConjProduct(a.z, a.x, a.y, a.w);
  }

  lemma SandwichX(q: Quat, v: Vec3, u: Quat, p: Quat, c: Quat, a: Vec3, d: Vec3, t: Vec3)
    requires u.x == v.x && u.y == v.y && u.z == v.z && u.w == 0.0
    requires c.x == -q.x && c.y == -q.y && c.z == -q.z && c.w == q.w
    requires p.x == q.w * u.x + q.x * u.w + q.y * u.z - q.z * u.y
    requires p.y == q.w * u.y + q.y * u.w + q.z * u.x - q.x * u.z
    requires p.z == q.w * u.z + q.z * u.w + q.x * u.y - q.y * u.x
    requires p.w == q.w * u.w - q.x * u.x - q.y * u.y - q.z * u.z
    requires a.x == q.x && a.y == q.y && a.z == q.z
    requires d.x == a.y * v.z - a.z * v.y && d.y == a.z * v.x - a.x * v.z && d.z == a.x * v.y - a.y * v.x
    requires t.x == 2.0 * d.x && t.y == 2.0 * d.y && t.z == 2.0 * d.z
    requires q.x * q.x + q.y * q.y + q.z * q.z + q.w * q.w == 1.0
    ensures p.w * c.x + p.x * c.w + p.y * c.z - p.z * c.y == v.x + q.w * t.x + (a.y * t.z - a.z * t.y)
    ensures p.w * c.w - p.x * c.x - p.y * c.y - p.z * c.z == 0.0
  {
    assert (q.x * q.x + q.y * q.y + q.z * q.z + q.w * q.w) * v.x == v.x;
  }

  /** The axes renamed, x to y to z to x. */
  function TurnedQuat(q: Quat): Quat {
    Quat(q.y, q.z, q.x, q.w)
  }

  function TurnedVec(v: Vec3): Vec3 {
    Vec3(v.y, v.z, v.x)
  }

  lemma SandwichY(q: Quat, v: Vec3, u: Quat, p: Quat, c: Quat, a: Vec3, d: Vec3, t: Vec3)
    requires u.x == v.x && u.y == v.y && u.z == v.z && u.w == 0.0
    requires c.x == -q.x && c.y == -q.y && c.z == -q.z && c.w == q.w
    requires p.x == q.w * u.x + q.x * u.w + q.y * u.z - q.z * u.y
    requires p.y == q.w * u.y + q.y * u.w + q.z * u.x - q.x * u.z
    requires p.z == q.w * u.z + q.z * u.w + q.x * u.y - q.y * u.x
    requires p.w == q.w * u.w - q.x * u.x - q.y * u.y - q.z * u.z
    requires a.x == q.x && a.y == q.y && a.z == q.z
    requires d.x == a.y * v.z - a.z * v.y && d.y == a.z * v.x - a.x * v.z && d.z == a.x * v.y - a.y * v.x
    requires t.x == 2.0 * d.x && t.y == 2.0 * d.y && t.z == 2.0 * d.z
    requires q.x * q.x + q.y * q.y + q.z * q.z + q.w * q.w == 1.0
    ensures p.w * c.y + p.y * c.w + p.z * c.x - p.x * c.z == v.y + q.w * t.y + (a.z * t.x - a.x * t.z)
  {
    SandwichX(TurnedQuat(q), TurnedVec(v), TurnedQuat(u), TurnedQuat(p), TurnedQuat(c), TurnedVec(a), TurnedVec(d),
              TurnedVec(t));
  }

  lemma SandwichZ(q: Quat, v: Vec3, u: Quat, p: Quat, c: Quat, a: Vec3, d: Vec3, t: Vec3)
    requires u.x == v.x && u.y == v.y && u.z == v.z && u.w == 0.0
    requires c.x == -q.x && c.y == -q.y && c.z == -q.z && c.w == q.w
    requires p.x == q.w * u.x + q.x * u.w + q.y * u.z - q.z * u.y
    requires p.y == q.w * u.y + q.y * u.w + q.z * u.x - q.x * u.z
    requires p.z == q.w * u.z + q.z * u.w + q.x * u.y - q.y * u.x
    requires p.w == q.w * u.w - q.x * u.x - q.y * u.y - q.z * u.z
    requires a.x == q.x && a.y == q.y && a.z == q.z
    requires d.x == a.y * v.z - a.z * v.y && d.y == a.z * v.x - a.x * v.z && d.z == a.x * v.y - a.y * v.x
    requires t.x == 2.0 * d.x && t.y == 2.0 * d.y && t.z == 2.0 * d.z
    requires q.x * q.x + q.y * q.y + q.z * q.z + q.w * q.w == 1.0
    ensures p.w * c.z + p.z * c.w + p.x * c.y - p.y * c.x == v.z + q.w * t.z + (a.x * t.y - a.y * t.x)
  {
    SandwichY(TurnedQuat(q), TurnedVec(v), TurnedQuat(u), TurnedQuat(p), TurnedQuat(c), TurnedVec(a), TurnedVec(d),
              TurnedVec(t));
  }

  ghost function Sandwich(q: Quat, v: Vec3): Quat {
    QMul(QMul(q, Pure(v)), Conj(q))
  }

  /** On unit quaternions the formula is the sandwich product q v q*. */
  lemma RotateIsSandwich(q: Quat, v: Vec3)
    requires Unit(q)
    ensures Sandwich(q, v) == Pure(Rotate(q, v))
  {
    var a, u, c := Axis(q), Pure(v), Conj(q);
    var d, p := Cross(a, v), QMul(q, u);
    var t := Scale(2.0, d);
    QMulTerms(q, u);
    QMulTerms(p, c);
    CrossTerms(a, v);
    CrossTerms(a, t);
    RotateTerms(q, v, d, t, Cross(a, t));
    SandwichX(q, v, u, p, c, a, d, t);
    SandwichY(q, v, u, p, c, a, d, t);
    SandwichZ(q, v, u, p, c, a, d, t);
  }

  /** A row of the rotation matrix of (x, y, z, w) times (a, b, c): the first one, and the others
      with the axes renamed. */
  function MatrixRow(x: real, y: real, z: real, w: real, a: real, b: real, c: real): real {
    (1.0 - 2.0 * (y * y + z * z)) * a + 2.0 * (x * y - w * z) * b + 2.0 * (x * z + w * y) * c
  }

  lemma RowTerms(x: real, y: real, z: real, w: real, a: real, b: real, c: real, tx: real, ty: real, tz: real, f: real,
                 r: real)
    requires IsDoubledCross(x, y, z, a, b, c, tx, ty, tz) && IsMinor(f, y, tz, z, ty) && r == a + w * tx + f
    ensures r == MatrixRow(x, y, z, w, a, b, c)
  {
  }

  predicate IsDoubledCross(x: real, y: real, z: real, a: real, b: real, c: real, tx: real, ty: real, tz: real) {
    tx == 2.0 * (y * c - z * b) && ty == 2.0 * (z * a - x * c) && tz == 2.0 * (x * b - y * a)
  }

  predicate IsMinor(f: real, y: real, tz: real, z: real, ty: real) {
    f == y * tz - z * ty
  }

  lemma DoubledCross(q: Quat, v: Vec3, d: Vec3, t: Vec3)
    requires d == Cross(Axis(q), v) && t == Scale(2.0, d)
    ensures IsDoubledCross(q.x, q.y, q.z, v.x, v.y, v.z, t.x, t.y, t.z)
    ensures IsDoubledCross(q.y, q.z, q.x, v.y, v.z, v.x, t.y, t.z, t.x)
    ensures IsDoubledCross(q.z, q.x, q.y, v.z, v.x, v.y, t.z, t.x, t.y)
  {
    CrossTerms(Axis(q), v);
    ScaleTerms(2.0, d);
  }

  lemma MinorTerms(q: Quat, t: Vec3, f: Vec3)
    requires f == Cross(Axis(q), t)
    ensures IsMinor(f.x, q.y, t.z, q.z, t.y) && IsMinor(f.y, q.z, t.x, q.x, t.z) && IsMinor(f.z, q.x, t.y, q.y, t.x)
  {
  }

  /** The rotation formula multiplies by the rotation matrix. */
  lemma RotateIsMatrix(q: Quat, v: Vec3)
    ensures Rotate(q, v) == Vec3(MatrixRow(q.x, q.y, q.z, q.w, v.x, v.y, v.z),
                                 MatrixRow(q.y, q.z, q.x, q.w, v.y, v.z, v.x),
                                 MatrixRow(q.z, q.x, q.y, q.w, v.z, v.x, v.y))
  {
    var d := Cross(Axis(q), v);
    var t := Scale(2.0, d);
    var r := Rotate(q, v);
    DoubledCross(q, v, d, t);
    var f := Cross(Axis(q), t);
    MinorTerms(q, t, f);
    RotateTerms(q, v, d, t, f);
    RowTerms(q.x, q.y, q.z, q.w, v.x, v.y, v.z, t.x, t.y, t.z, f.x, r.x);
    RowTerms(q.y, q.z, q.x, q.w, v.y, v.z, v.x, t.y, t.z, t.x, f.y, r.y);
    RowTerms(q.z, q.x, q.y, q.w, v.z, v.x, v.y, t.z, t.x, t.y, f.z, r.z);
  }

  /** Rotation is a homomorphism on unit quaternions. */
  lemma RotateMul(a: Quat, b: Quat, v: Vec3)
    requires Unit(a) && Unit(b)
    ensures Rotate(QMul(a, b), v) == Rotate(a, Rotate(b, v))
  {
    var p := Pure(v);
    QMulUnit(a, b);
    RotateIsSandwich(QMul(a, b), v);
    RotateIsSandwich(b, v);
    RotateIsSandwich(a, Rotate(b, v));
    ConjMul(a, b);
    calc {
      QMul(QMul(QMul(a, b), p), QMul(Conj(b), Conj(a)));
      { QMulAssoc(a, b, p); }
      QMul(QMul(a, QMul(b, p)), QMul(Conj(b), Conj(a)));
      { QMulAssoc(QMul(a, QMul(b, p)), Conj(b), Conj(a)); }
      QMul(QMul(QMul(a, QMul(b, p)), Conj(b)), Conj(a));
      { QMulAssoc(a, QMul(b, p), Conj(b)); }
      QMul(QMul(a, QMul(QMul(b, p), Conj(b))), Conj(a));
    }
  }

  lemma CrossSum(a: Vec3, u: Vec3, v: Vec3, s: Vec3)
    requires s.x == u.x + v.x && s.y == u.y + v.y && s.z == u.z + v.z
    ensures a.y * s.z - a.z * s.y == (a.y * u.z - a.z * u.y) + (a.y * v.z - a.z * v.y)
    ensures a.z * s.x - a.x * s.z == (a.z * u.x - a.x * u.z) + (a.z * v.x - a.x * v.z)
    ensures a.x * s.y - a.y * s.x == (a.x * u.y - a.y * u.x) + (a.x * v.y - a.y * v.x)
  {
  }

  lemma CrossAdd(a: Vec3, u: Vec3, v: Vec3)
    ensures Cross(a, Add(u, v)) == Add(Cross(a, u), Cross(a, v))
  {
    CrossTerms(a, u);
    CrossTerms(a, v);
    CrossTerms(a, Add(u, v));
    CrossSum(a, u, v, Add(u, v));
  }

  lemma ScaleAdd(k: real, u: Vec3, v: Vec3)
    ensures Scale(k, Add(u, v)) == Add(Scale(k, u), Scale(k, v))
  {
  }

  lemma RotateAdd(q: Quat, u: Vec3, v: Vec3)
    ensures Rotate(q, Add(u, v)) == Add(Rotate(q, u), Rotate(q, v))
  {
    var a := Axis(q);
    CrossAdd(a, u, v);
    ScaleAdd(2.0, Cross(a, u), Cross(a, v));
    var s, t := Scale(2.0, Cross(a, u)), Scale(2.0, Cross(a, v));
    ScaleAdd(q.w, s, t);
    CrossAdd(a, s, t);
  }

  lemma CrossNeg(u: Vec3, v: Vec3)
    ensures Cross(u, Neg(v)) == Neg(Cross(u, v))
  {
  }

  lemma ScaleNeg(k: real, v: Vec3)
    ensures Scale(k, Neg(v)) == Neg(Scale(k, v))
  {
  }

  lemma RotateNeg(q: Quat, v: Vec3)
    ensures Rotate(q, Neg(v)) == Neg(Rotate(q, v))
  {
    var t := Scale(2.0, Cross(Axis(q), v));
    CrossNeg(Axis(q), v);
    ScaleNeg(2.0, Cross(Axis(q), v));
    CrossNeg(Axis(q), t);
    ScaleNeg(q.w, t);
  }

  lemma CrossOfZero(v: Vec3)
    ensures Cross(ZERO3, v) == ZERO3
  {
  }

  // ------------------------------------------------------------------------ SE3

  datatype SE3 = SE3(rotation: Quat, translation: Vec3)

  const IDENTITY := SE3(QUAT_ONE, ZERO3)

  predicate Rigid(m: SE3) {
    Unit(m.rotation)
  }

  function Compose(a: SE3, b: SE3): SE3 {
    SE3(QMul(a.rotation, b.rotation), Add(Rotate(a.rotation, b.translation), a.translation))
  }

  function Inverse(m: SE3): SE3 {
    SE3(QInverse(m.rotation), Neg(Rotate(QInverse(m.rotation), m.translation)))
  }

  function TransformPoint(m: SE3, p: Vec3): Vec3 {
    Add(Rotate(m.rotation, p), m.translation)
  }

  lemma ComposeRigid(a: SE3, b: SE3)
    requires Rigid(a) && Rigid(b)
    ensures Rigid(Compose(a, b))
  {
    QMulUnit(a.rotation, b.rotation);
  }

  lemma ComposeIdentity(m: SE3)
    ensures Compose(IDENTITY, m) == m && Compose(m, IDENTITY) == m
  {
  }

  lemma ComposeAssoc(a: SE3, b: SE3, c: SE3)
    requires Rigid(a) && Rigid(b) && Rigid(c)
    ensures Compose(Compose(a, b), c) == Compose(a, Compose(b, c))
  {
    QMulAssoc(a.rotation, b.rotation, c.rotation);
    RotateMul(a.rotation, b.rotation, c.translation);
    RotateAdd(a.rotation, Rotate(b.rotation, c.translation), b.translation);
  }

  /** Composition is function composition on points: (a * b)(p) == a(b(p)). */
  lemma ComposeActs(a: SE3, b: SE3, p: Vec3)
    requires Rigid(a) && Rigid(b)
    ensures TransformPoint(Compose(a, b), p) == TransformPoint(a, TransformPoint(b, p))
  {
    RotateMul(a.rotation, b.rotation, p);
    RotateAdd(a.rotation, Rotate(b.rotation, p), b.translation);
  }

  lemma InverseCancels(m: SE3)
    requires Rigid(m)
    ensures Rigid(Inverse(m))
    ensures Compose(Inverse(m), m) == IDENTITY && Compose(m, Inverse(m)) == IDENTITY
  {
    var q, t := m.rotation, m.translation;
    ConjCancels(q);
    RotateNeg(q, Rotate(Conj(q), t));
    RotateMul(q, Conj(q), t);
    CrossOfZero(t);
    CrossOfZero(ZERO3);
  }

  lemma IdentityActs(v: Vec3)
    ensures TransformPoint(IDENTITY, v) == v
  {
    CrossOfZero(v);
    CrossOfZero(ZERO3);
  }

  /** The inverse takes every point back where it was. */
  lemma InverseUndoes(m: SE3, v: Vec3)
    requires Rigid(m)
    ensures TransformPoint(Inverse(m), TransformPoint(m, v)) == v
    ensures TransformPoint(m, TransformPoint(Inverse(m), v)) == v
  {
    InverseCancels(m);
    ComposeActs(Inverse(m), m, v);
    ComposeActs(m, Inverse(m), v);
    IdentityActs(v);
  }

  /** A left inverse is the inverse. */
  lemma InverseUnique(a: SE3, b: SE3)
    requires Rigid(a) && Rigid(b) && Compose(a, b) == IDENTITY
    ensures a == Inverse(b)
  {
    InverseCancels(b);
    ComposeAssoc(a, b, Inverse(b));
    ComposeIdentity(a);
    ComposeIdentity(Inverse(b));
  }

  lemma InverseCompose(a: SE3, b: SE3)
    requires Rigid(a) && Rigid(b)
    ensures Inverse(Compose(a, b)) == Compose(Inverse(b), Inverse(a))
  {
    InverseCancels(a);
    InverseCancels(b);
    ComposeRigid(a, b);
    var l := Compose(Inverse(b), Inverse(a));
    ComposeRigid(Inverse(b), Inverse(a));
    ComposeAssoc(Inverse(b), Inverse(a), Compose(a, b));
    ComposeAssoc(Inverse(a), a, b);
    ComposeIdentity(b);
    InverseUnique(l, Compose(a, b));
  }
}
