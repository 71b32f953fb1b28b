/** Doubles as their 64-bit patterns (binary64, section 3.4 of IEEE 754). The bijection
    with eight bytes is then that of LittleEndian. Each operation of the arithmetic goes through
    the real values of the patterns and a rounding back, which is a parameter. */
module Binary64 {
  import opened LittleEndian
  import opened Geometry
  import PoseConversion

  type Double = u64

  const SIGN_BIT := 0x8000_0000_0000_0000

  const HIDDEN_BIT := 0x10_0000_0000_0000

  const QUIET_NAN: Double := 0x7FF8_0000_0000_0000

  const INFINITY: Double := 0x7FF0_0000_0000_0000

  function Exponent(d: Double): nat {
    (d / HIDDEN_BIT) % 0x800
  }

  function Mantissa(d: Double): nat {
    d % HIDDEN_BIT
  }

  predicate IsFinite(d: Double) {
    Exponent(d) != 0x7FF
  }

  predicate IsNaN(d: Double) {
    Exponent(d) == 0x7FF && Mantissa(d) != 0
  }

  function Negate(d: Double): Double {
    if d < SIGN_BIT then d + SIGN_BIT else d - SIGN_BIT
  }

  function Pow2(k: int): real
    decreases if k < 0 then -k else k
  {
    if k == 0 then 1.0 else if k > 0 then 2.0 * Pow2(k - 1) else Pow2(k + 1) / 2.0
  }

  function Magnitude(e: nat, m: nat): real {
    if e == 0 then m as real * Pow2(-1074) else (HIDDEN_BIT + m) as real * Pow2(e - 1075)
  }

  /** The real number a finite pattern stands for. */
  function Value(d: Double): real
    requires IsFinite(d)
  {
    var v := Magnitude(Exponent(d), Mantissa(d));
    if d < SIGN_BIT then v else -v
  }

  lemma NegateBits(d: Double)
    ensures Exponent(Negate(d)) == Exponent(d) && Mantissa(Negate(d)) == Mantissa(d)
    ensures Negate(Negate(d)) == d && (Negate(d) < SIGN_BIT <==> d >= SIGN_BIT)
  {
    var q, m := d / HIDDEN_BIT, d % HIDDEN_BIT;
    assert d == q * HIDDEN_BIT + m;
    assert SIGN_BIT == 0x800 * HIDDEN_BIT;
    if d < SIGN_BIT {
      assert d + SIGN_BIT == (q + 0x800) * HIDDEN_BIT + m;
      assert (d + SIGN_BIT) / HIDDEN_BIT == q + 0x800;
      assert (q + 0x800) % 0x800 == q % 0x800;
    } else {
      assert d - SIGN_BIT == (q - 0x800) * HIDDEN_BIT + m;
      assert (d - SIGN_BIT) / HIDDEN_BIT == q - 0x800;
      assert (q - 0x800) % 0x800 == q % 0x800;
    }
  }

  lemma NegateValue(d: Double)
    requires IsFinite(d)
    ensures IsFinite(Negate(d)) && Value(Negate(d)) == -Value(d)
  {
    NegateBits(d);
  }

  // -------------------------------------------------------------- vectors of doubles

  datatype DVec = DVec(x: Double, y: Double, z: Double)

  datatype DQuat = DQuat(x: Double, y: Double, z: Double, w: Double)

  datatype DPose = DPose(rotation: DQuat, translation: DVec)

  type NonFinite = d: Double | !IsFinite(d) witness QUIET_NAN

  datatype Operation = Plus | Minus | Times

  /** Arithmetic on doubles: a finite operation rounds its exact result, and one with an infinite
      or NaN operand gives something infinite or NaN. Nothing else is assumed. */
  datatype Rounding = Rounding(round: real -> Double, special: (Operation, Double, Double) -> NonFinite)

  predicate FiniteVec(v: DVec) {
    IsFinite(v.x) && IsFinite(v.y) && IsFinite(v.z)
  }

  predicate FiniteQuat(q: DQuat) {
    IsFinite(q.x) && IsFinite(q.y) && IsFinite(q.z) && IsFinite(q.w)
  }

  predicate FinitePose(p: DPose) {
    FiniteQuat(p.rotation) && FiniteVec(p.translation)
  }

  function RealVec(v: DVec): Vec3
    requires FiniteVec(v)
  {
    Vec3(Value(v.x), Value(v.y), Value(v.z))
  }

  function RealQuat(q: DQuat): Quat
    requires FiniteQuat(q)
  {
    Quat(Value(q.x), Value(q.y), Value(q.z), Value(q.w))
  }

  function RealPose(p: DPose): PoseConversion.Pose
    requires FinitePose(p)
  {
    PoseConversion.Pose(RealQuat(p.rotation), RealVec(p.translation))
  }

  function ConjDouble(q: DQuat): DQuat {
    DQuat(Negate(q.x), Negate(q.y), Negate(q.z), q.w)
  }

  function NegVec(v: DVec): DVec {
    DVec(Negate(v.x), Negate(v.y), Negate(v.z))
  }

  // ---------------------------------------------------------------------------- arithmetic

  function RealOp(op: Operation, x: real, y: real): real {
    match op
    case Plus => x + y
    case Minus => x - y
    case Times => x * y
  }

  function Compute(fp: Rounding, op: Operation, a: Double, b: Double): Double {
    if IsFinite(a) && IsFinite(b) then fp.round(RealOp(op, Value(a), Value(b))) else fp.special(op, a, b)
  }

  /** An arithmetic expression over doubles. */
  datatype Expr = Leaf(d: Double) | Op(op: Operation, left: Expr, right: Expr)

  function Eval(fp: Rounding, e: Expr): Double {
    match e
    case Leaf(d) => d
    case Op(op, l, r) => Compute(fp, op, Eval(fp, l), Eval(fp, r))
  }

  predicate FiniteLeaves(e: Expr) {
    match e
    case Leaf(d) => IsFinite(d)
    case Op(_, l, r) => FiniteLeaves(l) && FiniteLeaves(r)
  }

  /** The value of the expression in exact arithmetic. */
  function Exactly(e: Expr): real
    requires FiniteLeaves(e)
  {
    match e
    case Leaf(d) => Value(d)
    case Op(op, l, r) => RealOp(op, Exactly(l), Exactly(r))
  }

  /** No operation of the expression loses anything to rounding. */
  predicate Lossless(fp: Rounding, e: Expr) {
    match e
    case Leaf(d) => IsFinite(d)
    case Op(op, l, r) =>
      && Lossless(fp, l) && Lossless(fp, r) && FiniteLeaves(l) && FiniteLeaves(r)
      && IsFinite(Eval(fp, e)) && Value(Eval(fp, e)) == RealOp(op, Exactly(l), Exactly(r))
  }

  lemma {:induction false} LosslessValue(fp: Rounding, e: Expr)
    requires Lossless(fp, e)
    ensures FiniteLeaves(e) && IsFinite(Eval(fp, e)) && Value(Eval(fp, e)) == Exactly(e)
    ensures e.Op? ==> Eval(fp, e) == fp.round(Exactly(e))
  {
    match e
    case Leaf(_) =>
    case Op(_, l, r) =>
      LosslessValue(fp, l);
      LosslessValue(fp, r);
  }

  /** An infinity or NaN never disappears from a computation. */
  lemma {:induction false} NonFiniteSpreads(fp: Rounding, e: Expr)
    requires !FiniteLeaves(e)
    ensures !IsFinite(Eval(fp, e))
  {
    match e
    case Leaf(_) =>
    case Op(_, l, r) =>
      if !FiniteLeaves(l) {
        NonFiniteSpreads(fp, l);
      } else {
        NonFiniteSpreads(fp, r);
      }
  }

  // ------------------------------------------------------------------------------- the rotation

  datatype Triple = Triple(x: Expr, y: Expr, z: Expr)

  const TWO: Double := 0x4000_0000_0000_0000

  function Mul(a: Expr, b: Expr): Expr { Op(Times, a, b) }

  function Leaves(v: DVec): Triple {
    Triple(Leaf(v.x), Leaf(v.y), Leaf(v.z))
  }

  function CrossExpr(a: Triple, b: Triple): Triple {
    Triple(Op(Minus, Mul(a.y, b.z), Mul(a.z, b.y)), Op(Minus, Mul(a.z, b.x), Mul(a.x, b.z)),
           Op(Minus, Mul(a.x, b.y), Mul(a.y, b.x)))
  }

  function ScaleExpr(k: Expr, a: Triple): Triple {
    Triple(Mul(k, a.x), Mul(k, a.y), Mul(k, a.z))
  }

  function AddExpr(a: Triple, b: Triple): Triple {
    Triple(Op(Plus, a.x, b.x), Op(Plus, a.y, b.y), Op(Plus, a.z, b.z))
  }

  /** v + w t + axis x t, with t twice axis x v. */
  function Formula(axis: Triple, w: Expr, v: Triple): Triple {
    var t := ScaleExpr(Leaf(TWO), CrossExpr(axis, v));
    AddExpr(AddExpr(v, ScaleExpr(w, t)), CrossExpr(axis, t))
  }

  /** The rotation as both programs compute it, operation by operation. */
  function RotateExpr(q: DQuat, v: DVec): Triple {
    Formula(Leaves(DVec(q.x, q.y, q.z)), Leaf(q.w), Leaves(v))
  }

  function EvalVec(fp: Rounding, t: Triple): DVec {
    DVec(Eval(fp, t.x), Eval(fp, t.y), Eval(fp, t.z))
  }

  function RotateDouble(fp: Rounding, q: DQuat, v: DVec): DVec {
    EvalVec(fp, RotateExpr(q, v))
  }

  /** CanonicalPoseToColmap and InvertColmapPose, up to the storage order of the quaternion:
      conjugation flips sign bits, the translation is negated and rotated. */
  function ConvertPose(fp: Rounding, p: DPose): DPose {
    DPose(ConjDouble(p.rotation), RotateDouble(fp, ConjDouble(p.rotation), NegVec(p.translation)))
  }

  predicate LosslessVec(fp: Rounding, t: Triple) {
    Lossless(fp, t.x) && Lossless(fp, t.y) && Lossless(fp, t.z)
  }

  /** No operation of the pose's conversion loses anything to rounding. */
  predicate LosslessPose(fp: Rounding, p: DPose) {
    FinitePose(p) && LosslessVec(fp, RotateExpr(ConjDouble(p.rotation), NegVec(p.translation)))
  }

  function RoundVec(fp: Rounding, v: Vec3): DVec {
    DVec(fp.round(v.x), fp.round(v.y), fp.round(v.z))
  }

  /** Rounding loses nothing on this pose, in either direction, and each translation component
      is the pattern its own value rounds to. */
  ghost predicate Exact(fp: Rounding, p: DPose) {
    && LosslessPose(fp, p) && LosslessPose(fp, ConvertPose(fp, p))
    && RoundVec(fp, RealVec(p.translation)) == p.translation
  }

  // ------------------------------------------------------------------- the rotation's real value

  lemma {:induction false} PowerUp(k: nat, n: int)
    requires n + k == 0
    ensures Pow2(k) * Pow2(n) == 1.0
  {
    if k > 0 {
      PowerUp(k - 1, n + 1);
      assert (2.0 * Pow2(k - 1)) * (Pow2(n + 1) / 2.0) == Pow2(k - 1) * Pow2(n + 1);
    }
  }

  lemma {:induction false} PowerSum(j: nat, k: nat)
    ensures Pow2(j + k) == Pow2(j) * Pow2(k)
  {
    if j > 0 {
      PowerSum(j - 1, k);
    }
  }

  lemma HiddenPower()
    ensures Pow2(52) == HIDDEN_BIT as real && Pow2(51) * 2.0 == Pow2(52)
  {
    assert Pow2(4) == 16.0 && Pow2(5) == 32.0 && Pow2(1) == 2.0;
    PowerSum(4, 4);
    PowerSum(8, 8);
    PowerSum(16, 16);
    PowerSum(32, 16);
    PowerSum(48, 4);
    assert Pow2(8) == 256.0 && Pow2(16) == 65536.0;
    assert Pow2(32) == 4294967296.0;
  }

  /** The constant of the rotation formula. */
  lemma TwoIsTwo()
    ensures IsFinite(TWO) && Value(TWO) == 2.0
  {
    HiddenPower();
    PowerUp(51, -51);
    var up, down := Pow2(51), Pow2(-51);
    assert Exponent(TWO) == 1024 && Mantissa(TWO) == 0;
    assert Value(TWO) == (up * 2.0) * down;
    assert (up * 2.0) * down == 2.0 * (up * down);
  }

  lemma Fraction(d: Double, up: real, down: real)
    requires IsFinite(d) && Exponent(d) == 1023 && d < SIGN_BIT && up == HIDDEN_BIT as real && up * down == 1.0
    requires down == Pow2(-52)
    ensures Value(d) == 1.0 + Mantissa(d) as real * down
  {
  }

  lemma OnePattern()
    ensures Value(0x3FF0_0000_0000_0000) == 1.0
  {
    HiddenPower();
    PowerUp(52, -52);
    Fraction(0x3FF0_0000_0000_0000, Pow2(52), Pow2(-52));
  }

  lemma OneAndAHalfPattern()
    ensures Value(0x3FF8_0000_0000_0000) == 1.5
  {
    HiddenPower();
    PowerUp(52, -52);
    Fraction(0x3FF8_0000_0000_0000, Pow2(52), Pow2(-52));
    HalfOf(Pow2(52), Pow2(-52));
  }

  lemma MinusTwoPattern()
    ensures IsFinite(0xC000_0000_0000_0000) && Value(0xC000_0000_0000_0000) == -2.0
  {
    TwoIsTwo();
    NegateValue(TWO);
    assert Negate(TWO) == 0xC000_0000_0000_0000;
  }

  /** Patterns everybody knows: one, one and a half, and minus two. */
  lemma KnownPatterns()
    ensures Value(0x3FF0_0000_0000_0000) == 1.0 && Value(0x3FF8_0000_0000_0000) == 1.5
    ensures Value(0xC000_0000_0000_0000) == -2.0
  {
    OnePattern();
    OneAndAHalfPattern();
    MinusTwoPattern();
  }

  lemma HalfOf(up: real, down: real)
    requires up * down == 1.0 && up == HIDDEN_BIT as real
    ensures 0x8_0000_0000_0000 as real * down == 0.5
  {
    assert 0x8_0000_0000_0000 as real == 0.5 * up;
    assert (0.5 * up) * down == 0.5 * (up * down);
  }

  /** The expression's value in exact arithmetic. */
  predicate Stands(e: Expr, r: real) {
    FiniteLeaves(e) && Exactly(e) == r
  }

  predicate Means(t: Triple, v: Vec3) {
    Stands(t.x, v.x) && Stands(t.y, v.y) && Stands(t.z, v.z)
  }

  lemma OpStands(op: Operation, a: Expr, b: Expr, x: real, y: real, r: real)
    requires Stands(a, x) && Stands(b, y) && r == RealOp(op, x, y)
    ensures Stands(Op(op, a, b), r)
  {
  }

  /** One component of a cross product. */
  lemma MinorStands(a: Expr, b: Expr, c: Expr, d: Expr, x: real, y: real, z: real, w: real, r: real)
    requires Stands(a, x) && Stands(b, y) && Stands(c, z) && Stands(d, w) && r == x * y - z * w
    ensures Stands(Op(Minus, Mul(a, b), Mul(c, d)), r)
  {
    var p, q := x * y, z * w;
    OpStands(Times, a, b, x, y, p);
    OpStands(Times, c, d, z, w, q);
    OpStands(Minus, Mul(a, b), Mul(c, d), p, q, r);
  }

  lemma CrossMeans(a: Triple, b: Triple, u: Vec3, v: Vec3, c: Vec3)
    requires Means(a, u) && Means(b, v) && c == Cross(u, v)
    ensures Means(CrossExpr(a, b), c)
  {
    CrossTerms(u, v);
    MinorStands(a.y, b.z, a.z, b.y, u.y, v.z, u.z, v.y, c.x);
    MinorStands(a.z, b.x, a.x, b.z, u.z, v.x, u.x, v.z, c.y);
    MinorStands(a.x, b.y, a.y, b.x, u.x, v.y, u.y, v.x, c.z);
  }

  lemma ProductStands(a: Expr, b: Expr, x: real, y: real)
    requires Stands(a, x) && Stands(b, y)
    ensures Stands(Mul(a, b), x * y)
  {
    OpStands(Times, a, b, x, y, x * y);
  }

  lemma ScaleMeans(k: Expr, a: Triple, r: real, v: Vec3, c: Vec3)
    requires Stands(k, r) && Means(a, v) && c.x == r * v.x && c.y == r * v.y && c.z == r * v.z
    ensures Means(ScaleExpr(k, a), c)
  {
    ProductStands(k, a.x, r, v.x);
    ProductStands(k, a.y, r, v.y);
    ProductStands(k, a.z, r, v.z);
  }

  lemma AddMeans(a: Triple, b: Triple, u: Vec3, v: Vec3, c: Vec3)
    requires Means(a, u) && Means(b, v) && c == Add(u, v)
    ensures Means(AddExpr(a, b), c)
  {
  }

  lemma LeavesMean(v: DVec)
    requires FiniteVec(v)
    ensures Means(Leaves(v), RealVec(v))
  {
  }

  lemma DoubledMeans(d: Triple, rd: Vec3, rt: Vec3)
    requires Means(d, rd) && Stands(Leaf(TWO), 2.0) && rt == Scale(2.0, rd)
    ensures Means(ScaleExpr(Leaf(TWO), d), rt)
  {
    ScaleTerms(2.0, rd);
    ScaleMeans(Leaf(TWO), d, 2.0, rd, rt);
  }

  lemma FormulaMeans(axis: Triple, w: Expr, v: Triple, q: Quat, r: Vec3)
    requires Means(axis, Axis(q)) && Means(v, r) && Stands(w, q.w) && Stands(Leaf(TWO), 2.0)
    ensures Means(Formula(axis, w, v), Rotate(q, r))
  {
    var u := Axis(q);
    var d, rd := CrossExpr(axis, v), Cross(u, r);
    var t, rt := ScaleExpr(Leaf(TWO), d), Scale(2.0, rd);
    CrossMeans(axis, v, u, r, rd);
    DoubledMeans(d, rd, rt);
    SumMeans(axis, v, w, t, u, r, q.w, rt);
  }

  lemma SumMeans(axis: Triple, v: Triple, w: Expr, t: Triple, u: Vec3, r: Vec3, k: real, rt: Vec3)
    requires Means(axis, u) && Means(v, r) && Stands(w, k) && Means(t, rt)
    ensures Means(AddExpr(AddExpr(v, ScaleExpr(w, t)), CrossExpr(axis, t)), Add(Add(r, Scale(k, rt)), Cross(u, rt)))
  {
    var s, c := Scale(k, rt), Cross(u, rt);
    ScaleTerms(k, rt);
    ScaleMeans(w, t, k, rt, s);
    CrossMeans(axis, t, u, rt, c);
    AddMeans(v, ScaleExpr(w, t), r, s, Add(r, s));
    AddMeans(AddExpr(v, ScaleExpr(w, t)), CrossExpr(axis, t), Add(r, s), c, Add(Add(r, s), c));
  }

  /** In exact arithmetic the expressions are the rotation formula. */
  lemma RotateMeans(q: DQuat, v: DVec)
    requires FiniteQuat(q) && FiniteVec(v)
    ensures Means(RotateExpr(q, v), Rotate(RealQuat(q), RealVec(v)))
  {
    LeavesMean(DVec(q.x, q.y, q.z));
    LeavesMean(v);
    TwoIsTwo();
    FormulaMeans(Leaves(DVec(q.x, q.y, q.z)), Leaf(q.w), Leaves(v), RealQuat(q), RealVec(v));
  }

  // ------------------------------------------------------------------------------- the conversion

  lemma ConjReal(q: DQuat)
    requires FiniteQuat(q)
    ensures FiniteQuat(ConjDouble(q)) && RealQuat(ConjDouble(q)) == Conj(RealQuat(q))
    ensures ConjDouble(ConjDouble(q)) == q
  {
    NegateValue(q.x);
    NegateValue(q.y);
    NegateValue(q.z);
    NegateBits(q.x);
    NegateBits(q.y);
    NegateBits(q.z);
  }

  lemma NegVecReal(v: DVec)
    requires FiniteVec(v)
    ensures FiniteVec(NegVec(v)) && RealVec(NegVec(v)) == Neg(RealVec(v))
  {
    NegateValue(v.x);
    NegateValue(v.y);
    NegateValue(v.z);
  }

  lemma LosslessRotation(fp: Rounding, q: DQuat, v: DVec)
    requires FiniteQuat(q) && FiniteVec(v) && LosslessVec(fp, RotateExpr(q, v))
    ensures RotateDouble(fp, q, v) == RoundVec(fp, Rotate(RealQuat(q), RealVec(v)))
    ensures FiniteVec(RotateDouble(fp, q, v)) && RealVec(RotateDouble(fp, q, v)) == Rotate(RealQuat(q), RealVec(v))
  {
    var e := RotateExpr(q, v);
    RotateMeans(q, v);
    LosslessValue(fp, e.x);
    LosslessValue(fp, e.y);
    LosslessValue(fp, e.z);
  }

  lemma ConvertReal(fp: Rounding, p: DPose)
    requires LosslessPose(fp, p)
    ensures FinitePose(ConvertPose(fp, p)) && RealPose(ConvertPose(fp, p)) == PoseConversion.Convert(RealPose(p))
    ensures ConvertPose(fp, p).translation == RoundVec(fp, PoseConversion.Convert(RealPose(p)).translation)
  {
    ConjReal(p.rotation);
    NegVecReal(p.translation);
    LosslessRotation(fp, ConjDouble(p.rotation), NegVec(p.translation));
  }

  /** The map of points that a finite pose stands for. */
  function PoseTransform(p: DPose): SE3
    requires FinitePose(p)
  {
    PoseConversion.AsTransform(RealPose(p))
  }

  /** The converted pose of a unit rotation stands for the inverse map when no operation loses
      anything to rounding. */
  lemma ConvertPoseUndoes(fp: Rounding, p: DPose, v: Vec3)
    requires LosslessPose(fp, p) && Unit(RealPose(p).rotation)
    ensures FinitePose(ConvertPose(fp, p)) && PoseTransform(ConvertPose(fp, p)) == Inverse(PoseTransform(p))
    ensures TransformPoint(PoseTransform(ConvertPose(fp, p)), TransformPoint(PoseTransform(p), v)) == v
    ensures TransformPoint(PoseTransform(p), RealVec(ConvertPose(fp, p).translation)) == ZERO3
  {
    ConvertReal(fp, p);
    PoseConversion.ConvertInverts(RealPose(p));
    PoseConversion.ConvertUndoes(RealPose(p), v);
  }

  /** Writing a pose and reading it back reproduces its bits, on unit rotations (or
      translations along the rotation axis) when no operation loses anything to rounding. */
  lemma DoublePoseRoundTrip(fp: Rounding, p: DPose)
    requires Exact(fp, p)
    requires var r := RealPose(p);
             Unit(r.rotation) || Cross(Axis(r.rotation), r.translation) == ZERO3
    ensures FinitePose(ConvertPose(fp, p)) && ConvertPose(fp, ConvertPose(fp, p)) == p
  {
    ConvertReal(fp, p);
    ConvertReal(fp, ConvertPose(fp, p));
    ConjReal(p.rotation);
    PoseConversion.PoseRoundTrip(RealPose(p));
  }

  /** A non-finite pose never converts to a finite one: some written number gives it away. */
  lemma NonFinitePoseStays(fp: Rounding, p: DPose)
    requires !FinitePose(p)
    ensures !FinitePose(ConvertPose(fp, p))
  {
    NegateBits(p.rotation.x);
    NegateBits(p.rotation.y);
    NegateBits(p.rotation.z);
    NegateBits(p.translation.x);
    NegateBits(p.translation.y);
    NegateBits(p.translation.z);
    if FiniteQuat(p.rotation) {
      NonFiniteRotation(fp, ConjDouble(p.rotation), NegVec(p.translation));
    }
  }

  lemma NonFiniteRotation(fp: Rounding, q: DQuat, v: DVec)
    requires !FiniteVec(v)
    ensures !FiniteVec(RotateDouble(fp, q, v))
  {
    var e := RotateExpr(q, v);
    if !IsFinite(v.x) {
      FirstOfThree(Leaf(v.x), e.x.left.right, e.x.right);
      NonFiniteSpreads(fp, e.x);
    } else if !IsFinite(v.y) {
      FirstOfThree(Leaf(v.y), e.y.left.right, e.y.right);
      NonFiniteSpreads(fp, e.y);
    } else {
      FirstOfThree(Leaf(v.z), e.z.left.right, e.z.right);
      NonFiniteSpreads(fp, e.z);
    }
  }

  lemma FirstOfThree(a: Expr, b: Expr, c: Expr)
    requires !FiniteLeaves(a)
    ensures !FiniteLeaves(Op(Plus, Op(Plus, a, b), c))
  {
    assert !FiniteLeaves(Op(Plus, a, b));
  }
}
