/** The pose conversion between the canonical camera-from-reconstruction pose and COLMAP's
    (qvec, tvec), over the reals and over doubles.

    CanonicalPoseToColmap and InvertColmapPose are the same map up to the storage order of
    the quaternion: conjugate the rotation and rotate the negated translation by it. */
module PoseConversion {
  import opened Geometry

  // ------------------------------------------------------------------ over the reals

  datatype Pose = Pose(rotation: Quat, translation: Vec3)

  /** Both directions of the conversion. */
  function Convert(p: Pose): Pose {
    Pose(Conj(p.rotation), Rotate(Conj(p.rotation), Neg(p.translation)))
  }

  lemma CrossScale(k: real, u: Vec3, v: Vec3)
    ensures Cross(u, Scale(k, v)) == Scale(k, Cross(u, v))
  {
    CrossTerms(u, v);
    CrossTerms(u, Scale(k, v));
  }

  lemma TripleProduct(v: Vec3, c: Vec3, d: Vec3, e: Vec3, t: Vec3, n: real)
    requires c.x == v.y * t.z - v.z * t.y && c.y == v.z * t.x - v.x * t.z && c.z == v.x * t.y - v.y * t.x
    requires d.x == v.y * c.z - v.z * c.y && d.y == v.z * c.x - v.x * c.z && d.z == v.x * c.y - v.y * c.x
    requires e.x == v.y * d.z - v.z * d.y && e.y == v.z * d.x - v.x * d.z && e.z == v.x * d.y - v.y * d.x
    requires n == v.x * v.x + v.y * v.y + v.z * v.z
    ensures e.x == -n * c.x && e.y == -n * c.y && e.z == -n * c.z
  {
  }

  lemma TripleCrossAs(v: Vec3, t: Vec3, c: Vec3, d: Vec3, e: Vec3, n: real)
    requires c == Cross(v, t) && d == Cross(v, c) && e == Cross(v, d) && n == Norm2(v)
    ensures e == Scale(-n, c)
  {
    CrossTerms(v, t);
    CrossTerms(v, c);
    CrossTerms(v, d);
    TripleProduct(v, c, d, e, t, n);
    ScaleTerms(-n, c);
  }

  /** v x (v x (v x t)) == -|v|^2 (v x t). */
  lemma TripleCross(v: Vec3, t: Vec3)
    ensures Cross(v, Cross(v, Cross(v, t))) == Scale(-Norm2(v), Cross(v, t))
  {
    var c := Cross(v, t);
    var d := Cross(v, c);
    TripleCrossAs(v, t, c, d, Cross(v, d), Norm2(v));
  }

  /** a + k b + m c */
  function Combine(a: Vec3, k: real, b: Vec3, m: real, c: Vec3): Vec3 {
    Add(Add(a, Scale(k, b)), Scale(m, c))
  }

  lemma CombineTerms(a: Vec3, k: real, b: Vec3, m: real, c: Vec3)
    ensures Combine(a, k, b, m, c).x == a.x + k * b.x + m * c.x
    ensures Combine(a, k, b, m, c).y == a.y + k * b.y + m * c.y
    ensures Combine(a, k, b, m, c).z == a.z + k * b.z + m * c.z
  {
  }

  lemma CrossCombine(v: Vec3, a: Vec3, k: real, b: Vec3, m: real, c: Vec3)
    ensures Cross(v, Combine(a, k, b, m, c)) == Combine(Cross(v, a), k, Cross(v, b), m, Cross(v, c))
  {
    CrossAdd(v, Add(a, Scale(k, b)), Scale(m, c));
    CrossAdd(v, a, Scale(k, b));
    CrossScale(k, v, b);
    CrossScale(m, v, c);
  }

  lemma Regroup(r: real, u: real, w: real, t: real, f: real, d: real, h: real, k: real)
    requires r == u + w * t + f && t == 2.0 * d && f == 2.0 * h && k == 2.0 * w
    ensures r == u + k * d + 2.0 * h
  {
  }

  /** The rotation formula in terms of the two nested cross products. */
  lemma RotateExpanded(q: Quat, u: Vec3, d: Vec3, h: Vec3, k: real)
    requires d == Cross(Axis(q), u) && h == Cross(Axis(q), d) && k == 2.0 * q.w
    ensures Rotate(q, u) == Combine(u, k, d, 2.0, h)
  {
    var t, f := Scale(2.0, d), Scale(2.0, h);
    CrossScale(2.0, Axis(q), d);
    RotateTerms(q, u, d, t, f);
    var r := Rotate(q, u);
    Regroup(r.x, u.x, q.w, t.x, f.x, d.x, h.x, k);
    Regroup(r.y, u.y, q.w, t.y, f.y, d.y, h.y, k);
    Regroup(r.z, u.z, q.w, t.z, f.z, d.z, h.z, k);
    CombineTerms(u, k, d, 2.0, h);
  }

  lemma CrossNegLeft(u: Vec3, v: Vec3)
    ensures Cross(Neg(u), v) == Neg(Cross(u, v))
  {
    CrossTerms(u, v);
    CrossTerms(Neg(u), v);
  }

  lemma Negated(k: real, m: real, b: real)
    requires m == -k
    ensures k * -b == m * b
  {
  }

  lemma ConjAxis(q: Quat)
    ensures Axis(Conj(q)) == Neg(Axis(q)) && Conj(q).w == q.w
  {
  }

  lemma CombineNegated(t: Vec3, k: real, m: real, c: Vec3, d: Vec3)
    requires m == -k
    ensures Combine(t, k, Neg(c), 2.0, d) == Combine(t, m, c, 2.0, d)
  {
    CombineTerms(t, k, Neg(c), 2.0, d);
    CombineTerms(t, m, c, 2.0, d);
    Negated(k, m, c.x);
    Negated(k, m, c.y);
    Negated(k, m, c.z);
  }

  lemma ConjRotateExpanded(q: Quat, t: Vec3, c: Vec3, d: Vec3, m: real)
    requires c == Cross(Axis(q), t) && d == Cross(Axis(q), c) && m == -2.0 * q.w
    ensures Rotate(Conj(q), t) == Combine(t, m, c, 2.0, d)
  {
    var v, b, k := Axis(q), Neg(c), 2.0 * q.w;
    ConjAxis(q);
    CrossNegLeft(v, t);
    CrossNegLeft(v, b);
    CrossNeg(v, c);
    assert Neg(Neg(d)) == d;
    RotateExpanded(Conj(q), t, b, d, k);
    CombineNegated(t, k, m, c, d);
  }

  /** One component of the expansion: the powers of v beyond the second collapse. */
  lemma Collapse(t: real, w: real, l: real, c: real, d: real, e: real, f: real, u: real, g: real, h: real,
                 k: real, m: real, r: real, norm: real)
    requires e == l * c && f == l * d && norm == w * w - l
    requires k == 2.0 * w && m == -2.0 * w && r == 4.0 * (1.0 - norm)
    requires u == t + m * c + 2.0 * d && g == c + m * d + 2.0 * e && h == d + m * e + 2.0 * f
    ensures u + k * g + 2.0 * h == t + r * d
  {
  }

  lemma CollapseX(t: Vec3, w: real, l: real, c: Vec3, d: Vec3, e: Vec3, f: Vec3, u: Vec3, g: Vec3, h: Vec3,
                 k: real, m: real, r: real, norm: real)
    requires e == Scale(l, c) && f == Scale(l, d) && norm == w * w - l
    requires k == 2.0 * w && m == -2.0 * w && r == 4.0 * (1.0 - norm)
    requires u == Combine(t, m, c, 2.0, d) && g == Combine(c, m, d, 2.0, e) && h == Combine(d, m, e, 2.0, f)
    ensures Combine(u, k, g, 2.0, h).x == t.x + r * d.x
  {
    ScaleTerms(l, c);
    ScaleTerms(l, d);
    CombineTerms(t, m, c, 2.0, d);
    CombineTerms(c, m, d, 2.0, e);
    CombineTerms(d, m, e, 2.0, f);
    CombineTerms(u, k, g, 2.0, h);
    Collapse(t.x, w, l, c.x, d.x, e.x, f.x, u.x, g.x, h.x, k, m, r, norm);
  }

  lemma CollapseY(t: Vec3, w: real, l: real, c: Vec3, d: Vec3, e: Vec3, f: Vec3, u: Vec3, g: Vec3, h: Vec3,
                 k: real, m: real, r: real, norm: real)
    requires e == Scale(l, c) && f == Scale(l, d) && norm == w * w - l
    requires k == 2.0 * w && m == -2.0 * w && r == 4.0 * (1.0 - norm)
    requires u == Combine(t, m, c, 2.0, d) && g == Combine(c, m, d, 2.0, e) && h == Combine(d, m, e, 2.0, f)
    ensures Combine(u, k, g, 2.0, h).y == t.y + r * d.y
  {
    ScaleTerms(l, c);
    ScaleTerms(l, d);
    CombineTerms(t, m, c, 2.0, d);
    CombineTerms(c, m, d, 2.0, e);
    CombineTerms(d, m, e, 2.0, f);
    CombineTerms(u, k, g, 2.0, h);
    Collapse(t.y, w, l, c.y, d.y, e.y, f.y, u.y, g.y, h.y, k, m, r, norm);
  }

  lemma CollapseZ(t: Vec3, w: real, l: real, c: Vec3, d: Vec3, e: Vec3, f: Vec3, u: Vec3, g: Vec3, h: Vec3,
                 k: real, m: real, r: real, norm: real)
    requires e == Scale(l, c) && f == Scale(l, d) && norm == w * w - l
    requires k == 2.0 * w && m == -2.0 * w && r == 4.0 * (1.0 - norm)
    requires u == Combine(t, m, c, 2.0, d) && g == Combine(c, m, d, 2.0, e) && h == Combine(d, m, e, 2.0, f)
    ensures Combine(u, k, g, 2.0, h).z == t.z + r * d.z
  {
    ScaleTerms(l, c);
    ScaleTerms(l, d);
    CombineTerms(t, m, c, 2.0, d);
    CombineTerms(c, m, d, 2.0, e);
    CombineTerms(d, m, e, 2.0, f);
    CombineTerms(u, k, g, 2.0, h);
    Collapse(t.z, w, l, c.z, d.z, e.z, f.z, u.z, g.z, h.z, k, m, r, norm);
  }

  lemma CollapseVectors(t: Vec3, w: real, l: real, c: Vec3, d: Vec3, e: Vec3, f: Vec3, u: Vec3, g: Vec3, h: Vec3,
                 k: real, m: real, r: real, norm: real)
    requires e == Scale(l, c) && f == Scale(l, d) && norm == w * w - l
    requires k == 2.0 * w && m == -2.0 * w && r == 4.0 * (1.0 - norm)
    requires u == Combine(t, m, c, 2.0, d) && g == Combine(c, m, d, 2.0, e) && h == Combine(d, m, e, 2.0, f)
    ensures Combine(u, k, g, 2.0, h) == Add(t, Scale(r, d))
  {
    CollapseX(t, w, l, c, d, e, f, u, g, h, k, m, r, norm);
    CollapseY(t, w, l, c, d, e, f, u, g, h, k, m, r, norm);
    CollapseZ(t, w, l, c, d, e, f, u, g, h, k, m, r, norm);
    ScaleTerms(r, d);
  }

  /** Rotating there and back with an arbitrary quaternion. */
  lemma RotateThereAndBack(q: Quat, t: Vec3, d: Vec3, r: real)
    requires d == Cross(Axis(q), Cross(Axis(q), t)) && r == 4.0 * (1.0 - QNorm2(q))
    ensures Rotate(q, Rotate(Conj(q), t)) == Add(t, Scale(r, d))
  {
    var v, w, l := Axis(q), q.w, -Norm2(Axis(q));
    var k, m := 2.0 * w, -2.0 * w;
    var c, e := Cross(v, t), Cross(v, d);
    var f, u := Cross(v, e), Rotate(Conj(q), t);
    ConjRotateExpanded(q, t, c, d, m);
    CrossCombine(v, t, m, c, 2.0, d);
    var g := Cross(v, u);
    CrossCombine(v, c, m, d, 2.0, e);
    var h := Cross(v, g);
    RotateExpanded(q, u, g, h, k);
    TripleCross(v, t);
    TripleCross(v, c);
    NormSplits(q);
    CollapseVectors(t, w, l, c, d, e, f, u, g, h, k, m, r, QNorm2(q));
  }

  lemma NormSplits(q: Quat)
    ensures QNorm2(q) == q.w * q.w + Norm2(Axis(q))
  {
  }

  lemma ProductZero(a: real, b: real)
    ensures a * b == 0.0 <==> a == 0.0 || b == 0.0
  {
  }

  lemma ScaleZero(k: real, v: Vec3)
    ensures Scale(k, v) == ZERO3 <==> k == 0.0 || v == ZERO3
  {
    ScaleTerms(k, v);
    ProductZero(k, v.x);
    ProductZero(k, v.y);
    ProductZero(k, v.z);
  }

  lemma SumOfSquares(x: real, y: real, z: real)
    requires x * x + y * y + z * z == 0.0
    ensures x == 0.0 && y == 0.0 && z == 0.0
  {
    assert x * x >= 0.0 && y * y >= 0.0 && z * z >= 0.0;
    ProductZero(x, x);
    ProductZero(y, y);
    ProductZero(z, z);
  }

  lemma CrossZero(v: Vec3)
    ensures Cross(v, ZERO3) == ZERO3 && Cross(ZERO3, v) == ZERO3
  {
  }

  lemma NormZero(v: Vec3)
    requires Norm2(v) == 0.0
    ensures v == ZERO3
  {
    SumOfSquares(v.x, v.y, v.z);
  }

  lemma DoubleCrossZero(v: Vec3, t: Vec3)
    ensures Cross(v, Cross(v, t)) == ZERO3 <==> Cross(v, t) == ZERO3
  {
    CrossZero(v);
    if Cross(v, Cross(v, t)) == ZERO3 {
      TripleCross(v, t);
      ScaleZero(-Norm2(v), Cross(v, t));
      if Norm2(v) == 0.0 {
        NormZero(v);
        CrossZero(t);
      }
    }
  }

  lemma AddZero(t: Vec3, d: Vec3)
    ensures Add(t, d) == t <==> d == ZERO3
  {
  }

  lemma ConvertTwice(p: Pose, d: Vec3, r: real)
    requires d == Cross(Axis(p.rotation), Cross(Axis(p.rotation), p.translation))
    requires r == 4.0 * (1.0 - QNorm2(p.rotation))
    ensures Convert(Convert(p)) == Pose(p.rotation, Add(p.translation, Scale(r, d)))
  {
    var q, t := p.rotation, p.translation;
    RotateNeg(Conj(q), t);
    RotateNeg(q, Rotate(Conj(q), t));
    RotateThereAndBack(q, t, d, r);
    assert Conj(Conj(q)) == q;
    var u := Rotate(Conj(q), t);
    assert Convert(p).translation == Neg(u);
    assert Neg(Neg(u)) == u;
  }

  /** The two directions undo each other exactly on unit quaternions, and on the poses
      whose translation lies along the rotation axis. */
  lemma PoseRoundTrip(p: Pose)
    ensures Convert(Convert(p)) == p <==>
              Unit(p.rotation) || Cross(Axis(p.rotation), p.translation) == ZERO3
  {
    var v, t := Axis(p.rotation), p.translation;
    var d, r := Cross(v, Cross(v, t)), 4.0 * (1.0 - QNorm2(p.rotation));
    ConvertTwice(p, d, r);
    AddZero(t, Scale(r, d));
    ScaleZero(r, d);
    DoubleCrossZero(v, t);
  }

  /** A quaternion of length two: the translation comes back changed. */
  lemma UnnormalisedPoseChanges(p: Pose)
    requires p == Pose(Quat(1.0, 1.0, 1.0, 1.0), Vec3(1.0, 0.0, 0.0))
    ensures Convert(Convert(p)) != p
  {
    var a, t := Axis(p.rotation), p.translation;
    assert Cross(a, t).y == 1.0;
    assert QNorm2(p.rotation) == 4.0;
    PoseRoundTrip(p);
  }

  // --------------------------------------------------------------- what one conversion does

  /** The pose as a map of points. */
  function AsTransform(p: Pose): SE3 {
    SE3(p.rotation, p.translation)
  }

  /** The converted pose of a unit rotation is the inverse transform. */
  lemma ConvertInverts(p: Pose)
    requires Unit(p.rotation)
    ensures AsTransform(Convert(p)) == Inverse(AsTransform(p))
  {
    ConjCancels(p.rotation);
    RotateNeg(Conj(p.rotation), p.translation);
  }

  /** The converted pose takes every point back where it was; its translation is the point
      the pose itself takes to the origin. */
  lemma ConvertUndoes(p: Pose, v: Vec3)
    requires Unit(p.rotation)
    ensures TransformPoint(AsTransform(Convert(p)), TransformPoint(AsTransform(p), v)) == v
    ensures TransformPoint(AsTransform(p), TransformPoint(AsTransform(Convert(p)), v)) == v
    ensures TransformPoint(AsTransform(p), Convert(p).translation) == ZERO3
  {
    ConvertInverts(p);
    InverseUndoes(AsTransform(p), v);
    InverseUndoes(AsTransform(p), ZERO3);
    OriginGoesToTranslation(AsTransform(Convert(p)));
  }

  lemma OriginGoesToTranslation(m: SE3)
    ensures TransformPoint(m, ZERO3) == m.translation
  {
  }
}
