/** Inputs on which a re-triangulation falls short of what it announces: three pinhole cameras
    with one point in front of the first two. */
module RetriangulationCases {
  import opened Wrappers
  import opened Collections
  import opened Geometry
  import opened Triangulation
  import opened Retriangulation
  import opened RetriangulationLaws

  // ------------------------------------------------------------------------------- the rig

  /** Keypoints lie on the x axis; the focal length is one. */
  type Rig = Input<(), real>

  /** Two cameras whose rays, of the pixels k1 and k2, meet in a point; a third that stands
      beyond the point; how far a point projects from a pixel; and a place away from it. */
  datatype Scene = Scene(w1: SE3, k1: real, r1: Vec3, w2: SE3, k2: real, r2: Vec3, w3: SE3,
                         offset: (Vec3, real) -> Option<real>, meet: Vec3, away: Vec3)

  /** The cosine of about two degrees. */
  const COSINE := 0.99939

  const STABILITY := 0.01

  function Optical(g: Scene): Optics<(), real> {
    Optics((c: (), k: real) => if k == g.k1 then g.r1 else g.r2, (c: (), p: Vec3, k: real) => g.offset(p, k))
  }

  function Slots(n: nat): set<Slot> {
    set v, j | v in {1, 2, 3} && 0 <= j < n :: Slot(v, j)
  }

  function PixelIn(g: Scene, view: int): real {
    if view == 1 then g.k1 else g.k2
  }

  function RigOf(g: Scene, points: seq<SourcePoint>): Rig {
    Input([View(1, (), g.w1), View(2, (), g.w2), View(3, (), g.w3)], points,
          map s | s in Slots(|points|) :: PixelIn(g, s.imageId), Optical(g), COSINE, STABILITY)
  }

  /** The j-th point's observations in the first two cameras. */
  function Front(j: int): seq<Slot> {
    [Slot(1, j), Slot(2, j)]
  }

  predicate RaysCross(g: Scene) {
    TriangulateTwoRays(g.w1, g.r1, g.w2, g.r2, COSINE) == Triangulated(Accepted, g.meet)
  }

  function Local(w: SE3, m: Vec3): Vec3 {
    TransformPoint(Inverse(w), m)
  }

  /** The point is in front of the camera and projects to the pixel. */
  predicate InView(g: Scene, w: SE3, k: real) {
    Local(w, g.meet).z > 0.0 && g.offset(Local(w, g.meet), k) == Some(0.0)
  }

  predicate FarAway(g: Scene) {
    Norm2(Sub(g.meet, g.meet)) < STABILITY * STABILITY <= Norm2(Sub(g.meet, g.away))
  }

  predicate Good(g: Scene) {
    && RaysCross(g) && InView(g, g.w1, g.k1) && InView(g, g.w2, g.k2) && g.k1 != g.k2
    && Local(g.w3, g.meet).z < 0.0 && FarAway(g)
  }

  // ---------------------------------------------------------------------- the rig's geometry

  lemma NoRotation(q: Quat, v: Vec3)
    requires Axis(q) == ZERO3
    ensures Rotate(q, v) == v
  {
    CrossOfZero(v);
    CrossOfZero(ZERO3);
    RotateTerms(q, v, ZERO3, ZERO3, ZERO3);
  }

  lemma UnrotatedPoint(m: SE3, p: Vec3)
    requires Axis(m.rotation) == ZERO3
    ensures TransformPoint(m, p) == Add(p, m.translation)
  {
    NoRotation(m.rotation, p);
  }

  lemma AddNeg(p: Vec3, t: Vec3)
    ensures Add(p, Neg(t)) == Sub(p, t) && Add(Neg(t), t) == ZERO3
  {
  }

  lemma OneIsUnit(q: Quat)
    requires q.x == q.y == q.z == 0.0 && q.w == 1.0
    ensures Unit(q)
  {
    NormTerms(q);
  }

  lemma One(q: Quat)
    requires q == QUAT_ONE
    ensures QMul(q, q) == q && Unit(q) && Axis(q) == ZERO3
  {
    ComposeIdentity(SE3(q, ZERO3));
    OneIsUnit(q);
  }

  lemma CancelTranslation(q: Quat, t: Vec3)
    requires QMul(q, q) == q && Axis(q) == ZERO3
    ensures Compose(SE3(q, Neg(t)), SE3(q, t)) == SE3(q, ZERO3)
  {
    NoRotation(q, t);
    AddNeg(ZERO3, t);
    assert Add(t, Neg(t)) == ZERO3;
  }

  lemma UnrotatedInverse(q: Quat, t: Vec3)
    requires q == QUAT_ONE
    ensures SE3(q, Neg(t)) == Inverse(SE3(q, t))
  {
    One(q);
    CancelTranslation(q, t);
    InverseUnique(SE3(q, Neg(t)), SE3(q, t));
  }

  lemma InCamera(m: SE3, p: Vec3)
    requires m.rotation == QUAT_ONE
    ensures TransformPoint(Inverse(m), p) == Sub(p, m.translation)
  {
    var i := SE3(m.rotation, Neg(m.translation));
    UnrotatedInverse(m.rotation, m.translation);
    assert i == Inverse(m);
    One(m.rotation);
    UnrotatedPoint(i, p);
    AddNeg(p, m.translation);
  }

  lemma InFront(w: SE3, m: Vec3)
    requires w.rotation == QUAT_ONE && m.z > w.translation.z
    ensures Depth(w, m) > 0.0
  {
    InCamera(w, m);
  }

  lemma MeetInFront(w1: SE3, r1: Vec3, w2: SE3, r2: Vec3, cosine: real, m: Vec3)
    requires Rotate(w1.rotation, r1) == r1 && Rotate(w2.rotation, r2) == r2
    requires Denominator(r1, r2) > PARALLEL && Midpoint(w1.translation, r1, w2.translation, r2) == m
    requires Depth(w1, m) > 0.0 && Depth(w2, m) > 0.0 && !TooNarrow(r1, r2, cosine)
    ensures TriangulateTwoRays(w1, r1, w2, r2, cosine) == Triangulated(Accepted, m)
  {
  }

  /** Rays that meet in front of both cameras at a wide enough angle. */
  lemma RaysMeet(w1: SE3, r1: Vec3, w2: SE3, r2: Vec3, cosine: real, m: Vec3, t: real)
    requires w1.rotation == w2.rotation == QUAT_ONE
    requires At(w1.translation, r1, t) == m && At(w2.translation, r2, t) == m
    requires m.z > w1.translation.z && m.z > w2.translation.z
    requires Denominator(r1, r2) > PARALLEL && !TooNarrow(r1, r2, cosine)
    ensures TriangulateTwoRays(w1, r1, w2, r2, cosine) == Triangulated(Accepted, m)
  {
    NoRotation(w1.rotation, r1);
    NoRotation(w2.rotation, r2);
    InFront(w1, m);
    InFront(w2, m);
    MeetingPointFound(w1.translation, r1, w2.translation, r2, t, t);
    MeetInFront(w1, r1, w2, r2, cosine, m);
  }

  /** The distance of a pinhole camera's projection from a keypoint; focal length one. */
  function Offset(p: Vec3, k: real): Option<real> {
    if p.z == 0.0 then None else if p.x / p.z >= k then Some(p.x / p.z - k) else Some(k - p.x / p.z)
  }

  /** Cameras in the origin, beside it, and beyond the meeting point, all looking along z. */
  function TheScene(): Scene {
    Scene(SE3(QUAT_ONE, ZERO3), 0.75, Vec3(0.6, 0.0, 0.8),
          SE3(QUAT_ONE, Vec3(1.5, 0.0, 0.0)), -0.75, Vec3(-0.6, 0.0, 0.8),
          SE3(QUAT_ONE, Vec3(0.0, 0.0, 5.0)), (p: Vec3, k: real) => Offset(p, k),
          Vec3(0.75, 0.0, 1.0), Vec3(-3.25, 0.0, 1.0))
  }

  ghost predicate Meets(g: Scene) {
    && g.w1.rotation == g.w2.rotation == QUAT_ONE && g.meet.z > g.w1.translation.z && g.meet.z > g.w2.translation.z
    && exists t :: At(g.w1.translation, g.r1, t) == g.meet && At(g.w2.translation, g.r2, t) == g.meet
  }

  predicate Wide(g: Scene) {
    Denominator(g.r1, g.r2) > PARALLEL && !TooNarrow(g.r1, g.r2, COSINE)
  }

  /** The point as an unrotated camera sees it projects to the pixel. */
  predicate ProjectsTo(g: Scene, w: SE3, k: real) {
    w.rotation == QUAT_ONE && Sub(g.meet, w.translation).z > 0.0 && g.offset(Sub(g.meet, w.translation), k) == Some(0.0)
  }

  predicate Beyond(g: Scene) {
    g.w3.rotation == QUAT_ONE && Sub(g.meet, g.w3.translation).z < 0.0
  }

  lemma RayProducts(r1: Vec3, r2: Vec3)
    requires r1 == Vec3(0.6, 0.0, 0.8) && r2 == Vec3(-0.6, 0.0, 0.8)
    ensures Dot(r1, r1) == 1.0 && Dot(r2, r2) == 1.0 && Dot(r1, r2) == 0.28
  {
  }

  lemma WideEnough(r1: Vec3, r2: Vec3)
    requires Dot(r1, r1) == 1.0 && Dot(r2, r2) == 1.0 && Dot(r1, r2) == 0.28
    ensures Denominator(r1, r2) > PARALLEL && !TooNarrow(r1, r2, COSINE)
  {
  }

  lemma SceneWide(g: Scene)
    requires g == TheScene()
    ensures Wide(g)
  {
    RayProducts(g.r1, g.r2);
    WideEnough(g.r1, g.r2);
  }

  lemma PointOfRay(o: Vec3, r: Vec3, t: real, m: Vec3)
    requires r.x == 0.6 && r.z == 0.8 && r.y == 0.0 && t == 1.25 && m == Vec3(o.x + 0.75, o.y, o.z + 1.0)
    ensures At(o, r, t) == m
  {
  }

  lemma PointOfOtherRay(o: Vec3, r: Vec3, t: real, m: Vec3)
    requires r.x == -0.6 && r.z == 0.8 && r.y == 0.0 && t == 1.25 && m == Vec3(o.x - 0.75, o.y, o.z + 1.0)
    ensures At(o, r, t) == m
  {
  }

  lemma SceneMeets(g: Scene)
    requires g == TheScene()
    ensures Meets(g)
  {
    PointOfRay(g.w1.translation, g.r1, 1.25, g.meet);
    PointOfOtherRay(g.w2.translation, g.r2, 1.25, g.meet);
  }

  lemma AlongX(a: Vec3, x: real)
    requires a.x == x && a.y == 0.0 && a.z == 0.0
    ensures Norm2(a) == x * x
  {
  }

  lemma NearItself(m: Vec3)
    ensures Norm2(Sub(m, m)) < STABILITY * STABILITY
  {
    AlongX(Sub(m, m), 0.0);
  }

  lemma FarOff(m: Vec3, away: Vec3)
    requires Sub(m, away) == Vec3(4.0, 0.0, 0.0)
    ensures STABILITY * STABILITY <= Norm2(Sub(m, away))
  {
    AlongX(Sub(m, away), 4.0);
  }

  lemma SceneFar(g: Scene)
    requires g == TheScene()
    ensures FarAway(g)
  {
    assert Sub(g.meet, g.away) == Vec3(4.0, 0.0, 0.0);
    FarOff(g.meet, g.away);
    NearItself(g.meet);
  }

  lemma NoOffset(l: Vec3, k: real)
    requires l.z == 1.0 && l.x == k
    ensures Offset(l, k) == Some(0.0)
  {
    assert l.x / l.z == k;
  }

  lemma FirstProjects(g: Scene)
    requires g == TheScene()
    ensures ProjectsTo(g, g.w1, g.k1)
  {
    NoOffset(Sub(g.meet, g.w1.translation), g.k1);
  }

  lemma SecondProjects(g: Scene)
    requires g == TheScene()
    ensures ProjectsTo(g, g.w2, g.k2) && g.k1 != g.k2 && Beyond(g)
  {
    NoOffset(Sub(g.meet, g.w2.translation), g.k2);
  }

  ghost predicate Planar(g: Scene) {
    && Meets(g) && Wide(g) && ProjectsTo(g, g.w1, g.k1) && ProjectsTo(g, g.w2, g.k2) && g.k1 != g.k2
    && Beyond(g) && FarAway(g)
  }

  lemma SceneIsPlanar(g: Scene)
    requires g == TheScene()
    ensures Planar(g)
  {
    SceneMeets(g);
    SceneWide(g);
    SceneFar(g);
    FirstProjects(g);
    SecondProjects(g);
  }

  lemma Crossing(g: Scene)
    requires Meets(g) && Wide(g)
    ensures RaysCross(g)
  {
    var t :| At(g.w1.translation, g.r1, t) == g.meet && At(g.w2.translation, g.r2, t) == g.meet;
    RaysMeet(g.w1, g.r1, g.w2, g.r2, COSINE, g.meet, t);
  }

  lemma Viewing(g: Scene, w: SE3, k: real)
    requires ProjectsTo(g, w, k)
    ensures InView(g, w, k)
  {
    InCamera(w, g.meet);
  }

  lemma LookingAway(g: Scene)
    requires Beyond(g)
    ensures Local(g.w3, g.meet).z < 0.0
  {
    InCamera(g.w3, g.meet);
  }

  lemma PlanarIsGood(g: Scene)
    requires Planar(g)
    ensures Good(g)
  {
    Crossing(g);
    Viewing(g, g.w1, g.k1);
    Viewing(g, g.w2, g.k2);
    LookingAway(g);
  }

  lemma SceneIsGood()
    ensures Good(TheScene())
  {
    SceneIsPlanar(TheScene());
    PlanarIsGood(TheScene());
  }

  // ------------------------------------------------------------------------ what the rig sees

  lemma ViewsFound(g: Scene, points: seq<SourcePoint>)
    ensures var vs := RigOf(g, points).views;
            && FindView(vs, 1) == Some(View(1, (), g.w1)) && FindView(vs, 2) == Some(View(2, (), g.w2))
            && FindView(vs, 3) == Some(View(3, (), g.w3))
  {
    var vs := RigOf(g, points).views;
    assert vs[1..][0] == vs[1] && vs[1..][1..][0] == vs[2];
    assert FindView(vs, 3) == FindView(vs[1..], 3) == FindView(vs[1..][1..], 3);
  }

  lemma SlotResolved(g: Scene, points: seq<SourcePoint>, v: int, j: int)
    requires v in {1, 2, 3} && 0 <= j < |points|
    ensures Resolved(RigOf(g, points), Slot(v, j)) && RigOf(g, points).keypoints[Slot(v, j)] == PixelIn(g, v)
  {
    ViewsFound(g, points);
    assert Slot(v, j) in Slots(|points|);
  }

  lemma FrontTriangulates(g: Scene, points: seq<SourcePoint>, p: SourcePoint, j: int)
    requires Good(g) && 0 <= j < |points| && Front(j) <= p.track
    ensures Triangulate(RigOf(g, points), p) == Triangulated(Accepted, g.meet)
  {
    ViewsFound(g, points);
    SlotResolved(g, points, 1, j);
    SlotResolved(g, points, 2, j);
    assert p.track[0] == Front(j)[0] && p.track[1] == Front(j)[1];
  }

  lemma FirstResidual(g: Scene, points: seq<SourcePoint>, j: int)
    requires Good(g) && 0 <= j < |points|
    ensures Resolved(RigOf(g, points), Slot(1, j))
    ensures ResidualAt(RigOf(g, points), g.meet, Slot(1, j)) == Some(0.0)
  {
    ViewsFound(g, points);
    SlotResolved(g, points, 1, j);
  }

  lemma SecondResidual(g: Scene, points: seq<SourcePoint>, j: int)
    requires Good(g) && 0 <= j < |points|
    ensures Resolved(RigOf(g, points), Slot(2, j))
    ensures ResidualAt(RigOf(g, points), g.meet, Slot(2, j)) == Some(0.0)
  {
    ViewsFound(g, points);
    SlotResolved(g, points, 2, j);
  }

  lemma ThirdResidual(g: Scene, points: seq<SourcePoint>, j: int)
    requires Good(g) && 0 <= j < |points|
    ensures Resolved(RigOf(g, points), Slot(3, j))
    ensures ResidualAt(RigOf(g, points), g.meet, Slot(3, j)) == None
  {
    ViewsFound(g, points);
    SlotResolved(g, points, 3, j);
  }

  lemma {:induction false} UsableAll<C, K>(inp: Input<C, K>, track: seq<Slot>)
    requires forall s :: s in track ==> Resolved(inp, s)
    ensures Usable(inp, track) == track
  {
    if track != [] {
      var n := |track| - 1;
      assert track[n] in track && track[..n] + [track[n]] == track;
      UsableAll(inp, track[..n]);
    }
  }

  lemma AppendedSum<C, K>(inp: Input<C, K>, xyz: Vec3, used: seq<Slot>, s: Slot, sum: real)
    requires (forall u :: u in used ==> Resolved(inp, u)) && Resolved(inp, s)
    requires SumResiduals(inp, xyz, used) == Some(sum)
    ensures forall u :: u in used + [s] ==> Resolved(inp, u)
    ensures SumResiduals(inp, xyz, used + [s])
            == if ResidualAt(inp, xyz, s).None? then None else Some(sum + ResidualAt(inp, xyz, s).value)
  {
    assert (used + [s])[..|used|] == used;
  }

  /** Observations without offset, and one of a camera the point is behind. */
  lemma SumsOfThree<C, K>(inp: Input<C, K>, xyz: Vec3, a: Slot, b: Slot, c: Slot)
    requires Resolved(inp, a) && Resolved(inp, b) && Resolved(inp, c)
    requires ResidualAt(inp, xyz, a) == Some(0.0) && ResidualAt(inp, xyz, b) == Some(0.0)
    requires ResidualAt(inp, xyz, c) == None
    ensures forall u :: u in [a, b] + [c] ==> Resolved(inp, u)
    ensures MeanResidual(inp, xyz, [a, b]) == 0.0 && MeanResidual(inp, xyz, [a, b] + [c]) == BEHIND
  {
    AppendedSum(inp, xyz, [], a, 0.0);
    assert [] + [a] == [a] && [a] + [b] == [a, b];
    AppendedSum(inp, xyz, [a], b, 0.0);
    AppendedSum(inp, xyz, [a, b], c, 0.0);
  }

  /** A candidate found under its own id with one of the two tracks. */
  lemma MeasuredOnRig(g: Scene, points: seq<SourcePoint>, c: Candidate, p: SourcePoint, j: int)
    requires Good(g) && 0 <= j < |points| && c.acceptance == Accepted && c.xyz == g.meet
    requires FindPoint(points, c.id) == Some(p)
    ensures p.track == Front(j) ==> Measured(RigOf(g, points), c) == Some(0.0)
    ensures p.track == Front(j) + [Slot(3, j)] ==> Measured(RigOf(g, points), c) == Some(BEHIND)
  {
    FirstResidual(g, points, j);
    SecondResidual(g, points, j);
    ThirdResidual(g, points, j);
    SumsOfThree(RigOf(g, points), g.meet, Slot(1, j), Slot(2, j), Slot(3, j));
    if p.track == Front(j) || p.track == Front(j) + [Slot(3, j)] {
      UsableAll(RigOf(g, points), p.track);
    }
  }

  // ------------------------------------------------------------------- a point behind a camera

  /** One point, seen by all three cameras, behind the third: it is emitted all the same, with
      the sentinel as its error. */
  lemma PointBehindEmitted(g: Scene) returns (inp: Rig)
    requires Good(g)
    ensures inp == RigOf(g, [SourcePoint(1, g.meet, 0, Front(0) + [Slot(3, 0)])])
    ensures |EmitAll(inp, Judged(inp)).points| == 1 && EmitAll(inp, Judged(inp)).points[0].error == BEHIND
  {
    var p := SourcePoint(1, g.meet, 0, Front(0) + [Slot(3, 0)]);
    var points := [p];
    inp := RigOf(g, points);
    FrontTriangulates(g, points, p, 0);
    MeasuredOnRig(g, points, CandidateOf(inp, p), p, 0);
    LoneBehindEmitted(inp);
  }

  // --------------------------------------------------------------------------- a repeated id

  lemma SecondOfTwo<C, K>(inp: Input<C, K>, cs: seq<Candidate>)
    requires |cs| == 2 && !Passed(cs[0]) && Passed(cs[1])
    ensures |EmitAll(inp, cs).points| == 1 && EmitAll(inp, cs).points[0].error == cs[1].residual
    ensures EmitAll(inp, cs).points[0].track == TrackOf(FindPoint(inp.points, cs[1].id))
  {
    assert cs[..1] == [cs[0]] && [cs[0]][..0] == [];
    assert EmitAll(inp, [cs[0]]) == Emit(inp, NONE, cs[0]);
  }

  /** Two points under one id, the first without observations: the second is measured on the
      first one's empty track, passes with residual zero, and loses its observations. */
  lemma RepeatedIdUnmeasured(g: Scene) returns (inp: Rig)
    requires Good(g)
    ensures inp == RigOf(g, [SourcePoint(7, g.meet, 0, []), SourcePoint(7, g.meet, 0, Front(0))])
    ensures var o := EmitAll(inp, Judged(inp)); |o.points| == 1 && o.points[0].error == 0.0 && o.points[0].track == []
  {
    var first, second := SourcePoint(7, g.meet, 0, []), SourcePoint(7, g.meet, 0, Front(0));
    var points := [first, second];
    inp := RigOf(g, points);
    FrontTriangulates(g, points, second, 0);
    assert FindPoint(points, 7) == Some(first);
    UnmeasuredPasses(inp, 1);
    JudgedFields(inp, 0);
    JudgedFields(inp, 1);
    SecondOfTwo(inp, Judged(inp));
  }

  ghost predicate DistinctInts(ids: seq<int>) {
    forall j, k :: 0 <= j < k < |ids| ==> ids[j] != ids[k]
  }

  predicate HasIds<C, K>(inp: Input<C, K>, ids: seq<int>) {
    |inp.points| == |ids| && forall j :: 0 <= j < |ids| ==> inp.points[j].id == ids[j]
  }

  /** Every candidate that passes the geometric tests is measured. */
  ghost predicate AllMeasured<C, K>(inp: Input<C, K>) {
    forall i :: 0 <= i < |inp.points| && CandidateOf(inp, inp.points[i]).acceptance == Accepted ==>
      Measured(inp, CandidateOf(inp, inp.points[i])).Some?
  }

  /** Points with the given ids, seen from the front except the i-th, which is not seen. */
  function OneUnseen(g: Scene, ids: seq<int>, i: nat): (r: seq<SourcePoint>)
    ensures |r| == |ids|
    ensures forall j :: 0 <= j < |ids| ==> r[j] == SourcePoint(ids[j], g.meet, 0, if j == i then [] else Front(j))
  {
    seq(|ids|, j requires 0 <= j < |ids| => SourcePoint(ids[j], g.meet, 0, if j == i then [] else Front(j)))
  }

  lemma {:induction false} FindFirst(points: seq<SourcePoint>, i: nat)
    requires i < |points| && forall j :: 0 <= j < i ==> points[j].id != points[i].id
    ensures FindPoint(points, points[i].id) == Some(points[i])
  {
    if i > 0 {
      FindFirst(points[1..], i - 1);
    }
  }

  lemma {:induction false} FirstWithId(ids: seq<int>, id: int) returns (i: nat)
    requires id in ids
    ensures i < |ids| && ids[i] == id && forall j :: 0 <= j < i ==> ids[j] != id
  {
    if ids[0] == id {
      return 0;
    }
    i := FirstWithId(ids[1..], id);
    i := i + 1;
  }

  /** A point whose id an earlier one has too is not measured when the earlier one is unseen. */
  lemma SecondUnmeasured(g: Scene, ids: seq<int>, i: nat, k: nat) returns (inp: Rig)
    requires Good(g) && i < k < |ids| && ids[i] == ids[k] && forall j :: 0 <= j < i ==> ids[j] != ids[i]
    ensures inp == RigOf(g, OneUnseen(g, ids, i)) && HasIds(inp, ids) && !AllMeasured(inp)
  {
    var points := OneUnseen(g, ids, i);
    inp := RigOf(g, points);
    FrontTriangulates(g, points, points[k], k);
    FindFirst(points, i);
    assert CandidateOf(inp, inp.points[k]).acceptance == Accepted;
    assert Measured(inp, CandidateOf(inp, inp.points[k])).None?;
  }

  /** A repeated list of ids has an input in which a tested candidate is not measured. */
  lemma RepeatedIdsUnmeasured(g: Scene, ids: seq<int>) returns (inp: Rig)
    requires Good(g) && !DistinctInts(ids)
    ensures HasIds(inp, ids) && !AllMeasured(inp)
  {
    var j, k :| 0 <= j < k < |ids| && ids[j] == ids[k];
    var i := FirstWithId(ids, ids[k]);
    inp := SecondUnmeasured(g, ids, i, k);
  }

  /** Every tested candidate is measured, for every input with the given source ids, exactly
      when these are distinct. */
  lemma AllMeasuredExactly(ids: seq<int>)
    ensures (forall inp: Rig :: HasIds(inp, ids) ==> AllMeasured(inp)) <==> DistinctInts(ids)
  {
    if DistinctInts(ids) {
      forall inp: Rig | HasIds(inp, ids)
        ensures AllMeasured(inp)
      {
        MeasuresAll(inp, ids);
      }
    } else {
      SceneIsGood();
      var inp := RepeatedIdsUnmeasured(TheScene(), ids);
    }
  }

  lemma MeasuresAll<C, K>(inp: Input<C, K>, ids: seq<int>)
    requires DistinctInts(ids) && HasIds(inp, ids)
    ensures AllMeasured(inp)
  {
    assert DistinctBy(inp.points, SourceId);
    forall i | 0 <= i < |inp.points| && CandidateOf(inp, inp.points[i]).acceptance == Accepted
      ensures Measured(inp, CandidateOf(inp, inp.points[i])).Some?
    {
      EveryoneMeasured(inp, i);
    }
  }

  // ---------------------------------------------------------------------- repeated output ids

  /** Points with the given ids, all seen from the front; only the i-th is where it was. */
  function OneStays(g: Scene, ids: seq<int>, i: nat): (r: seq<SourcePoint>)
    ensures |r| == |ids|
    ensures forall j :: 0 <= j < |ids| ==> r[j] == SourcePoint(ids[j], if j == i then g.meet else g.away, 0, Front(j))
  {
    seq(|ids|, j requires 0 <= j < |ids| => SourcePoint(ids[j], if j == i then g.meet else g.away, 0, Front(j)))
  }

  lemma AllPass(g: Scene, points: seq<SourcePoint>, j: nat)
    requires Good(g) && DistinctBy(points, SourceId) && j < |points| && points[j].track == Front(j)
    requires points[j].xyz == g.meet || points[j].xyz == g.away
    ensures var inp := RigOf(g, points);
            Passed(Judged(inp)[j]) && (Stable(Judged(inp)[j], inp.stability) <==> points[j].xyz == g.meet)
  {
    var inp := RigOf(g, points);
    FrontTriangulates(g, points, points[j], j);
    FindOwn(points, j);
    MeasuredOnRig(g, points, CandidateOf(inp, points[j]), points[j], j);
    JudgedFields(inp, j);
  }

  lemma {:induction false} ReplacedAllButOne<C, K>(inp: Input<C, K>, cs: seq<Candidate>, i: nat)
    requires forall j :: 0 <= j < |cs| ==> Passed(cs[j]) && (Stable(cs[j], inp.stability) <==> j == i)
    ensures EmitAll(inp, cs).replaced == if i < |cs| then |cs| - 1 else |cs|
  {
    if cs != [] {
      ReplacedAllButOne(inp, cs[..|cs| - 1], i);
    }
  }

  /** Distinct ids that one of the fresh ids could repeat. */
  predicate InFreshRange(ids: seq<int>, i: nat)
    requires i < |ids|
  {
    FIRST_NEW_ID <= ids[i] < FIRST_NEW_ID + |ids| - 1
  }

  ghost predicate DistinctOutput<C, K>(inp: Input<C, K>) {
    DistinctBy(EmitAll(inp, Judged(inp)).points, NewId)
  }

  /** For all distinct ids, one of which lies in the fresh range, there is an input with these
      ids whose output repeats an id. */
  lemma FreshIdClashes(g: Scene, ids: seq<int>, i: nat) returns (inp: Rig)
    requires Good(g) && DistinctInts(ids) && i < |ids| && InFreshRange(ids, i)
    ensures inp == RigOf(g, OneStays(g, ids, i)) && HasIds(inp, ids) && !DistinctOutput(inp)
  {
    var points := OneStays(g, ids, i);
    inp := RigOf(g, points);
    var cs := Judged(inp);
    assert DistinctBy(points, SourceId);
    forall j | 0 <= j < |cs|
      ensures Passed(cs[j]) && (Stable(cs[j], inp.stability) <==> j == i)
    {
      AllPass(g, points, j);
    }
    ReplacedAllButOne(inp, cs, i);
    JudgedFields(inp, i);
    assert Clashes(inp, cs);
    NewIdsDistinct(inp);
  }

  /** The output ids are distinct, for every input with the given distinct source ids, exactly
      when none of these lies in the fresh range. */
  lemma DistinctOutputsExactly(ids: seq<int>)
    requires DistinctInts(ids)
    ensures (forall inp: Rig :: HasIds(inp, ids) ==> DistinctOutput(inp))
            <==> forall i :: 0 <= i < |ids| ==> !InFreshRange(ids, i)
  {
    forall i | 0 <= i < |ids| && InFreshRange(ids, i)
      ensures exists inp: Rig :: HasIds(inp, ids) && !DistinctOutput(inp)
    {
      SceneIsGood();
      var inp := FreshIdClashes(TheScene(), ids, i);
    }
    if forall i :: 0 <= i < |ids| ==> !InFreshRange(ids, i) {
      forall inp: Rig | HasIds(inp, ids)
        ensures DistinctOutput(inp)
      {
        NoneInRange(inp, ids);
        FreshRangeSuffices(inp);
      }
    }
  }

  lemma NoneInRange<C, K>(inp: Input<C, K>, ids: seq<int>)
    requires DistinctInts(ids) && HasIds(inp, ids) && forall i :: 0 <= i < |ids| ==> !InFreshRange(ids, i)
    ensures DistinctBy(inp.points, SourceId) && FreshRangeClear(inp.points)
  {
    forall i | 0 <= i < |inp.points|
      ensures !(FIRST_NEW_ID <= inp.points[i].id < FIRST_NEW_ID + |inp.points| - 1)
    {
      assert !InFreshRange(ids, i);
    }
  }

  /** The smallest case: a point that stays under its id 10001, and one that moves. */
  lemma TwoPointsClash(g: Scene) returns (inp: Rig)
    requires Good(g)
    ensures |inp.points| == 2
    ensures inp.points[0] == SourcePoint(10001, g.meet, 0, Front(0))
    ensures inp.points[1] == SourcePoint(1, g.away, 0, Front(1))
    ensures !DistinctOutput(inp)
  {
    inp := FreshIdClashes(g, [10001, 1], 0);
  }
}
