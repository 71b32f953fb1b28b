/** Re-triangulation of a reconstruction's points: two passes over the candidates, a global
    threshold, and the lineage of every source point (core/geometry/triangulation.h). */
module Retriangulation {
  import opened Wrappers
  import opened Geometry
  import opened Triangulation
  import Binary64
  import Reprojection

  datatype View<C> = View(imageId: int, camera: C, pose: SE3)

  datatype Slot = Slot(imageId: int, idx: int)

  datatype SourcePoint = SourcePoint(id: int, xyz: Vec3, color: int, track: seq<Slot>)

  /** The residual of a keypoint given the point in camera coordinates; none stands for a
      projection that is not finite. */
  datatype Optics<!C, !K> = Optics(unproject: (C, K) -> Vec3, residual: (C, Vec3, K) -> Option<real>)

  /** Everything a run reads; the cosine is that of the minimum parallax angle. */
  datatype Input<!C, !K> = Input(views: seq<View<C>>, points: seq<SourcePoint>, keypoints: map<Slot, K>,
                                 optics: Optics<C, K>,
                                 cosine: real, stability: real)

  /** The residual reported for a point behind a camera: the largest finite double. */
  const BEHIND: real := Binary64.Value(0x7FEF_FFFF_FFFF_FFFF)

  const FIRST_NEW_ID := 10001

  // ----------------------------------------------------------------------------- candidates

  datatype Candidate = Candidate(id: int, xyz: Vec3, was: Vec3, residual: real, acceptance: Acceptance,
                                 reprojected: bool)

  function FindView<C>(views: seq<View<C>>, id: int): Option<View<C>> {
    if views == [] then None else if views[0].imageId == id then Some(views[0]) else FindView(views[1..], id)
  }

  function FindPoint(points: seq<SourcePoint>, id: int): Option<SourcePoint> {
    if points == [] then None else if points[0].id == id then Some(points[0]) else FindPoint(points[1..], id)
  }

  /** A track element with both its view and its keypoint. */
  predicate Resolved<C, K>(inp: Input<C, K>, s: Slot) {
    FindView(inp.views, s.imageId).Some? && s in inp.keypoints
  }

  function Triangulate<C, K>(inp: Input<C, K>, p: SourcePoint): Triangulated {
    if |p.track| < 2 || !Resolved(inp, p.track[0]) || !Resolved(inp, p.track[1]) then Triangulated(NonFinite, ZERO3)
    else
      var v1, v2 := FindView(inp.views, p.track[0].imageId).value, FindView(inp.views, p.track[1].imageId).value;
      TriangulateTwoRays(v1.pose, inp.optics.unproject(v1.camera, inp.keypoints[p.track[0]]),
                         v2.pose, inp.optics.unproject(v2.camera, inp.keypoints[p.track[1]]), inp.cosine)
  }

  function CandidateOf<C, K>(inp: Input<C, K>, p: SourcePoint): Candidate {
    var t := Triangulate(inp, p);
    Candidate(p.id, t.xyz, p.xyz, 0.0, t.acceptance, false)
  }

  function Candidates<C, K>(inp: Input<C, K>): (r: seq<Candidate>)
    ensures |r| == |inp.points|
  {
    seq(|inp.points|, i requires 0 <= i < |inp.points| => CandidateOf(inp, inp.points[i]))
  }

  // ------------------------------------------------------------------------------ residuals

  /** The resolved elements of a track, in order. */
  function Usable<C, K>(inp: Input<C, K>, track: seq<Slot>): seq<Slot> {
    if track == [] then []
    else
      var rest := Usable(inp, track[..|track| - 1]);
      if Resolved(inp, track[|track| - 1]) then rest + [track[|track| - 1]] else rest
  }

  /** One observation's residual; none when the point is behind or projects to infinity. */
  function ResidualAt<C, K>(inp: Input<C, K>, xyz: Vec3, s: Slot): Option<real>
    requires Resolved(inp, s)
  {
    var v := FindView(inp.views, s.imageId).value;
    var local := TransformPoint(Inverse(v.pose), xyz);
    if local.z <= 0.0 then None else inp.optics.residual(v.camera, local, inp.keypoints[s])
  }

  function SumResiduals<C, K>(inp: Input<C, K>, xyz: Vec3, used: seq<Slot>): Option<real>
    requires forall s :: s in used ==> Resolved(inp, s)
  {
    if used == [] then Some(0.0)
    else
      match SumResiduals(inp, xyz, used[..|used| - 1])
      case None => None
      case Some(sum) =>
        match ResidualAt(inp, xyz, used[|used| - 1])
        case None => None
        case Some(r) => Some(sum + r)
  }

  lemma {:induction false} UsableResolved<C, K>(inp: Input<C, K>, track: seq<Slot>)
    ensures forall s :: s in Usable(inp, track) ==> Resolved(inp, s)
  {
    if track != [] {
      UsableResolved(inp, track[..|track| - 1]);
    }
  }

  /** The mean over the track, or the sentinel when one observation has no residual. */
  function MeanResidual<C, K>(inp: Input<C, K>, xyz: Vec3, used: seq<Slot>): real
    requires forall s :: s in used ==> Resolved(inp, s)
  {
    if used == [] then 0.0
    else
      match SumResiduals(inp, xyz, used)
      case None => BEHIND
      case Some(sum) => sum / |used| as real
  }

  /** The first pass's residual of a candidate; none when it is not measured. */
  function Measured<C, K>(inp: Input<C, K>, c: Candidate): Option<real> {
    if c.acceptance != Accepted then None
    else
      match FindPoint(inp.points, c.id)
      case None => None
      case Some(p) =>
        UsableResolved(inp, p.track);
        var used := Usable(inp, p.track);
        if |used| < 2 then None else Some(MeanResidual(inp, c.xyz, used))
  }

  function FirstPass<C, K>(inp: Input<C, K>, c: Candidate): Candidate {
    match Measured(inp, c)
    case Some(r) => c.(residual := r)
    case None => c
  }

  /** The residuals of the measured candidates, in order. */
  function Residuals<C, K>(inp: Input<C, K>, cs: seq<Candidate>): seq<real> {
    if cs == [] then []
    else
      var rest := Residuals(inp, cs[..|cs| - 1]);
      match Measured(inp, cs[|cs| - 1])
      case Some(r) => rest + [r]
      case None => rest
  }

  function Threshold(residuals: seq<real>): real {
    Reprojection.Threshold(Reprojection.Median(residuals))
  }

  function SecondPass(c: Candidate, t: real): Candidate {
    if c.acceptance != Accepted then c.(reprojected := false)
    else if c.residual <= t then c.(reprojected := true)
    else c.(reprojected := false, acceptance := HighResidual)
  }

  /** The candidates after both passes. */
  function Judged<C, K>(inp: Input<C, K>): (r: seq<Candidate>)
    ensures |r| == |inp.points|
  {
    var cs := Candidates(inp);
    var t := Threshold(Residuals(inp, cs));
    seq(|cs|, i requires 0 <= i < |cs| => SecondPass(FirstPass(inp, cs[i]), t))
  }

  predicate Passed(c: Candidate) {
    c.acceptance == Accepted && c.reprojected
  }

  // -------------------------------------------------------------------------------- lineage

  datatype Lineage = Preserved | Replaced | Rejected

  datatype Entry = Entry(source: int, target: int, lineage: Lineage)

  datatype NewPoint = NewPoint(id: int, xyz: Vec3, color: int, track: seq<Slot>, error: real)

  datatype Output = Output(points: seq<NewPoint>, entries: seq<Entry>, preserved: int, replaced: int, rejected: int)

  const NONE := Output([], [], 0, 0, 0)

  predicate Stable(c: Candidate, stability: real) {
    stability > 0.0 && Norm2(Sub(c.xyz, c.was)) < stability * stability
  }

  function ColorOf(p: Option<SourcePoint>): int {
    if p.Some? then p.value.color else 0
  }

  function TrackOf(p: Option<SourcePoint>): seq<Slot> {
    if p.Some? then p.value.track else []
  }

  function PointOf(points: seq<SourcePoint>, c: Candidate, id: int): NewPoint {
    NewPoint(id, c.xyz, ColorOf(FindPoint(points, c.id)), TrackOf(FindPoint(points, c.id)), c.residual)
  }

  /** One candidate's effect on the result. */
  function Emit<C, K>(inp: Input<C, K>, o: Output, c: Candidate): Output {
    if !Passed(c) then o.(entries := o.entries + [Entry(c.id, 0, Rejected)], rejected := o.rejected + 1)
    else if Stable(c, inp.stability) then
      o.(points := o.points + [PointOf(inp.points, c, c.id)], entries := o.entries + [Entry(c.id, c.id, Preserved)],
         preserved := o.preserved + 1)
    else
      var id := FIRST_NEW_ID + o.replaced;
      o.(points := o.points + [PointOf(inp.points, c, id)], entries := o.entries + [Entry(c.id, id, Replaced)],
         replaced := o.replaced + 1)
  }

  function EmitAll<C, K>(inp: Input<C, K>, cs: seq<Candidate>): Output {
    if cs == [] then NONE else Emit(inp, EmitAll(inp, cs[..|cs| - 1]), cs[|cs| - 1])
  }

  // ------------------------------------------------------------------------------- the run

  method LookUpView<C>(views: seq<View<C>>, id: int) returns (r: Option<View<C>>)
    ensures r == FindView(views, id)
  {
    for i := 0 to |views|
      invariant FindView(views, id) == FindView(views[i..], id)
    {
      if views[i].imageId == id {
        return Some(views[i]);
      }
      assert views[i..][1..] == views[i + 1..];
    }
    r := None;
  }

  method LookUpPoint(points: seq<SourcePoint>, id: int) returns (r: Option<SourcePoint>)
    ensures r == FindPoint(points, id)
  {
    for i := 0 to |points|
      invariant FindPoint(points, id) == FindPoint(points[i..], id)
    {
      if points[i].id == id {
        return Some(points[i]);
      }
      assert points[i..][1..] == points[i + 1..];
    }
    r := None;
  }

  method CollectUsable<C, K>(inp: Input<C, K>, track: seq<Slot>) returns (used: seq<Slot>)
    ensures used == Usable(inp, track)
  {
    used := [];
    for i := 0 to |track|
      invariant used == Usable(inp, track[..i])
    {
      assert track[..i + 1][..i] == track[..i];
      var view := LookUpView(inp.views, track[i].imageId);
      if view.Some? && track[i] in inp.keypoints {
        used := used + [track[i]];
      }
    }
    assert track[..|track|] == track;
  }

  method MeasureObservation<C, K>(inp: Input<C, K>, xyz: Vec3, s: Slot) returns (r: Option<real>)
    requires Resolved(inp, s)
    ensures r == ResidualAt(inp, xyz, s)
  {
    var view := LookUpView(inp.views, s.imageId);
    var local := TransformPoint(Inverse(view.value.pose), xyz);
    if local.z <= 0.0 {
      return None;
    }
    r := inp.optics.residual(view.value.camera, local, inp.keypoints[s]);
  }

  method SumTrack<C, K>(inp: Input<C, K>, xyz: Vec3, used: seq<Slot>) returns (total: Option<real>)
    requires forall s :: s in used ==> Resolved(inp, s)
    ensures total == SumResiduals(inp, xyz, used)
  {
    var sum := 0.0;
    for i := 0 to |used|
      invariant SumResiduals(inp, xyz, used[..i]) == Some(sum)
    {
      SumNext(inp, xyz, used, i, sum);
      var r := MeasureObservation(inp, xyz, used[i]);
      if r.None? {
        return None;
      }
      sum := sum + r.value;
    }
    assert used[..|used|] == used;
    total := Some(sum);
  }

  lemma SumNext<C, K>(inp: Input<C, K>, xyz: Vec3, used: seq<Slot>, i: nat, sum: real)
    requires i < |used| && (forall s :: s in used ==> Resolved(inp, s))
    requires SumResiduals(inp, xyz, used[..i]) == Some(sum)
    ensures match ResidualAt(inp, xyz, used[i])
            case None => SumResiduals(inp, xyz, used).None?
            case Some(r) => SumResiduals(inp, xyz, used[..i + 1]) == Some(sum + r)
  {
    assert used[..i + 1][..i] == used[..i];
    assert used[i] in used && used[..i + 1][i] == used[i];
    SumStops(inp, xyz, used, i + 1);
  }

  method ComputePointReprojectionError<C, K>(inp: Input<C, K>, xyz: Vec3, used: seq<Slot>) returns (mean: real)
    requires forall s :: s in used ==> Resolved(inp, s)
    ensures mean == MeanResidual(inp, xyz, used)
  {
    if |used| == 0 {
      return 0.0;
    }
    var sum := SumTrack(inp, xyz, used);
    mean := if sum.Some? then sum.value / |used| as real else BEHIND;
  }

  lemma {:induction false} SumStops<C, K>(inp: Input<C, K>, xyz: Vec3, used: seq<Slot>, i: nat)
    requires i <= |used| && forall s :: s in used ==> Resolved(inp, s)
    ensures SumResiduals(inp, xyz, used[..i]).None? ==> SumResiduals(inp, xyz, used).None?
    decreases |used| - i
  {
    if i < |used| {
      SumStops(inp, xyz, used, i + 1);
      assert used[..i + 1][..i] == used[..i];
    } else {
      assert used[..i] == used;
    }
  }

  method BuildCandidates<C, K>(inp: Input<C, K>) returns (cs: seq<Candidate>)
    ensures cs == Candidates(inp)
  {
    cs := [];
    for i := 0 to |inp.points|
      invariant cs == Candidates(inp)[..i]
    {
      var p := inp.points[i];
      var c := Candidate(p.id, ZERO3, p.xyz, 0.0, NonFinite, false);
      if |p.track| >= 2 && p.track[0] in inp.keypoints && p.track[1] in inp.keypoints {
        var v1 := LookUpView(inp.views, p.track[0].imageId);
        var v2 := LookUpView(inp.views, p.track[1].imageId);
        if v1.Some? && v2.Some? {
          var t := TriangulateTwoRays(v1.value.pose, inp.optics.unproject(v1.value.camera, inp.keypoints[p.track[0]]),
                                      v2.value.pose,
                                      inp.optics.unproject(v2.value.camera, inp.keypoints[p.track[1]]), inp.cosine);
          c := c.(acceptance := t.acceptance, xyz := t.xyz);
        }
      }
      assert c == CandidateOf(inp, p);
      cs := cs + [c];
    }
  }

  /** The first pass measures one candidate. */
  method MeasureCandidate<C, K>(inp: Input<C, K>, c: Candidate) returns (r: Option<real>)
    ensures r == Measured(inp, c)
  {
    if c.acceptance != Accepted {
      return None;
    }
    var p := LookUpPoint(inp.points, c.id);
    if p.None? {
      return None;
    }
    var used := CollectUsable(inp, p.value.track);
    if |used| < 2 {
      return None;
    }
    UsableResolved(inp, p.value.track);
    var mean := ComputePointReprojectionError(inp, c.xyz, used);
    r := Some(mean);
  }

  method MeasureAll<C, K>(inp: Input<C, K>, before: seq<Candidate>) returns (cs: seq<Candidate>, residuals: seq<real>)
    ensures residuals == Residuals(inp, before) && |cs| == |before|
    ensures forall i :: 0 <= i < |before| ==> cs[i] == FirstPass(inp, before[i])
  {
    cs, residuals := before, [];
    for i := 0 to |before|
      invariant |cs| == |before| && residuals == Residuals(inp, before[..i])
      invariant forall k :: 0 <= k < |before| ==> cs[k] == if k < i then FirstPass(inp, before[k]) else before[k]
    {
      assert before[..i + 1][..i] == before[..i];
      var r := MeasureCandidate(inp, cs[i]);
      if r.Some? {
        cs := cs[i := cs[i].(residual := r.value)];
        residuals := residuals + [r.value];
      }
    }
    assert before[..|before|] == before;
  }

  method JudgeAll(before: seq<Candidate>, t: real) returns (cs: seq<Candidate>)
    ensures |cs| == |before| && forall i :: 0 <= i < |before| ==> cs[i] == SecondPass(before[i], t)
  {
    cs := before;
    for i := 0 to |before|
      invariant |cs| == |before|
      invariant forall k :: 0 <= k < |before| ==> cs[k] == if k < i then SecondPass(before[k], t) else before[k]
    {
      var c := cs[i];
      if c.acceptance != Accepted {
        cs := cs[i := c.(reprojected := false)];
      } else {
        var ok := c.residual <= t;
        cs := cs[i := c.(reprojected := ok, acceptance := if ok then Accepted else HighResidual)];
      }
    }
  }

  method BuildOutput<C, K>(inp: Input<C, K>, cs: seq<Candidate>) returns (o: Output)
    ensures o == EmitAll(inp, cs)
  {
    o := NONE;
    var next := FIRST_NEW_ID;
    for i := 0 to |cs|
      invariant o == EmitAll(inp, cs[..i]) && next == FIRST_NEW_ID + o.replaced
    {
      assert cs[..i + 1][..i] == cs[..i];
      var c := cs[i];
      if !Passed(c) {
        o := o.(entries := o.entries + [Entry(c.id, 0, Rejected)], rejected := o.rejected + 1);
      } else {
        var p := LookUpPoint(inp.points, c.id);
        var entry := Entry(c.id, c.id, Preserved);
        if Stable(c, inp.stability) {
          o := o.(preserved := o.preserved + 1);
        } else {
          entry := Entry(c.id, next, Replaced);
          next := next + 1;
          o := o.(replaced := o.replaced + 1);
        }
        var emitted := NewPoint(entry.target, c.xyz, ColorOf(p), TrackOf(p), c.residual);
        o := o.(points := o.points + [emitted], entries := o.entries + [entry]);
      }
    }
    assert cs[..|cs|] == cs;
  }

  method Retriangulate<C, K>(inp: Input<C, K>) returns (o: Output)
    ensures o == EmitAll(inp, Judged(inp))
  {
    var built := BuildCandidates(inp);
    var measured, residuals := MeasureAll(inp, built);
    var t := Threshold(residuals);
    var judged := JudgeAll(measured, t);
    assert judged == Judged(inp);
    o := BuildOutput(inp, judged);
  }
}
