/** What a re-triangulation keeps and promises. */
module RetriangulationLaws {
  import opened Wrappers
  import opened Collections
  import opened Geometry
  import opened Triangulation
  import opened Retriangulation
  import Binary64
  import Reprojection
  import ReprojectionLaws

  function SourceId(p: SourcePoint): int { p.id }

  function NewId(p: NewPoint): int { p.id }

  // ------------------------------------------------------------------ lineage of every point

  lemma {:induction false} EmitCounts<C, K>(inp: Input<C, K>, cs: seq<Candidate>)
    ensures var o := EmitAll(inp, cs);
            && o.preserved >= 0 && o.replaced >= 0 && o.rejected >= 0
            && o.preserved + o.replaced + o.rejected == |cs|
            && |o.points| == o.preserved + o.replaced
            && |o.entries| == |cs|
    ensures forall i :: 0 <= i < |cs| ==>
              EmitAll(inp, cs).entries[i].source == cs[i].id
              && EmitAll(inp, cs).entries[i].lineage == (if !Passed(cs[i]) then Rejected
                                                         else if Stable(cs[i], inp.stability) then Preserved
                                                         else Replaced)
  {
    if cs != [] {
      EmitCounts(inp, cs[..|cs| - 1]);
    }
  }

  /** Every source point is preserved, replaced or rejected; the lineage has one entry for
      each, in order, and there is one new point for each that is not rejected. */
  lemma PointsConserved<C, K>(inp: Input<C, K>)
    ensures var o := EmitAll(inp, Judged(inp));
            && o.preserved + o.replaced + o.rejected == |inp.points|
            && |o.points| == o.preserved + o.replaced
            && |o.entries| == |inp.points|
            && forall i :: 0 <= i < |inp.points| ==> o.entries[i].source == inp.points[i].id
  {
    EmitCounts(inp, Judged(inp));
    forall i | 0 <= i < |inp.points|
      ensures Judged(inp)[i].id == inp.points[i].id
    {
      JudgedFields(inp, i);
    }
  }

  /** What the passes leave of a source point. */
  lemma JudgedFields<C, K>(inp: Input<C, K>, i: nat)
    requires i < |inp.points|
    ensures var c, first := Judged(inp)[i], CandidateOf(inp, inp.points[i]);
            && c.id == inp.points[i].id && c.was == inp.points[i].xyz && c.xyz == Triangulate(inp, inp.points[i]).xyz
            && c.residual == FirstPass(inp, first).residual
            && (Passed(c) <==> first.acceptance == Accepted && c.residual <= Threshold(Residuals(inp, Candidates(inp))))
  {
  }

  // -------------------------------------------------------- new points follow the source order

  /** The positions of the candidates that passed. */
  function Positions(cs: seq<Candidate>): seq<int> {
    if cs == [] then []
    else
      var rest := Positions(cs[..|cs| - 1]);
      if Passed(cs[|cs| - 1]) then rest + [|cs| - 1] else rest
  }

  lemma {:induction false} PositionsRise(cs: seq<Candidate>)
    ensures forall k :: 0 <= k < |Positions(cs)| ==> 0 <= Positions(cs)[k] < |cs| && Passed(cs[Positions(cs)[k]])
    ensures forall j, k :: 0 <= j < k < |Positions(cs)| ==> Positions(cs)[j] < Positions(cs)[k]
    ensures forall i :: 0 <= i < |cs| && Passed(cs[i]) ==> i in Positions(cs)
  {
    if cs != [] {
      var n := |cs| - 1;
      PositionsRise(cs[..n]);
      forall i | 0 <= i < |cs| && Passed(cs[i])
        ensures i in Positions(cs)
      {
        if i < n {
          assert cs[..n][i] == cs[i];
        }
      }
    }
  }

  lemma {:induction false} EmittedAt<C, K>(inp: Input<C, K>, cs: seq<Candidate>)
    ensures var o, ps := EmitAll(inp, cs), Positions(cs);
            && |o.points| == |ps|
            && forall k :: 0 <= k < |ps| ==>
                 0 <= ps[k] < |cs| && o.points[k] == PointOf(inp.points, cs[ps[k]], o.points[k].id)
  {
    if cs != [] {
      EmittedAt(inp, cs[..|cs| - 1]);
    }
  }

  lemma {:induction false} FindOwn(points: seq<SourcePoint>, i: nat)
    requires i < |points| && DistinctBy(points, SourceId)
    ensures FindPoint(points, points[i].id) == Some(points[i])
  {
    if i > 0 {
      assert SourceId(points[0]) != SourceId(points[i]);
      assert DistinctBy(points[1..], SourceId) by {
        forall a, b | 0 <= a < b < |points[1..]|
          ensures SourceId(points[1..][a]) != SourceId(points[1..][b])
        {
          assert SourceId(points[a + 1]) != SourceId(points[b + 1]);
        }
      }
      FindOwn(points[1..], i - 1);
    }
  }

  /** The new points come in the order of their source points and carry their tracks and
      colours unchanged. */
  lemma TracksVerbatim<C, K>(inp: Input<C, K>) returns (ps: seq<int>)
    requires DistinctBy(inp.points, SourceId)
    ensures var o := EmitAll(inp, Judged(inp));
            && |ps| == |o.points|
            && (forall j, k :: 0 <= j < k < |ps| ==> ps[j] < ps[k])
            && forall k :: 0 <= k < |ps| ==>
                 && 0 <= ps[k] < |inp.points| && Passed(Judged(inp)[ps[k]])
                 && o.points[k].track == inp.points[ps[k]].track && o.points[k].color == inp.points[ps[k]].color
                 && o.points[k].xyz == Triangulate(inp, inp.points[ps[k]]).xyz
                 && o.points[k].error == Judged(inp)[ps[k]].residual
  {
    var cs := Judged(inp);
    var o := EmitAll(inp, cs);
    ps := Positions(cs);
    PositionsRise(cs);
    EmittedAt(inp, cs);
    forall k | 0 <= k < |ps|
      ensures o.points[k].track == inp.points[ps[k]].track && o.points[k].color == inp.points[ps[k]].color
      ensures o.points[k].xyz == Triangulate(inp, inp.points[ps[k]]).xyz && o.points[k].error == cs[ps[k]].residual
    {
      JudgedFields(inp, ps[k]);
      FindOwn(inp.points, ps[k]);
    }
  }

  /** Every new point passed every test: two views in front of it, enough parallax, and a
      residual below the global threshold. */
  lemma NewPointsAreSound<C, K>(inp: Input<C, K>, i: nat)
    requires i < |inp.points| && Passed(Judged(inp)[i])
    ensures var p, c := inp.points[i], Judged(inp)[i];
            && |p.track| >= 2 && Resolved(inp, p.track[0]) && Resolved(inp, p.track[1])
            && c.residual <= Threshold(Residuals(inp, Candidates(inp)))
            && var v1 := FindView(inp.views, p.track[0].imageId).value;
               var v2 := FindView(inp.views, p.track[1].imageId).value;
               var r1 := Rotate(v1.pose.rotation, inp.optics.unproject(v1.camera, inp.keypoints[p.track[0]]));
               var r2 := Rotate(v2.pose.rotation, inp.optics.unproject(v2.camera, inp.keypoints[p.track[1]]));
               && Depth(v1.pose, c.xyz) > 0.0 && Depth(v2.pose, c.xyz) > 0.0
               && !Parallel(Denominator(r1, r2)) && !TooNarrow(r1, r2, inp.cosine)
               && c.xyz == Midpoint(v1.pose.translation, r1, v2.pose.translation, r2)
  {
    JudgedFields(inp, i);
  }

  // --------------------------------------------------------------------- the ids of new points

  /** A preserved id lies among the ids handed out to replaced points. */
  ghost predicate Clashes<C, K>(inp: Input<C, K>, cs: seq<Candidate>) {
    exists i :: 0 <= i < |cs| && Passed(cs[i]) && Stable(cs[i], inp.stability)
                && FIRST_NEW_ID <= cs[i].id < FIRST_NEW_ID + EmitAll(inp, cs).replaced
  }

  function CandidateId(c: Candidate): int { c.id }

  /** Where an id among the new points comes from. */
  lemma {:induction false} IdsComeFrom<C, K>(inp: Input<C, K>, cs: seq<Candidate>, k: nat)
    requires k < |EmitAll(inp, cs).points|
    ensures var id := EmitAll(inp, cs).points[k].id;
            || FIRST_NEW_ID <= id < FIRST_NEW_ID + EmitAll(inp, cs).replaced
            || exists i :: 0 <= i < |cs| && Passed(cs[i]) && Stable(cs[i], inp.stability) && cs[i].id == id
    decreases |cs|
  {
    var n := |cs| - 1;
    var before := EmitAll(inp, cs[..n]);
    EmitCounts(inp, cs[..n]);
    if k < |before.points| {
      IdsComeFrom(inp, cs[..n], k);
      if i :| && 0 <= i < n && Passed(cs[..n][i]) && Stable(cs[..n][i], inp.stability)
              && cs[..n][i].id == before.points[k].id {
        assert cs[i] == cs[..n][i];
      }
    } else {
      assert cs[n].id == cs[n].id;
    }
  }

  /** A preserved point is emitted under its own id, after the points emitted before it. */
  lemma {:induction false} PreservedIdEmitted<C, K>(inp: Input<C, K>, cs: seq<Candidate>, i: nat)
    requires i < |cs| && Passed(cs[i]) && Stable(cs[i], inp.stability)
    ensures var k := |EmitAll(inp, cs[..i]).points|;
            k < |EmitAll(inp, cs).points| && EmitAll(inp, cs).points[k].id == cs[i].id
    decreases |cs|
  {
    var n := |cs| - 1;
    if i < n {
      PreservedIdEmitted(inp, cs[..n], i);
      assert cs[..n][..i] == cs[..i];
    }
  }

  lemma {:induction false} NewIdEmitted<C, K>(inp: Input<C, K>, cs: seq<Candidate>, id: int) returns (k: nat)
    requires FIRST_NEW_ID <= id < FIRST_NEW_ID + EmitAll(inp, cs).replaced
    ensures k < |EmitAll(inp, cs).points| && EmitAll(inp, cs).points[k].id == id
    ensures exists i :: 0 <= i < |cs| && Passed(cs[i]) && !Stable(cs[i], inp.stability)
                        && |EmitAll(inp, cs[..i]).points| == k
    decreases |cs|
  {
    var n := |cs| - 1;
    var before := EmitAll(inp, cs[..n]);
    if id < FIRST_NEW_ID + before.replaced {
      k := NewIdEmitted(inp, cs[..n], id);
      var i :| && 0 <= i < n && Passed(cs[..n][i]) && !Stable(cs[..n][i], inp.stability)
               && |EmitAll(inp, cs[..n][..i]).points| == k;
      assert cs[..n][..i] == cs[..i] && cs[..n][i] == cs[i];
    } else {
      k := |before.points|;
      assert Passed(cs[n]) && !Stable(cs[n], inp.stability);
    }
  }

  lemma {:induction false} EmissionRises<C, K>(inp: Input<C, K>, cs: seq<Candidate>, i: nat, j: nat)
    requires i < j <= |cs|
    ensures |EmitAll(inp, cs[..i]).points| <= |EmitAll(inp, cs[..j]).points|
    ensures Passed(cs[i]) ==> |EmitAll(inp, cs[..i]).points| < |EmitAll(inp, cs[..j]).points|
    decreases j
  {
    assert cs[..j][..j - 1] == cs[..j - 1];
    if i < j - 1 {
      EmissionRises(inp, cs, i, j - 1);
    }
  }

  lemma DistinctPrefix(cs: seq<Candidate>, n: nat)
    requires DistinctBy(cs, CandidateId) && n <= |cs|
    ensures DistinctBy(cs[..n], CandidateId)
  {
  }

  lemma DistinctSnoc(ps: seq<NewPoint>, p: NewPoint)
    requires DistinctBy(ps, NewId) && forall k :: 0 <= k < |ps| ==> ps[k].id != p.id
    ensures DistinctBy(ps + [p], NewId)
  {
  }

  lemma {:induction false} NoClashDistinct<C, K>(inp: Input<C, K>, cs: seq<Candidate>, r: int)
    requires DistinctBy(cs, CandidateId) && EmitAll(inp, cs).replaced <= r
    requires forall i :: 0 <= i < |cs| && Passed(cs[i]) && Stable(cs[i], inp.stability) ==>
               !(FIRST_NEW_ID <= cs[i].id < FIRST_NEW_ID + r)
    ensures DistinctBy(EmitAll(inp, cs).points, NewId)
  {
    if cs != [] {
      var n := |cs| - 1;
      var before, now := EmitAll(inp, cs[..n]), EmitAll(inp, cs);
      DistinctPrefix(cs, n);
      EmitCounts(inp, cs[..n]);
      NoClashDistinct(inp, cs[..n], r);
      if Passed(cs[n]) {
        var p := now.points[|before.points|];
        forall k | 0 <= k < |before.points|
          ensures before.points[k].id != p.id
        {
          LastIdIsNew(inp, cs, r, k);
        }
        DistinctSnoc(before.points, p);
      }
    }
  }

  lemma LastIdIsNew<C, K>(inp: Input<C, K>, cs: seq<Candidate>, r: int, k: nat)
    requires cs != [] && DistinctBy(cs, CandidateId) && EmitAll(inp, cs).replaced <= r && Passed(cs[|cs| - 1])
    requires forall i :: 0 <= i < |cs| && Passed(cs[i]) && Stable(cs[i], inp.stability) ==>
               !(FIRST_NEW_ID <= cs[i].id < FIRST_NEW_ID + r)
    requires k < |EmitAll(inp, cs[..|cs| - 1]).points|
    ensures EmitAll(inp, cs[..|cs| - 1]).points[k].id
            != if Stable(cs[|cs| - 1], inp.stability) then cs[|cs| - 1].id
               else FIRST_NEW_ID + EmitAll(inp, cs[..|cs| - 1]).replaced
  {
    var n := |cs| - 1;
    var before := EmitAll(inp, cs[..n]);
    EmitCounts(inp, cs[..n]);
    IdsComeFrom(inp, cs[..n], k);
    if i :| && 0 <= i < n && Passed(cs[..n][i]) && Stable(cs[..n][i], inp.stability)
            && cs[..n][i].id == before.points[k].id {
      assert cs[..n][i] == cs[i] && CandidateId(cs[i]) != CandidateId(cs[n]);
    }
  }

  lemma ClashRepeats<C, K>(inp: Input<C, K>, cs: seq<Candidate>)
    requires Clashes(inp, cs)
    ensures !DistinctBy(EmitAll(inp, cs).points, NewId)
  {
    var i :| 0 <= i < |cs| && Passed(cs[i]) && Stable(cs[i], inp.stability)
             && FIRST_NEW_ID <= cs[i].id < FIRST_NEW_ID + EmitAll(inp, cs).replaced;
    PreservedIdEmitted(inp, cs, i);
    var k := NewIdEmitted(inp, cs, cs[i].id);
    var j :| 0 <= j < |cs| && Passed(cs[j]) && !Stable(cs[j], inp.stability) && |EmitAll(inp, cs[..j]).points| == k;
    var l := |EmitAll(inp, cs[..i]).points|;
    if i < j {
      EmissionRises(inp, cs, i, j);
    } else {
      EmissionRises(inp, cs, j, i);
    }
    assert k != l;
    assert NewId(EmitAll(inp, cs).points[k]) == NewId(EmitAll(inp, cs).points[l]);
  }

  /** Ids handed out to replaced points are promised never to be source ids. They are not:
      with distinct source ids the new ids are distinct exactly when no preserved id lies
      among the fresh ones. */
  lemma NewIdsDistinct<C, K>(inp: Input<C, K>)
    requires DistinctBy(inp.points, SourceId)
    ensures DistinctBy(EmitAll(inp, Judged(inp)).points, NewId) <==> !Clashes(inp, Judged(inp))
  {
    var cs := Judged(inp);
    forall a, b | 0 <= a < b < |cs|
      ensures CandidateId(cs[a]) != CandidateId(cs[b])
    {
      JudgedFields(inp, a);
      JudgedFields(inp, b);
      assert SourceId(inp.points[a]) != SourceId(inp.points[b]);
    }
    if Clashes(inp, cs) {
      ClashRepeats(inp, cs);
    } else {
      NoClashDistinct(inp, cs, EmitAll(inp, cs).replaced);
    }
  }

  /** What a caller can check beforehand: no source id among the ids that could be handed out.
      At most all but the preserved point are replaced, so the last id of the range is safe. */
  ghost predicate FreshRangeClear(points: seq<SourcePoint>) {
    forall i :: 0 <= i < |points| ==> !(FIRST_NEW_ID <= points[i].id < FIRST_NEW_ID + |points| - 1)
  }

  lemma {:induction false} SomePreserved<C, K>(inp: Input<C, K>, cs: seq<Candidate>, i: nat)
    requires i < |cs| && Passed(cs[i]) && Stable(cs[i], inp.stability)
    ensures EmitAll(inp, cs).preserved >= 1
    decreases |cs|
  {
    EmitCounts(inp, cs[..|cs| - 1]);
    if i < |cs| - 1 {
      SomePreserved(inp, cs[..|cs| - 1], i);
    }
  }

  /** With distinct source ids none of which lies in the fresh range the new ids are distinct. */
  lemma FreshRangeSuffices<C, K>(inp: Input<C, K>)
    requires DistinctBy(inp.points, SourceId) && FreshRangeClear(inp.points)
    ensures DistinctBy(EmitAll(inp, Judged(inp)).points, NewId)
  {
    var cs := Judged(inp);
    EmitCounts(inp, cs);
    forall i | 0 <= i < |cs| && Passed(cs[i]) && Stable(cs[i], inp.stability)
      ensures !(FIRST_NEW_ID <= cs[i].id < FIRST_NEW_ID + EmitAll(inp, cs).replaced)
    {
      SomePreserved(inp, cs, i);
      JudgedFields(inp, i);
    }
    NewIdsDistinct(inp);
  }

  // -------------------------------------------------------------------------- the threshold

  /** The candidates that pass the geometric tests. */
  function Tested(cs: seq<Candidate>): nat {
    if cs == [] then 0 else Tested(cs[..|cs| - 1]) + if cs[|cs| - 1].acceptance == Accepted then 1 else 0
  }

  lemma {:induction false} UsableFirst<C, K>(inp: Input<C, K>, track: seq<Slot>)
    requires |track| >= 2 && Resolved(inp, track[0]) && Resolved(inp, track[1])
    ensures |Usable(inp, track)| >= 2
    decreases |track|
  {
    var n := |track| - 1;
    if n == 1 {
      assert track[..1][0] == track[0] && track[..1][..0] == [];
      assert Usable(inp, track[..1][..0]) == [];
      assert Usable(inp, track[..1]) == [] + [track[0]];
    } else {
      UsableFirst(inp, track[..n]);
    }
  }

  /** With distinct source ids every candidate that passes the geometric tests is measured. */
  lemma EveryoneMeasured<C, K>(inp: Input<C, K>, i: nat)
    requires DistinctBy(inp.points, SourceId) && i < |inp.points|
    ensures Measured(inp, CandidateOf(inp, inp.points[i])).Some?
            <==> CandidateOf(inp, inp.points[i]).acceptance == Accepted
  {
    FindOwn(inp.points, i);
    if CandidateOf(inp, inp.points[i]).acceptance == Accepted {
      UsableFirst(inp, inp.points[i].track);
    }
  }

  /** How many candidates, among the first n, have a residual below the threshold. */
  function Below<C, K>(inp: Input<C, K>, cs: seq<Candidate>, t: real): nat {
    if cs == [] then 0
    else
      Below(inp, cs[..|cs| - 1], t)
      + match Measured(inp, cs[|cs| - 1]) case Some(r) => (if r <= t then 1 else 0) case None => 0
  }

  lemma {:induction false} CountSnoc(rs: seq<real>, r: real, t: real)
    ensures ReprojectionLaws.CountUpTo(rs + [r], t) == ReprojectionLaws.CountUpTo(rs, t) + if r <= t then 1 else 0
  {
    if rs == [] {
      assert rs + [r] == [r];
      assert [r][1..] == [];
      assert ReprojectionLaws.CountUpTo([r], t) == ReprojectionLaws.CountUpTo([], t) + if r <= t then 1 else 0;
    } else {
      CountSnoc(rs[1..], r, t);
      assert (rs + [r])[1..] == rs[1..] + [r];
    }
  }

  lemma {:induction false} BelowCounts<C, K>(inp: Input<C, K>, cs: seq<Candidate>, t: real)
    ensures Below(inp, cs, t) == ReprojectionLaws.CountUpTo(Residuals(inp, cs), t)
  {
    if cs != [] {
      var n := |cs| - 1;
      BelowCounts(inp, cs[..n], t);
      if Measured(inp, cs[n]).Some? {
        CountSnoc(Residuals(inp, cs[..n]), Measured(inp, cs[n]).value, t);
      }
    }
  }

  /** More than half of the measured residuals are below the threshold. */
  lemma MajorityBelow(rs: seq<real>)
    requires rs != [] && forall i :: 0 <= i < |rs| ==> rs[i] >= 0.0
    ensures 2 * ReprojectionLaws.CountUpTo(rs, Threshold(rs)) > |rs|
  {
    var s := Reprojection.SortReals(rs);
    Reprojection.SortRealsCorrect(rs);
    SameElementsMember(rs, s, s[0]);
    ReprojectionLaws.MedianBelowThreshold(s);
    ReprojectionLaws.CountPrefix(s, |s| / 2 + 1, Threshold(rs));
    ReprojectionLaws.CountPermutes(rs, s, Threshold(rs));
    ReprojectionLaws.MajorityOfHalf(|s|, ReprojectionLaws.CountUpTo(rs, Threshold(rs)));
  }

  lemma {:induction false} PassedCount<C, K>(inp: Input<C, K>, js: seq<Candidate>, cs: seq<Candidate>, t: real)
    requires |js| == |cs|
    requires forall i :: 0 <= i < |cs| ==>
               (Passed(js[i]) <==> Measured(inp, cs[i]).Some? && Measured(inp, cs[i]).value <= t)
    ensures |Positions(js)| == Below(inp, cs, t)
  {
    if cs != [] {
      var n := |cs| - 1;
      PassedCount(inp, js[..n], cs[..n], t);
    }
  }

  lemma {:induction false} TestedCount<C, K>(inp: Input<C, K>, cs: seq<Candidate>)
    requires forall i :: 0 <= i < |cs| ==> (Measured(inp, cs[i]).Some? <==> cs[i].acceptance == Accepted)
    ensures |Residuals(inp, cs)| == Tested(cs)
  {
    if cs != [] {
      TestedCount(inp, cs[..|cs| - 1]);
    }
  }

  /** With distinct source ids and non-negative residuals, more than half of the candidates
      that pass the geometric tests become points. */
  lemma MajorityEmitted<C, K>(inp: Input<C, K>)
    requires DistinctBy(inp.points, SourceId)
    requires forall i :: 0 <= i < |Residuals(inp, Candidates(inp))| ==> Residuals(inp, Candidates(inp))[i] >= 0.0
    ensures Tested(Candidates(inp)) > 0 ==> 2 * |EmitAll(inp, Judged(inp)).points| > Tested(Candidates(inp))
  {
    var cs, js := Candidates(inp), Judged(inp);
    var rs := Residuals(inp, cs);
    var t := Threshold(rs);
    forall i | 0 <= i < |cs|
      ensures Measured(inp, cs[i]).Some? <==> cs[i].acceptance == Accepted
      ensures Passed(js[i]) <==> Measured(inp, cs[i]).Some? && Measured(inp, cs[i]).value <= t
    {
      EveryoneMeasured(inp, i);
      JudgedFields(inp, i);
    }
    TestedCount(inp, cs);
    PassedCount(inp, js, cs, t);
    BelowCounts(inp, cs, t);
    EmittedAt(inp, js);
    if rs != [] {
      MajorityBelow(rs);
    }
  }

  lemma {:induction false} SumNonNegative<C(!new), K(!new)>(inp: Input<C, K>, xyz: Vec3, used: seq<Slot>)
    requires forall s :: s in used ==> Resolved(inp, s)
    requires forall c, p, k :: inp.optics.residual(c, p, k).Some? ==> inp.optics.residual(c, p, k).value >= 0.0
    ensures SumResiduals(inp, xyz, used).Some? ==> SumResiduals(inp, xyz, used).value >= 0.0
  {
    if used != [] {
      var s := used[|used| - 1];
      assert s in used;
      SumNonNegative(inp, xyz, used[..|used| - 1]);
      var v := FindView(inp.views, s.imageId).value;
      var local := TransformPoint(Inverse(v.pose), xyz);
      assert inp.optics.residual(v.camera, local, inp.keypoints[s]).Some? ==>
          inp.optics.residual(v.camera, local, inp.keypoints[s]).value >= 0.0;
    }
  }

  lemma {:induction false} PowersPositive(k: nat)
    ensures Binary64.Pow2(k) >= 1.0
  {
    if k > 0 {
      PowersPositive(k - 1);
    }
  }

  lemma SentinelLarge()
    ensures BEHIND > 2.0
  {
    PowersPositive(971);
    var m, p := (Binary64.HIDDEN_BIT + 0xF_FFFF_FFFF_FFFF) as real, Binary64.Pow2(971);
    assert BEHIND == m * p;
    assert m * p >= m * 1.0;
  }

  lemma Quotient(x: real, n: real)
    requires x >= 0.0 && n > 0.0
    ensures x / n >= 0.0
  {
    var q := x / n;
    assert q * n == x;
    if q < 0.0 {
      NegativeProduct(q, n);
    }
  }

  lemma NegativeProduct(q: real, n: real)
    requires q < 0.0 && n > 0.0
    ensures q * n < 0.0
  {
  }

  /** Non-negative residuals of single observations make every measured residual so. */
  lemma {:induction false} ResidualsNonNegative<C(!new), K(!new)>(inp: Input<C, K>, cs: seq<Candidate>)
    requires forall c, p, k :: inp.optics.residual(c, p, k).Some? ==> inp.optics.residual(c, p, k).value >= 0.0
    ensures forall i :: 0 <= i < |Residuals(inp, cs)| ==> Residuals(inp, cs)[i] >= 0.0
  {
    if cs != [] {
      ResidualsNonNegative(inp, cs[..|cs| - 1]);
      var c := cs[|cs| - 1];
      if Measured(inp, c).Some? {
        MeasuredNonNegative(inp, c);
      }
    }
  }

  lemma MeasuredNonNegative<C(!new), K(!new)>(inp: Input<C, K>, c: Candidate)
    requires forall c, p, k :: inp.optics.residual(c, p, k).Some? ==> inp.optics.residual(c, p, k).value >= 0.0
    requires Measured(inp, c).Some?
    ensures Measured(inp, c).value >= 0.0
  {
    var p := FindPoint(inp.points, c.id).value;
    var used := Usable(inp, p.track);
    UsableResolved(inp, p.track);
    SumNonNegative(inp, c.xyz, used);
    SentinelLarge();
    if SumResiduals(inp, c.xyz, used).Some? {
      Quotient(SumResiduals(inp, c.xyz, used).value, |used| as real);
    }
  }

  // ------------------------------------------------------------------ what is not guaranteed

  /** A candidate that lies behind one of its cameras is meant to be rejected by a residual
      too large to pass. It is emitted exactly when the median is so large as well. */
  lemma BehindEmitted<C, K>(inp: Input<C, K>, i: nat)
    requires i < |inp.points| && Measured(inp, CandidateOf(inp, inp.points[i])) == Some(BEHIND)
    ensures Passed(Judged(inp)[i]) <==> 3.0 * Reprojection.Median(Residuals(inp, Candidates(inp))) >= BEHIND
  {
    SentinelLarge();
    JudgedFields(inp, i);
  }

  lemma MissingStops<C, K>(inp: Input<C, K>, xyz: Vec3, used: seq<Slot>, k: nat)
    requires (forall s :: s in used ==> Resolved(inp, s)) && k < |used| && ResidualAt(inp, xyz, used[k]).None?
    ensures SumResiduals(inp, xyz, used).None?
  {
    assert used[..k + 1][..k] == used[..k] && used[..k + 1][k] == used[k];
    SumStops(inp, xyz, used, k + 1);
  }

  /** A measured candidate behind one of the cameras that observe it has the sentinel. */
  lemma BehindMeasured<C, K>(inp: Input<C, K>, c: Candidate, p: SourcePoint, s: Slot)
    requires Measured(inp, c).Some? && FindPoint(inp.points, c.id) == Some(p)
    requires s in Usable(inp, p.track) && Resolved(inp, s)
    requires Depth(FindView(inp.views, s.imageId).value.pose, c.xyz) <= 0.0
    ensures Measured(inp, c) == Some(BEHIND)
  {
    UsableResolved(inp, p.track);
    var used := Usable(inp, p.track);
    var k :| 0 <= k < |used| && used[k] == s;
    MissingStops(inp, c.xyz, used, k);
  }

  /** How many residuals are the sentinel. */
  function CountBehind(rs: seq<real>): nat {
    if rs == [] then 0 else CountBehind(rs[1..]) + if rs[0] == BEHIND then 1 else 0
  }

  /** Every residual is the sentinel or small enough not to raise the threshold to it. */
  predicate Apart(r: real) {
    0.0 <= r && (r == BEHIND || 3.0 * r < BEHIND)
  }

  lemma ApartAt(r: real, t: real)
    requires Apart(r) && 3.0 * t == BEHIND
    ensures r <= t <==> r != BEHIND
  {
    SentinelLarge();
  }

  lemma {:induction false} SplitAtThird(rs: seq<real>, t: real)
    requires 3.0 * t == BEHIND && forall k :: 0 <= k < |rs| ==> Apart(rs[k])
    ensures CountBehind(rs) + ReprojectionLaws.CountUpTo(rs, t) == |rs|
  {
    if rs != [] {
      ApartAt(rs[0], t);
      SplitAtThird(rs[1..], t);
    }
  }

  /** In a sorted sequence the values up to a bound come first. */
  lemma {:induction false} SortedSplit(s: seq<real>, t: real, i: nat)
    requires Reprojection.Ascending(s) && i < |s|
    ensures s[i] <= t <==> i < ReprojectionLaws.CountUpTo(s, t)
  {
    if s[0] > t {
      NoneUpTo(s, t);
    } else if i > 0 {
      SortedSplit(s[1..], t, i - 1);
    }
  }

  lemma {:induction false} NoneUpTo(s: seq<real>, t: real)
    requires forall i :: 0 <= i < |s| ==> s[i] > t
    ensures ReprojectionLaws.CountUpTo(s, t) == 0
  {
    if s != [] {
      NoneUpTo(s[1..], t);
    }
  }

  /** The median of such residuals is as huge exactly when half of them are the sentinel. */
  lemma MedianHuge(rs: seq<real>)
    requires rs != [] && forall k :: 0 <= k < |rs| ==> Apart(rs[k])
    ensures 3.0 * Reprojection.Median(rs) >= BEHIND <==> 2 * CountBehind(rs) >= |rs|
  {
    var s, t := Reprojection.SortReals(rs), BEHIND / 3.0;
    var n := |s|;
    Reprojection.SortRealsCorrect(rs);
    SplitAtThird(rs, t);
    ReprojectionLaws.CountPermutes(rs, s, t);
    SentinelLarge();
    SortedApart(rs, s, n / 2, t);
    if n % 2 == 0 {
      SortedApart(rs, s, n / 2 - 1, t);
    }
  }

  lemma SortedApart(rs: seq<real>, s: seq<real>, i: nat, t: real)
    requires multiset(s) == multiset(rs) && Reprojection.Ascending(s) && i < |s| && 3.0 * t == BEHIND
    requires forall k :: 0 <= k < |rs| ==> Apart(rs[k])
    ensures Apart(s[i]) && (s[i] == BEHIND <==> i >= ReprojectionLaws.CountUpTo(s, t))
  {
    SameElementsMember(s, rs, s[i]);
    ApartAt(s[i], t);
    SortedSplit(s, t, i);
  }

  lemma {:induction false} MeasuredListed<C, K>(inp: Input<C, K>, cs: seq<Candidate>, i: nat)
    requires i < |cs| && Measured(inp, cs[i]).Some?
    ensures Measured(inp, cs[i]).value in Residuals(inp, cs)
    decreases |cs|
  {
    var n := |cs| - 1;
    if i < n {
      MeasuredListed(inp, cs[..n], i);
    }
  }

  /** When the measured points that are in front of their cameras have ordinary residuals, a
      point behind a camera is emitted exactly when at least half of the measured ones are. */
  lemma BehindEmittedByHalf<C, K>(inp: Input<C, K>, i: nat)
    requires i < |inp.points| && Measured(inp, CandidateOf(inp, inp.points[i])) == Some(BEHIND)
    requires forall k :: 0 <= k < |Residuals(inp, Candidates(inp))| ==> Apart(Residuals(inp, Candidates(inp))[k])
    ensures Passed(Judged(inp)[i])
            <==> 2 * CountBehind(Residuals(inp, Candidates(inp))) >= |Residuals(inp, Candidates(inp))|
  {
    MeasuredListed(inp, Candidates(inp), i);
    BehindEmitted(inp, i);
    MedianHuge(Residuals(inp, Candidates(inp)));
  }

  /** In particular a single candidate behind a camera is always emitted. */
  lemma LoneBehindEmitted<C, K>(inp: Input<C, K>)
    requires |inp.points| == 1 && Measured(inp, CandidateOf(inp, inp.points[0])) == Some(BEHIND)
    ensures |EmitAll(inp, Judged(inp)).points| == 1 && EmitAll(inp, Judged(inp)).points[0].error == BEHIND
  {
    var cs := Candidates(inp);
    assert cs[..0] == [];
    assert Residuals(inp, cs) == [] + [BEHIND] == [BEHIND];
    assert Reprojection.SortReals([BEHIND]) == [BEHIND] by {
      assert [BEHIND][1..] == [];
    }
    SentinelLarge();
    BehindEmitted(inp, 0);
    JudgedFields(inp, 0);
    assert Judged(inp)[..0] == [];
  }

  /** A candidate the first pass leaves unmeasured is accepted by the second with residual
      zero. By EveryoneMeasured this takes a repeated source id. */
  lemma UnmeasuredPasses<C, K>(inp: Input<C, K>, i: nat)
    requires i < |inp.points| && CandidateOf(inp, inp.points[i]).acceptance == Accepted
    requires Measured(inp, CandidateOf(inp, inp.points[i])).None?
    ensures Passed(Judged(inp)[i]) && Judged(inp)[i].residual == 0.0
  {
    JudgedFields(inp, i);
  }
}
