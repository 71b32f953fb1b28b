/** What the output of a re-triangulation says of each source point: which new point it became,
    under which id, and by which numbers that was decided. */
module RetriangulationLineage {
  import opened Wrappers
  import opened Geometry
  import opened Triangulation
  import opened Retriangulation
  import opened RetriangulationLaws
  import Reprojection

  // ------------------------------------------------------------------------- source to target

  lemma {:induction false} PositionIndex(cs: seq<Candidate>, i: nat)
    requires i < |cs| && Passed(cs[i])
    ensures var k := |Positions(cs[..i])|; k < |Positions(cs)| && Positions(cs)[k] == i
    decreases |cs|
  {
    var n := |cs| - 1;
    if i < n {
      PositionIndex(cs[..n], i);
      assert cs[..n][..i] == cs[..i];
    }
  }

  lemma {:induction false} PositionsOfPassed(cs: seq<Candidate>, ps: seq<int>, k: nat)
    requires ps == Positions(cs) && k < |ps|
    ensures 0 <= ps[k] < |cs| && Passed(cs[ps[k]]) && |Positions(cs[..ps[k]])| == k
  {
    PositionsRise(cs);
    var i := ps[k];
    PositionIndex(cs, i);
    RisingInjective(ps, |Positions(cs[..i])|, k);
  }

  lemma {:induction false} RisingInjective(ps: seq<int>, j: nat, k: nat)
    requires (forall a, b :: 0 <= a < b < |ps| ==> ps[a] < ps[b]) && j < |ps| && k < |ps| && ps[j] == ps[k]
    ensures j == k
  {
  }

  /** One more candidate leaves what the others left. */
  lemma {:induction false} EmitExtends<C, K>(inp: Input<C, K>, before: Output, c: Candidate, o: Output)
    requires o == Emit(inp, before, c)
    ensures |o.entries| == |before.entries| + 1 && before.entries <= o.entries
    ensures before.points <= o.points && before.replaced <= o.replaced
  {
  }

  /** What a candidate leaves in the output, and under which id. */
  predicate Leaves(before: Output, o: Output, c: Candidate, stability: real, e: Entry) {
    && (!Passed(c) ==> e.target == 0)
    && (Passed(c) && Stable(c, stability) ==> e.target == c.id)
    && (Passed(c) && !Stable(c, stability) ==> e.target == 10001 + before.replaced && before.replaced < o.replaced)
    && (Passed(c) ==> |before.points| < |o.points| && o.points[|before.points|].id == e.target)
  }

  lemma {:induction false} EmitLeaves<C, K>(inp: Input<C, K>, before: Output, c: Candidate, o: Output)
    requires o == Emit(inp, before, c)
    ensures Leaves(before, o, c, inp.stability, o.entries[|before.entries|])
  {
  }

  lemma {:induction false} StillLeaves(before: Output, o: Output, more: Output, c: Candidate, stability: real, e: Entry)
    requires Leaves(before, o, c, stability, e) && o.points <= more.points && o.replaced <= more.replaced
    ensures Leaves(before, more, c, stability, e)
  {
  }

  predicate EntryLeaves<C, K>(inp: Input<C, K>, before: Output, o: Output, cs: seq<Candidate>, i: nat)
    requires i < |cs|
  {
    |o.entries| == |cs| && 0 <= before.replaced <= o.replaced
    && Leaves(before, o, cs[i], inp.stability, o.entries[i])
  }

  lemma {:induction false} EntryOfMore<C, K>(inp: Input<C, K>, cs: seq<Candidate>, i: nat, before: Output, last: Output,
                                             o: Output)
    requires i < |cs| - 1 && EntryLeaves(inp, before, last, cs[..|cs| - 1], i) && o == Emit(inp, last, cs[|cs| - 1])
    ensures EntryLeaves(inp, before, o, cs, i)
  {
    EmitExtends(inp, last, cs[|cs| - 1], o);
    assert o.entries[i] == last.entries[i];
    StillLeaves(before, last, o, cs[i], inp.stability, last.entries[i]);
  }

  lemma {:induction false} EntryOfLast<C, K>(inp: Input<C, K>, cs: seq<Candidate>, last: Output, o: Output)
    requires cs != [] && o == Emit(inp, last, cs[|cs| - 1]) && |last.entries| == |cs| - 1 && last.replaced >= 0
    ensures EntryLeaves(inp, last, o, cs, |cs| - 1)
  {
    EmitExtends(inp, last, cs[|cs| - 1], o);
    EmitLeaves(inp, last, cs[|cs| - 1], o);
  }

  lemma {:induction false} EntryAt<C, K>(inp: Input<C, K>, cs: seq<Candidate>, i: nat)
    requires i < |cs|
    ensures EntryLeaves(inp, EmitAll(inp, cs[..i]), EmitAll(inp, cs), cs, i)
    decreases |cs|
  {
    var n := |cs| - 1;
    if i < n {
      EntryAt(inp, cs[..n], i);
      assert cs[..n][..i] == cs[..i];
      EntryOfMore(inp, cs, i, EmitAll(inp, cs[..i]), EmitAll(inp, cs[..n]), EmitAll(inp, cs));
    } else {
      EmitCounts(inp, cs[..n]);
      EntryOfLast(inp, cs, EmitAll(inp, cs[..n]), EmitAll(inp, cs));
    }
  }

  lemma {:induction false} ReplacedRise<C, K>(inp: Input<C, K>, cs: seq<Candidate>, i: nat, j: nat)
    requires i < j < |cs| && Passed(cs[i]) && !Stable(cs[i], inp.stability)
    requires Passed(cs[j]) && !Stable(cs[j], inp.stability)
    ensures var o := EmitAll(inp, cs); |o.entries| == |cs| && o.entries[i].target < o.entries[j].target
  {
    EntryAt(inp, cs, i);
    EntryAt(inp, cs, j);
    EntryAt(inp, cs[..j], i);
    assert cs[..j][..i] == cs[..i];
  }

  /** Closer than a positive distance. */
  predicate Near(a: Vec3, b: Vec3, distance: real) {
    distance > 0.0 && Norm2(Sub(b, a)) < distance * distance
  }

  lemma {:induction false} StableIsNear(c: Candidate, stability: real)
    ensures Stable(c, stability) <==> Near(c.was, c.xyz, stability)
  {
  }

  /** The new point that stands for the source point at a position: the lineage entry of the
      source names the new point's id, and says whether the id was kept. */
  predicate Became<C, K>(inp: Input<C, K>, o: Output, i: int, k: int)
    requires |o.entries| == |inp.points|
  {
    && 0 <= i < |inp.points| && 0 <= k < |o.points|
    && o.entries[i].target == o.points[k].id
    && if Near(inp.points[i].xyz, o.points[k].xyz, inp.stability)
       then o.entries[i].lineage == Preserved && o.points[k].id == inp.points[i].id
       else o.entries[i].lineage == Replaced && 10001 <= o.points[k].id < 10001 + o.replaced
  }

  /** Each source point either became one of the new points, in order, or was rejected: then its
      entry names no point. A point that moved less than the stability distance keeps its id,
      the others get fresh ids from 10001 on, in order. */
  lemma {:induction false} LineageTargets<C, K>(inp: Input<C, K>) returns (ps: seq<int>)
    ensures var o := EmitAll(inp, Judged(inp));
            && |o.entries| == |inp.points| && |ps| == |o.points|
            && (forall j, k :: 0 <= j < k < |ps| ==> ps[j] < ps[k])
            && (forall k :: 0 <= k < |ps| ==> Became(inp, o, ps[k], k))
            && (forall i :: 0 <= i < |inp.points| && i !in ps ==>
                  o.entries[i].lineage == Rejected && o.entries[i].target == 0)
            && (forall i, j :: 0 <= i < j < |inp.points| && o.entries[i].lineage == o.entries[j].lineage == Replaced ==>
                  o.entries[i].target < o.entries[j].target)
  {
    var cs := Judged(inp);
    var o := EmitAll(inp, cs);
    ps := Positions(cs);
    PositionsRise(cs);
    EmittedAt(inp, cs);
    EmitCounts(inp, cs);
    forall k | 0 <= k < |ps|
      ensures Became(inp, o, ps[k], k)
    {
      BecameAt(inp, ps, k);
    }
    forall i | 0 <= i < |inp.points| && i !in ps
      ensures o.entries[i].lineage == Rejected && o.entries[i].target == 0
    {
      EntryAt(inp, cs, i);
    }
    forall i, j | 0 <= i < j < |inp.points| && o.entries[i].lineage == o.entries[j].lineage == Replaced
      ensures o.entries[i].target < o.entries[j].target
    {
      ReplacedRise(inp, cs, i, j);
    }
  }

  lemma {:induction false} BecameAt<C, K>(inp: Input<C, K>, ps: seq<int>, k: nat)
    requires ps == Positions(Judged(inp)) && k < |ps| == |EmitAll(inp, Judged(inp)).points|
    requires |EmitAll(inp, Judged(inp)).entries| == |inp.points|
    ensures Became(inp, EmitAll(inp, Judged(inp)), ps[k], k)
  {
    var cs := Judged(inp);
    PositionsOfPassed(cs, ps, k);
    EmittedAt(inp, cs);
    EmittedAt(inp, cs[..ps[k]]);
    EmitCounts(inp, cs);
    EntryAt(inp, cs, ps[k]);
    JudgedFields(inp, ps[k]);
    var o, c := EmitAll(inp, cs), cs[ps[k]];
    assert o.points[k].xyz == c.xyz && c.was == inp.points[ps[k]].xyz;
    StableIsNear(c, inp.stability);
    assert Stable(c, inp.stability) <==> o.entries[ps[k]].lineage == Preserved;
  }

  function HowMany(es: seq<Entry>, l: Lineage): nat {
    if es == [] then 0 else HowMany(es[..|es| - 1], l) + if es[|es| - 1].lineage == l then 1 else 0
  }

  lemma {:induction false} HowManySnoc(es: seq<Entry>, e: Entry, l: Lineage)
    ensures HowMany(es + [e], l) == HowMany(es, l) + if e.lineage == l then 1 else 0
  {
    assert (es + [e])[..|es|] == es;
  }

  /** The three counts are the numbers of lineage entries of each kind. */
  lemma {:induction false} CountsLineages<C, K>(inp: Input<C, K>, cs: seq<Candidate>)
    ensures var o := EmitAll(inp, cs);
            && o.preserved == HowMany(o.entries, Preserved) && o.replaced == HowMany(o.entries, Replaced)
            && o.rejected == HowMany(o.entries, Rejected)
  {
    if cs != [] {
      var n := |cs| - 1;
      CountsLineages(inp, cs[..n]);
      CountsOne(inp, EmitAll(inp, cs[..n]), cs[n], EmitAll(inp, cs));
    }
  }

  lemma {:induction false} CountsOne<C, K>(inp: Input<C, K>, before: Output, c: Candidate, o: Output)
    requires o == Emit(inp, before, c)
    ensures o.preserved - before.preserved == HowMany(o.entries, Preserved) - HowMany(before.entries, Preserved)
    ensures o.replaced - before.replaced == HowMany(o.entries, Replaced) - HowMany(before.entries, Replaced)
    ensures o.rejected - before.rejected == HowMany(o.entries, Rejected) - HowMany(before.entries, Rejected)
  {
    var e := o.entries[|before.entries|];
    assert o.entries == before.entries + [e];
    HowManySnoc(before.entries, e, Preserved);
    HowManySnoc(before.entries, e, Replaced);
    HowManySnoc(before.entries, e, Rejected);
  }

  // ----------------------------------------------------------------------- which points pass

  /** A candidate passes exactly when it meets the geometric tests and its residual is at most
      two pixels or three times the median of the measured residuals. */
  lemma {:induction false} PassedExactly<C, K>(inp: Input<C, K>, i: nat)
    requires i < |inp.points|
    ensures var c, median := Judged(inp)[i], Reprojection.Median(Residuals(inp, Candidates(inp)));
            Passed(c) <==> CandidateOf(inp, inp.points[i]).acceptance == Accepted
                           && (c.residual <= 2.0 || c.residual <= 3.0 * median)
  {
    JudgedFields(inp, i);
  }

  /** Every new point's residual is within the larger of two pixels and three medians. */
  lemma {:induction false} EmittedWithin<C, K>(inp: Input<C, K>, k: nat)
    requires k < |EmitAll(inp, Judged(inp)).points|
    ensures var r := EmitAll(inp, Judged(inp)).points[k].error;
            var median := Reprojection.Median(Residuals(inp, Candidates(inp)));
            r <= 2.0 || r <= 3.0 * median
  {
    var cs := Judged(inp);
    EmittedAt(inp, cs);
    var ps := Positions(cs);
    PositionsRise(cs);
    PassedExactly(inp, ps[k]);
  }

  // ------------------------------------------------------------------- what a residual measures

  /** The sum of the residuals of a track's observations. */
  function Total<C, K>(inp: Input<C, K>, xyz: Vec3, used: seq<Slot>): real
    requires forall s :: s in used ==> Resolved(inp, s) && ResidualAt(inp, xyz, s).Some?
  {
    if used == [] then 0.0 else ResidualAt(inp, xyz, used[0]).value + Total(inp, xyz, used[1..])
  }

  ghost predicate AllInFront<C, K>(inp: Input<C, K>, xyz: Vec3, used: seq<Slot>) {
    forall s :: s in used ==> Resolved(inp, s) && ResidualAt(inp, xyz, s).Some?
  }

  lemma {:induction false} TotalSnoc<C, K>(inp: Input<C, K>, xyz: Vec3, used: seq<Slot>, s: Slot)
    requires AllInFront(inp, xyz, used) && Resolved(inp, s) && ResidualAt(inp, xyz, s).Some?
    ensures AllInFront(inp, xyz, used + [s])
    ensures Total(inp, xyz, used + [s]) == Total(inp, xyz, used) + ResidualAt(inp, xyz, s).value
  {
    if used == [] {
      assert used + [s] == [s] && [s][1..] == [];
    } else {
      TotalSnoc(inp, xyz, used[1..], s);
      assert (used + [s])[1..] == used[1..] + [s];
    }
  }

  lemma {:induction false} FrontPart<C, K>(inp: Input<C, K>, xyz: Vec3, used: seq<Slot>)
    requires used != [] && AllInFront(inp, xyz, used)
    ensures AllInFront(inp, xyz, used[..|used| - 1])
    ensures Resolved(inp, used[|used| - 1]) && ResidualAt(inp, xyz, used[|used| - 1]).Some?
  {
    assert used[|used| - 1] in used;
  }

  lemma {:induction false} SumOfLast<C, K>(inp: Input<C, K>, xyz: Vec3, used: seq<Slot>, s: Slot, sum: real)
    requires AllInFront(inp, xyz, used + [s]) && AllInFront(inp, xyz, used)
    requires Resolved(inp, s) && ResidualAt(inp, xyz, s).Some? && SumResiduals(inp, xyz, used) == Some(sum)
    ensures SumResiduals(inp, xyz, used + [s]) == Some(sum + ResidualAt(inp, xyz, s).value)
  {
    assert (used + [s])[..|used|] == used;
  }

  lemma {:induction false} SumIsTotal<C, K>(inp: Input<C, K>, xyz: Vec3, used: seq<Slot>)
    requires AllInFront(inp, xyz, used)
    ensures SumResiduals(inp, xyz, used) == Some(Total(inp, xyz, used))
    decreases |used|
  {
    if used != [] {
      var front, s := used[..|used| - 1], used[|used| - 1];
      assert used == front + [s];
      FrontPart(inp, xyz, used);
      SumIsTotal(inp, xyz, front);
      TotalSnoc(inp, xyz, front, s);
      SumOfLast(inp, xyz, front, s, Total(inp, xyz, front));
    }
  }

  lemma {:induction false} NoSum<C, K>(inp: Input<C, K>, xyz: Vec3, used: seq<Slot>, i: nat)
    requires (forall s :: s in used ==> Resolved(inp, s)) && i < |used| && ResidualAt(inp, xyz, used[i]).None?
    ensures SumResiduals(inp, xyz, used).None?
    decreases |used|
  {
    var n := |used| - 1;
    if i < n {
      NoSum(inp, xyz, used[..n], i);
    }
  }

  lemma {:induction false} MeanIsTotal<C, K>(inp: Input<C, K>, xyz: Vec3, used: seq<Slot>)
    requires used != [] && forall s :: s in used ==> Resolved(inp, s)
    ensures var r := MeanResidual(inp, xyz, used);
            if AllInFront(inp, xyz, used) then r == Total(inp, xyz, used) / |used| as real else r == BEHIND
  {
    if AllInFront(inp, xyz, used) {
      SumIsTotal(inp, xyz, used);
    } else {
      var s :| s in used && ResidualAt(inp, xyz, s).None?;
      var i :| 0 <= i < |used| && used[i] == s;
      NoSum(inp, xyz, used, i);
    }
  }

  /** The elements a measurement uses are those of the track with a view and a keypoint, each as
      often as the track has it. */
  lemma {:induction false} UsableExactly<C, K>(inp: Input<C, K>, track: seq<Slot>, s: Slot)
    ensures multiset(Usable(inp, track))[s] == if Resolved(inp, s) then multiset(track)[s] else 0
    decreases |track|
  {
    if track != [] {
      var n := |track| - 1;
      UsableExactly(inp, track[..n], s);
      assert track == track[..n] + [track[n]];
    }
  }

  /** A measured candidate has at least two usable observations on the track of the first source
      point with its id. Its residual is the mean of theirs, or the sentinel when the candidate is
      not in front of them all. */
  lemma {:induction false} MeasuredMeans<C, K>(inp: Input<C, K>, c: Candidate, p: SourcePoint)
    requires Measured(inp, c).Some? && FindPoint(inp.points, c.id) == Some(p)
    ensures var used, r := Usable(inp, p.track), Measured(inp, c).value;
            && |used| >= 2
            && if AllInFront(inp, c.xyz, used) then r == Total(inp, c.xyz, used) / |used| as real else r == BEHIND
  {
    UsableResolved(inp, p.track);
    MeanIsTotal(inp, c.xyz, Usable(inp, p.track));
  }
}
