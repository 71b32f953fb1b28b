/** What the matches of two frames satisfy, and what is kept of them for the estimation
    (core/loop_closure/correspondence_reconstruction.h). */
module MatchingLaws {
  import opened Wrappers
  import opened Matching

  // ------------------------------------------------------------------- a partial injection

  /** Each source row has at most one match; in mutual mode each target row too. */
  lemma MatchesInject(m: Matcher, a: seq<Row>, b: seq<Row>, p: Pair, q: Pair)
    requires p in Matches(m, a, b) && q in Matches(m, a, b) && p != q
    ensures p.i != q.i && (m.mutual ==> p.j != q.j)
  {
    if p.i == q.i {
      NearestUnique(m, a[p.i], b, p.j, q.j);
    }
    if m.mutual && p.j == q.j {
      NearestUnique(m, b[p.j], a, p.i, q.i);
    }
  }

  // -------------------------------------------------------------------- what a distance measures

  lemma ProductZero(a: real, b: real)
    ensures a * b == 0.0 <==> a == 0.0 || b == 0.0
  {
  }

  lemma SquareZero(d: real)
    ensures d * d >= 0.0 && (d * d == 0.0 <==> d == 0.0)
  {
    ProductZero(d, d);
  }

  /** The sum of squares is zero exactly for rows that agree in each coordinate. */
  lemma {:induction false} ZeroExactly(x: Row, y: Row, n: nat)
    requires n <= |x| && n <= |y|
    ensures SumSquares(x, y, n) >= 0.0
    ensures SumSquares(x, y, n) == 0.0 <==> forall k :: 0 <= k < n ==> x[k] == y[k]
  {
    if n > 0 {
      ZeroExactly(x, y, n - 1);
      SquareZero(x[n - 1] - y[n - 1]);
    }
  }

  function Squared(d: real): real { d * d }

  lemma LastTerm(x: Row, y: Row, n: nat)
    requires 0 < n <= |x| && n <= |y|
    ensures SumSquares(x, y, n) == SumSquares(x, y, n - 1) + Squared(x[n - 1] - y[n - 1])
  {
  }

  /** Changing one coordinate replaces its squared difference by the new one. */
  lemma {:induction false} OneCoordinate(x: Row, z: Row, y: Row, n: nat, k: nat)
    requires k < n <= |x| == |z| && n <= |y| && z == x[k := z[k]]
    ensures SumSquares(z, y, n) == SumSquares(x, y, n) - Squared(x[k] - y[k]) + Squared(z[k] - y[k])
  {
    LastTerm(x, y, n);
    LastTerm(z, y, n);
    if k < n - 1 {
      OneCoordinate(x, z, y, n - 1, k);
    } else {
      SamePrefix(x, z, y, n - 1);
    }
  }

  lemma {:induction false} SamePrefix(x: Row, z: Row, y: Row, n: nat)
    requires n <= |x| && n <= |z| && n <= |y| && x[..n] == z[..n]
    ensures SumSquares(x, y, n) == SumSquares(z, y, n)
  {
    if n > 0 {
      assert x[..n - 1] == x[..n][..n - 1] && z[..n - 1] == z[..n][..n - 1];
      assert x[n - 1] == x[..n][n - 1] && z[n - 1] == z[..n][n - 1];
      SamePrefix(x, z, y, n - 1);
    }
  }

  /** With a square root, comparable rows have distance zero exactly when they are equal, and the
      squared distance is the sum of the squared differences of all their coordinates. */
  lemma DistanceIsMetric(m: Matcher, x: Row, y: Row)
    requires |x| == |y| && forall s :: s >= 0.0 ==> m.root(s) >= 0.0 && m.root(s) * m.root(s) == s
    ensures Distance(m, x, y) >= 0.0 && Squared(Distance(m, x, y)) == SumSquares(x, y, |x|)
    ensures Distance(m, x, y) == 0.0 <==> x == y
  {
    ZeroExactly(x, y, |x|);
    var s := SumSquares(x, y, |x|);
    assert m.root(s) >= 0.0 && m.root(s) * m.root(s) == s;
    SquareZero(m.root(s));
  }

  // ----------------------------------------------------------------------- swapping the frames

  function Flipped(p: Pair): Pair {
    Pair(p.j, p.i)
  }

  lemma MatchedFlips(m: Matcher, a: seq<Row>, b: seq<Row>, i: int, j: int)
    requires m.mutual
    ensures Matched(m, a, b, i, j) <==> Matched(m, b, a, j, i)
  {
    if 0 <= i < |a| && 0 <= j < |b| {
      DistanceSymmetric(m, a[i], b[j]);
    }
  }

  lemma ComparableFlips(a: seq<Row>, b: seq<Row>)
    requires Comparable(a, b)
    ensures Comparable(b, a)
  {
    assert |b[0]| == |a[0]|;
  }

  /** Swapping the frames transposes the mutual matches. */
  lemma SwapTransposes(m: Matcher, a: seq<Row>, b: seq<Row>, p: Pair)
    requires m.mutual
    ensures p in FrameMatches(m, a, b) <==> Flipped(p) in FrameMatches(m, b, a)
  {
    MatchedFlips(m, a, b, p.i, p.j);
    if Comparable(a, b) {
      ComparableFlips(a, b);
    }
    if Comparable(b, a) {
      ComparableFlips(b, a);
    }
  }

  lemma {:induction false} FlipKeepsSize(s: set<Pair>, t: set<Pair>)
    requires forall p :: p in s <==> Flipped(p) in t
    ensures |s| == |t|
    decreases |s|
  {
    forall q | q in t
      ensures Flipped(q) in s
    {
      assert Flipped(Flipped(q)) == q;
    }
    if s == {} {
      assert t == {};
    } else {
      var p :| p in s;
      FlipKeepsSize(s - {p}, t - {Flipped(p)});
    }
  }

  /** The mutual score is symmetric. */
  lemma ScoreSymmetric(m: Matcher, a: seq<Row>, b: seq<Row>)
    requires m.mutual
    ensures |FrameMatches(m, a, b)| == |FrameMatches(m, b, a)|
  {
    forall p
      ensures p in FrameMatches(m, a, b) <==> Flipped(p) in FrameMatches(m, b, a)
    {
      SwapTransposes(m, a, b, p);
    }
    FlipKeepsSize(FrameMatches(m, a, b), FrameMatches(m, b, a));
  }

  /** Without the mutual test it is not: two equal rows match one, which matches the first. */
  lemma OneWayScoreAsymmetric(m: Matcher, x: Row)
    requires !m.mutual && |x| > 0 && Within(m, x, x)
    ensures FrameMatches(m, [x, x], [x]) == {Pair(0, 0), Pair(1, 0)} && FrameMatches(m, [x], [x, x]) == {Pair(0, 0)}
  {
    var one, two := [x], [x, x];
    assert Comparable(two, one) && Comparable(one, two);
    assert NearestAt(m, two[0], one, 0) && NearestAt(m, two[1], one, 0);
    assert NearestAt(m, one[0], two, 0) && !NearestAt(m, one[0], two, 1);
    assert Matched(m, two, one, 0, 0) && Matched(m, two, one, 1, 0);
    assert Matched(m, one, two, 0, 0) && !Matched(m, one, two, 0, 1);
  }

  // --------------------------------------------------------------------- when anything matches

  /** The first of the rows closest to x. */
  lemma {:induction false} NearestExists(m: Matcher, x: Row, rows: seq<Row>) returns (k: int)
    requires rows != []
    ensures NearestAt(m, x, rows, k)
  {
    if |rows| == 1 {
      k := 0;
    } else {
      var front := rows[..|rows| - 1];
      k := NearestExists(m, x, front);
      if Distance(m, x, rows[|rows| - 1]) < Distance(m, x, rows[k]) {
        k := |rows| - 1;
      }
    }
  }

  /** The distance of a row from its nearest. */
  ghost predicate ClosestAt(m: Matcher, a: seq<Row>, b: seq<Row>, i: int, j: int) {
    0 <= i < |a| && 0 <= j < |b| &&
    (forall k, l :: 0 <= k < |a| && 0 <= l < |b| ==> Distance(m, a[i], b[j]) <= Distance(m, a[k], b[l])) &&
    (forall k, l :: 0 <= k < i && 0 <= l < |b| ==> Distance(m, a[i], b[j]) < Distance(m, a[k], b[l])) &&
    forall l :: 0 <= l < j ==> Distance(m, a[i], b[j]) < Distance(m, a[i], b[l])
  }

  /** A further row that comes closer takes over the closest pair; otherwise the pair stays. */
  lemma ClosestExtends(m: Matcher, a: seq<Row>, b: seq<Row>, i: int, j: int, k: int)
    requires |a| > 1 && ClosestAt(m, a[..|a| - 1], b, i, j) && NearestAt(m, a[|a| - 1], b, k)
    ensures if Distance(m, a[|a| - 1], b[k]) < Distance(m, a[i], b[j]) then ClosestAt(m, a, b, |a| - 1, k)
            else ClosestAt(m, a, b, i, j)
  {
    var x := a[|a| - 1];
    forall h, l | 0 <= h < |a| && 0 <= l < |b|
      ensures Distance(m, a[h], b[l]) >= if h == |a| - 1 then Distance(m, x, b[k]) else Distance(m, a[i], b[j])
    {
      assert h < |a| - 1 ==> a[h] == a[..|a| - 1][h];
    }
  }

  /** The closest pair of all, the first one row by row. */
  lemma {:induction false} ClosestExists(m: Matcher, a: seq<Row>, b: seq<Row>) returns (i: int, j: int)
    requires a != [] && b != []
    ensures ClosestAt(m, a, b, i, j)
  {
    var n := |a| - 1;
    var k := NearestExists(m, a[n], b);
    if n == 0 {
      i, j := 0, k;
    } else {
      i, j := ClosestExists(m, a[..n], b);
      ClosestExtends(m, a, b, i, j, k);
      if Distance(m, a[n], b[k]) < Distance(m, a[i], b[j]) {
        i, j := n, k;
      }
    }
  }

  /** The first closest pair is mutual. */
  lemma ClosestIsMutual(m: Matcher, a: seq<Row>, b: seq<Row>, i: int, j: int)
    requires ClosestAt(m, a, b, i, j)
    ensures NearestAt(m, a[i], b, j) && NearestAt(m, b[j], a, i)
  {
    forall k | 0 <= k < |a|
      ensures Distance(m, b[j], a[k]) == Distance(m, a[k], b[j])
    {
      DistanceSymmetric(m, b[j], a[k]);
    }
  }

  /** Two comparable frames have a match exactly when some pair of rows is within the threshold. */
  lemma MatchExists(m: Matcher, a: seq<Row>, b: seq<Row>)
    requires Comparable(a, b)
    ensures FrameMatches(m, a, b) != {} <==> exists i, j :: 0 <= i < |a| && 0 <= j < |b| && Within(m, a[i], b[j])
  {
    if FrameMatches(m, a, b) != {} {
      var p :| p in FrameMatches(m, a, b);
      assert Within(m, a[p.i], b[p.j]);
    }
    forall k, l | 0 <= k < |a| && 0 <= l < |b| && Within(m, a[k], b[l])
      ensures FrameMatches(m, a, b) != {}
    {
      var i, j := ClosestExists(m, a, b);
      ClosestIsMutual(m, a, b, i, j);
      assert Pair(i, j) in FrameMatches(m, a, b);
    }
  }

  // ------------------------------------------------------------------------- reconstruction

  /** None stands for a coordinate that is not finite. */
  datatype Keypoint = Keypoint(x: Option<real>, y: Option<real>)

  datatype Features = Features(keypoints: seq<Keypoint>, rows: seq<Row>)

  datatype FeatureError = InvalidFeatures | IndexOutOfRange

  predicate WellFormed(f: Features) {
    f.rows != [] && |f.keypoints| == |f.rows|
  }

  predicate InRange(s: Features, t: Features, c: Correspondence) {
    0 <= c.source < |s.rows| && 0 <= c.target < |t.rows|
  }

  predicate FinitePoint(k: Keypoint) {
    k.x.Some? && k.y.Some?
  }

  predicate FiniteAt(s: Features, t: Features, c: Correspondence) {
    0 <= c.source < |s.keypoints| && 0 <= c.target < |t.keypoints| &&
    FinitePoint(s.keypoints[c.source]) && FinitePoint(t.keypoints[c.target])
  }

  predicate Claims(cs: seq<Correspondence>, target: int) {
    exists k :: 0 <= k < |cs| && cs[k].target == target
  }

  /** The finite correspondences among the first n, each target's first one only. */
  function Kept(s: Features, t: Features, cs: seq<Correspondence>, n: nat): seq<Correspondence>
    requires n <= |cs|
  {
    if n == 0 then []
    else
      var before := Kept(s, t, cs, n - 1);
      if FiniteAt(s, t, cs[n - 1]) && !Claims(before, cs[n - 1].target) then before + [cs[n - 1]] else before
  }

  /** Keeps the finite correspondences, one for each target, or names what is malformed. */
  method ReconstructCorrespondences(s: Features, t: Features, cs: seq<Correspondence>)
    returns (r: Result<seq<Correspondence>, FeatureError>)
    requires forall k :: 0 <= k < |cs| ==> cs[k].source >= 0 && cs[k].target >= 0
    ensures !(WellFormed(s) && WellFormed(t)) ==> r == Err(InvalidFeatures)
    ensures WellFormed(s) && WellFormed(t) ==>
              r == if forall k :: 0 <= k < |cs| ==> InRange(s, t, cs[k]) then Ok(Kept(s, t, cs, |cs|))
                   else Err(IndexOutOfRange)
  {
    if s.rows == [] || t.rows == [] || |s.keypoints| != |s.rows| || |t.keypoints| != |t.rows| {
      return Err(InvalidFeatures);
    }
    var out: seq<Correspondence> := [];
    var seen := new bool[|t.rows|](_ => false);
    for n := 0 to |cs|
      invariant out == Kept(s, t, cs, n)
      invariant seen.Length == |t.rows| && forall j :: 0 <= j < |t.rows| ==> (seen[j] <==> Claims(out, j))
      invariant forall k :: 0 <= k < n ==> InRange(s, t, cs[k])
    {
      var c := cs[n];
      if c.source >= |s.rows| || c.target >= |t.rows| {
        return Err(IndexOutOfRange);
      }
      if FinitePoint(s.keypoints[c.source]) && FinitePoint(t.keypoints[c.target]) && !seen[c.target] {
        seen[c.target] := true;
        ClaimsExtends(out, c);
        out := out + [c];
      }
    }
    r := Ok(out);
  }

  lemma ClaimsExtends(cs: seq<Correspondence>, c: Correspondence)
    ensures forall j :: Claims(cs + [c], j) <==> Claims(cs, j) || j == c.target
  {
    forall j
      ensures Claims(cs + [c], j) <==> Claims(cs, j) || j == c.target
    {
      if Claims(cs, j) {
        var k :| 0 <= k < |cs| && cs[k].target == j;
        assert (cs + [c])[k].target == j;
      }
      assert (cs + [c])[|cs|] == c;
    }
  }

  /** Whatever the matcher returned, no target is kept twice, what is kept is finite, and a
      finite correspondence is dropped only for an earlier one to the same target. */
  lemma {:induction false} KeptSound(s: Features, t: Features, cs: seq<Correspondence>, n: nat)
    requires n <= |cs|
    ensures forall k, l :: 0 <= k < l < |Kept(s, t, cs, n)| ==>
              Kept(s, t, cs, n)[k].target != Kept(s, t, cs, n)[l].target
    ensures forall c :: c in Kept(s, t, cs, n) ==> c in cs[..n] && FiniteAt(s, t, c)
    ensures forall k :: 0 <= k < n && FiniteAt(s, t, cs[k]) ==> Claims(Kept(s, t, cs, n), cs[k].target)
  {
    if n > 0 {
      KeptSound(s, t, cs, n - 1);
      ClaimsExtends(Kept(s, t, cs, n - 1), cs[n - 1]);
    }
  }

  function FiniteOnly(s: Features, t: Features, cs: seq<Correspondence>, n: nat): seq<Correspondence>
    requires n <= |cs|
  {
    if n == 0 then []
    else FiniteOnly(s, t, cs, n - 1) + if FiniteAt(s, t, cs[n - 1]) then [cs[n - 1]] else []
  }

  lemma {:induction false} KeptIsFilter(s: Features, t: Features, cs: seq<Correspondence>, n: nat)
    requires n <= |cs| && forall k, l :: 0 <= k < l < |cs| ==> cs[k].target != cs[l].target
    ensures Kept(s, t, cs, n) == FiniteOnly(s, t, cs, n)
  {
    if n > 0 {
      KeptIsFilter(s, t, cs, n - 1);
      KeptSound(s, t, cs, n - 1);
      var before := Kept(s, t, cs, n - 1);
      forall k | 0 <= k < |before|
        ensures before[k].target != cs[n - 1].target
      {
        assert before[k] in cs[..n - 1];
      }
    }
  }

  /** The targets the matcher emits in mutual mode are distinct, as long as they fit 32 bits. */
  lemma EmittedTarget(m: Matcher, a: seq<Row>, b: seq<Row>, ps: seq<Pair>, out: seq<Correspondence>, k: nat)
    requires |b| <= WIDTH && EmittedAs(m, a, b, ps, out) && k < |out|
    ensures out[k].target == ps[k].j
  {
  }

  lemma ListedPairsDiffer(m: Matcher, a: seq<Row>, b: seq<Row>, ps: seq<Pair>, k: nat, l: nat)
    requires m.mutual && Lists(ps, FrameMatches(m, a, b)) && k < l < |ps|
    ensures ps[k].j != ps[l].j
  {
    assert ps[k] in ps && ps[l] in ps;
    MatchesInject(m, a, b, ps[k], ps[l]);
  }

  lemma EmittedTargetsDistinct(m: Matcher, a: seq<Row>, b: seq<Row>, ps: seq<Pair>, out: seq<Correspondence>)
    requires m.mutual && |b| <= WIDTH && Lists(ps, FrameMatches(m, a, b)) && EmittedAs(m, a, b, ps, out)
    ensures forall k, l :: 0 <= k < l < |out| ==> out[k].target != out[l].target
  {
    forall k, l | 0 <= k < l < |out|
      ensures out[k].target != out[l].target
    {
      ListedPairsDiffer(m, a, b, ps, k, l);
      EmittedTarget(m, a, b, ps, out, k);
      EmittedTarget(m, a, b, ps, out, l);
    }
  }

  lemma EmittedInRange(m: Matcher, s: Features, t: Features, ps: seq<Pair>, out: seq<Correspondence>)
    requires EmittedAs(m, s.rows, t.rows, ps, out)
    ensures forall k :: 0 <= k < |out| ==> InRange(s, t, out[k])
  {
    forall k | 0 <= k < |out|
      ensures InRange(s, t, out[k])
    {
      CastBelow(ps[k].i);
      CastBelow(ps[k].j);
    }
  }

  lemma CastBelow(i: int)
    requires i >= 0
    ensures 0 <= i % WIDTH <= i
  {
  }

  /** With the mutual matcher, only correspondences whose keypoints are not finite are dropped. */
  method Correspondences(m: Matcher, s: Features, t: Features)
    returns (r: Result<seq<Correspondence>, FeatureError>, ghost matched: seq<Correspondence>, ghost ps: seq<Pair>)
    ensures Lists(ps, FrameMatches(m, s.rows, t.rows)) && EmittedAs(m, s.rows, t.rows, ps, matched)
    ensures r.Ok? <==> WellFormed(s) && WellFormed(t)
    ensures r.Ok? && m.mutual && |t.rows| <= WIDTH ==> r.value == FiniteOnly(s, t, matched, |matched|)
  {
    matched := [];
    var cs;
    cs, ps := MatchCorrespondences(m, s.rows, t.rows);
    matched := cs;
    EmittedInRange(m, s, t, ps, cs);
    r := ReconstructCorrespondences(s, t, cs);
    if m.mutual && |t.rows| <= WIDTH {
      EmittedTargetsDistinct(m, s.rows, t.rows, ps, cs);
      KeptIsFilter(s, t, cs, |cs|);
    }
  }
}
