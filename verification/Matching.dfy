/** Reciprocal nearest-neighbour matching of descriptor rows
    (adapters/visual_matching/visual_matcher_adapter.h), with distances over the reals. */
module Matching {
  import opened Wrappers

  type Row = seq<real>

  /** The square root the distances take, the distance threshold, and whether only mutual
      matches count. */
  datatype Matcher = Matcher(root: real -> real, threshold: real, mutual: bool)

  function Smaller(a: nat, b: nat): (r: nat)
    ensures r <= a && r <= b
  {
    if a <= b then a else b
  }

  function SumSquares(x: Row, y: Row, n: nat): real
    requires n <= |x| && n <= |y|
  {
    if n == 0 then 0.0 else SumSquares(x, y, n - 1) + (x[n - 1] - y[n - 1]) * (x[n - 1] - y[n - 1])
  }

  function Distance(m: Matcher, x: Row, y: Row): real {
    m.root(SumSquares(x, y, Smaller(|x|, |y|)))
  }

  lemma {:induction false} SumSquaresSymmetric(x: Row, y: Row, n: nat)
    requires n <= |x| && n <= |y|
    ensures SumSquares(x, y, n) == SumSquares(y, x, n)
  {
    if n > 0 {
      SumSquaresSymmetric(x, y, n - 1);
      var d := x[n - 1] - y[n - 1];
      assert y[n - 1] - x[n - 1] == -d && d * d == (-d) * (-d);
    }
  }

  lemma DistanceSymmetric(m: Matcher, x: Row, y: Row)
    ensures Distance(m, x, y) == Distance(m, y, x)
  {
    SumSquaresSymmetric(x, y, Smaller(|x|, |y|));
  }

  method L2(m: Matcher, x: Row, y: Row) returns (d: real)
    ensures d == Distance(m, x, y)
  {
    var s := 0.0;
    var n := Smaller(|x|, |y|);
    for i := 0 to n
      invariant s == SumSquares(x, y, i)
    {
      var d := x[i] - y[i];
      s := s + d * d;
    }
    d := m.root(s);
  }

  // ---------------------------------------------------------------------- what a match is

  /** The first of the rows at the least distance. */
  ghost predicate NearestAt(m: Matcher, x: Row, rows: seq<Row>, k: int) {
    0 <= k < |rows| &&
    (forall j :: 0 <= j < |rows| ==> Distance(m, x, rows[k]) <= Distance(m, x, rows[j])) &&
    forall j :: 0 <= j < k ==> Distance(m, x, rows[k]) < Distance(m, x, rows[j])
  }

  predicate Within(m: Matcher, x: Row, y: Row) {
    Distance(m, x, y) <= m.threshold
  }

  ghost predicate Matched(m: Matcher, a: seq<Row>, b: seq<Row>, i: int, j: int) {
    0 <= i < |a| && NearestAt(m, a[i], b, j) && Within(m, a[i], b[j]) && (m.mutual ==> NearestAt(m, b[j], a, i))
  }

  datatype Pair = Pair(i: int, j: int)

  ghost function Matches(m: Matcher, a: seq<Row>, b: seq<Row>): set<Pair> {
    set i, j | 0 <= i < |a| && 0 <= j < |b| && Matched(m, a, b, i, j) :: Pair(i, j)
  }

  /** Both frames have rows, and all rows share one positive length. */
  predicate Comparable(a: seq<Row>, b: seq<Row>) {
    && a != [] && b != [] && |a[0]| > 0
    && (forall i :: 0 <= i < |a| ==> |a[i]| == |a[0]|) && (forall j :: 0 <= j < |b| ==> |b[j]| == |a[0]|)
  }

  ghost function FrameMatches(m: Matcher, a: seq<Row>, b: seq<Row>): set<Pair> {
    if Comparable(a, b) then Matches(m, a, b) else {}
  }

  // ------------------------------------------------------------------- the tables of nearest rows

  /** An entry of a table: the nearest row if it is within the threshold. */
  ghost predicate EntryAt(m: Matcher, x: Row, rows: seq<Row>, e: Option<int>) {
    match e
    case None => forall j :: 0 <= j < |rows| ==> !Within(m, x, rows[j])
    case Some(k) => NearestAt(m, x, rows, k) && Within(m, x, rows[k])
  }

  /** An entry with its distance. */
  ghost predicate FilledAt(m: Matcher, x: Row, rows: seq<Row>, e: Option<int>, d: real) {
    EntryAt(m, x, rows, e) && (e.Some? ==> d == Distance(m, x, rows[e.value]))
  }

  ghost predicate IsFilled(m: Matcher, rows: seq<Row>, others: seq<Row>, to: seq<Option<int>>, dist: seq<real>) {
    |to| == |dist| == |rows| && forall i :: 0 <= i < |rows| ==> FilledAt(m, rows[i], others, to[i], dist[i])
  }

  ghost predicate IsTable(m: Matcher, rows: seq<Row>, others: seq<Row>, to: seq<Option<int>>) {
    |to| == |rows| && forall i :: 0 <= i < |rows| ==> EntryAt(m, rows[i], others, to[i])
  }

  /** Nearest of the first n rows so far; no distance yet stands for infinity. */
  ghost predicate BestSoFar(m: Matcher, x: Row, rows: seq<Row>, n: nat, best: nat, bestD: Option<real>)
    requires n <= |rows|
  {
    match bestD
    case None => n == 0
    case Some(d) => NearestAt(m, x, rows[..n], best) && d == Distance(m, x, rows[best])
  }

  method NearestRow(m: Matcher, x: Row, rows: seq<Row>) returns (e: Option<int>, d: real)
    requires rows != []
    ensures FilledAt(m, x, rows, e, d)
  {
    var best: nat := 0;
    var bestD: Option<real> := None;
    for j := 0 to |rows|
      invariant BestSoFar(m, x, rows, j, best, bestD)
    {
      var d := L2(m, x, rows[j]);
      if bestD == None || d < bestD.value {
        bestD := Some(d);
        best := j;
      }
    }
    assert rows[..|rows|] == rows;
    d := bestD.value;
    e := if d <= m.threshold then Some(best) else None;
  }

  /** Fills the table of one frame's rows against the other's, and the distances. */
  method FillTable(m: Matcher, rows: seq<Row>, others: seq<Row>) returns (to: array<Option<int>>, dist: array<real>)
    requires others != []
    ensures fresh(to) && fresh(dist) && IsFilled(m, rows, others, to[..], dist[..]) && IsTable(m, rows, others, to[..])
  {
    to := new Option<int>[|rows|](_ => None);
    dist := new real[|rows|](_ => 0.0);
    for i := 0 to |rows|
      invariant to.Length == |rows| && dist.Length == |rows|
      invariant forall k :: 0 <= k < i ==> FilledAt(m, rows[k], others, to[k], dist[k])
    {
      var e, d := NearestRow(m, rows[i], others);
      to[i] := e;
      if e.Some? {
        dist[i] := d;
      }
    }
  }

  // ----------------------------------------------------------------------------- uniqueness

  lemma NearestUnique(m: Matcher, x: Row, rows: seq<Row>, k: int, l: int)
    requires NearestAt(m, x, rows, k) && NearestAt(m, x, rows, l)
    ensures k == l
  {
    assert Distance(m, x, rows[k]) <= Distance(m, x, rows[l]) <= Distance(m, x, rows[k]);
  }

  lemma EntryDecides(m: Matcher, x: Row, rows: seq<Row>, e: Option<int>, j: int)
    requires EntryAt(m, x, rows, e)
    ensures e == Some(j) <==> NearestAt(m, x, rows, j) && Within(m, x, rows[j])
  {
    if e.Some? && NearestAt(m, x, rows, j) {
      NearestUnique(m, x, rows, j, e.value);
    }
  }

  /** The pairs the tables select are the matches. */
  lemma TablesDecide(m: Matcher, a: seq<Row>, b: seq<Row>, to: seq<Option<int>>, back: seq<Option<int>>, i: int, j: int)
    requires IsTable(m, a, b, to) && IsTable(m, b, a, back) && 0 <= i < |a|
    ensures Matched(m, a, b, i, j) <==> 0 <= j < |b| && to[i] == Some(j) && (m.mutual ==> back[j] == Some(i))
  {
    EntryDecides(m, a[i], b, to[i], j);
    if 0 <= j < |b| {
      EntryDecides(m, b[j], a, back[j], i);
      DistanceSymmetric(m, a[i], b[j]);
    }
  }

  // -------------------------------------------------------------------------- listing matches

  /** The matches of the first n rows, in the order of their source rows. */
  ghost predicate ListUpTo(m: Matcher, a: seq<Row>, b: seq<Row>, n: int, ps: seq<Pair>) {
    (forall k :: 0 <= k < |ps| ==> ps[k].i < n && Matched(m, a, b, ps[k].i, ps[k].j)) &&
    (forall k, l :: 0 <= k < l < |ps| ==> ps[k].i < ps[l].i) &&
    forall i, j :: 0 <= i < n && Matched(m, a, b, i, j) ==> Pair(i, j) in ps
  }

  ghost predicate Lists(ps: seq<Pair>, s: set<Pair>) {
    (forall p :: p in ps <==> p in s) && forall k, l :: 0 <= k < l < |ps| ==> ps[k].i < ps[l].i
  }

  lemma ListExtends(m: Matcher, a: seq<Row>, b: seq<Row>, n: int, ps: seq<Pair>, p: Pair)
    requires 0 <= n < |a| && ListUpTo(m, a, b, n, ps) && p.i == n && Matched(m, a, b, n, p.j)
    ensures ListUpTo(m, a, b, n + 1, ps + [p])
  {
    forall i, j | 0 <= i < n + 1 && Matched(m, a, b, i, j)
      ensures Pair(i, j) in ps + [p]
    {
      if i == n {
        NearestUnique(m, a[n], b, j, p.j);
        assert (ps + [p])[|ps|] == Pair(i, j);
      }
    }
  }

  lemma ListSkips(m: Matcher, a: seq<Row>, b: seq<Row>, n: int, ps: seq<Pair>)
    requires 0 <= n < |a| && ListUpTo(m, a, b, n, ps) && forall j :: !Matched(m, a, b, n, j)
    ensures ListUpTo(m, a, b, n + 1, ps)
  {
  }

  lemma ListComplete(m: Matcher, a: seq<Row>, b: seq<Row>, ps: seq<Pair>)
    requires ListUpTo(m, a, b, |a|, ps)
    ensures Lists(ps, Matches(m, a, b)) && |ps| == |Matches(m, a, b)|
  {
    forall p
      ensures p in ps <==> p in Matches(m, a, b)
    {
    }
    ListSize(ps, Matches(m, a, b));
  }

  lemma {:induction false} ListSize(ps: seq<Pair>, s: set<Pair>)
    requires Lists(ps, s)
    ensures |ps| == |s|
  {
    if ps != [] {
      var p, rest := ps[|ps| - 1], ps[..|ps| - 1];
      assert ps == rest + [p];
      assert p in ps && p !in rest;
      ListSize(rest, s - {p});
    } else {
      forall p
        ensures p !in s
      {
        assert p !in ps;
      }
      assert s == {};
    }
  }

  // -------------------------------------------------------------------------- the two entries

  method CountsAsMatch(m: Matcher, a: seq<Row>, b: seq<Row>, to: seq<Option<int>>, back: seq<Option<int>>, i: nat)
    returns (takes: bool)
    requires IsTable(m, a, b, to) && IsTable(m, b, a, back) && i < |a|
    ensures takes ==> to[i].Some? && Matched(m, a, b, i, to[i].value)
    ensures !takes ==> forall j :: !Matched(m, a, b, i, j)
  {
    assert EntryAt(m, a[i], b, to[i]);
    takes := to[i] != None && (m.mutual ==> back[to[i].value] == Some(i));
    forall j
      ensures Matched(m, a, b, i, j) <==> 0 <= j < |b| && to[i] == Some(j) && (m.mutual ==> back[j] == Some(i))
    {
      TablesDecide(m, a, b, to, back, i, j);
    }
  }

  /** The score is the number of matches. */
  method MatchScore(m: Matcher, a: seq<Row>, b: seq<Row>) returns (score: nat)
    ensures score == |FrameMatches(m, a, b)|
  {
    if !Comparable(a, b) {
      return 0;
    }
    var aToB, _ := FillTable(m, a, b);
    var bToA, _ := FillTable(m, b, a);
    score := 0;
    ghost var ps: seq<Pair> := [];
    for i := 0 to |a|
      invariant IsTable(m, a, b, aToB[..]) && IsTable(m, b, a, bToA[..])
      invariant ListUpTo(m, a, b, i, ps) && score == |ps|
    {
      var takes := CountsAsMatch(m, a, b, aToB[..], bToA[..], i);
      if takes {
        ListExtends(m, a, b, i, ps, Pair(i, aToB[i].value));
        ps := ps + [Pair(i, aToB[i].value)];
        score := score + 1;
      } else {
        ListSkips(m, a, b, i, ps);
      }
    }
    ListComplete(m, a, b, ps);
  }

  /** The indices are 32 bits wide. */
  datatype Correspondence = Correspondence(source: int, target: int, distance: real)

  const WIDTH := 0x1_0000_0000

  function Emitted(m: Matcher, a: seq<Row>, b: seq<Row>, p: Pair): Correspondence
    requires 0 <= p.i < |a| && 0 <= p.j < |b|
  {
    Correspondence(p.i % WIDTH, p.j % WIDTH, Distance(m, a[p.i], b[p.j]))
  }

  ghost predicate EmittedAs(m: Matcher, a: seq<Row>, b: seq<Row>, ps: seq<Pair>, out: seq<Correspondence>) {
    |out| == |ps| &&
    forall k :: 0 <= k < |ps| ==> 0 <= ps[k].i < |a| && 0 <= ps[k].j < |b| && out[k] == Emitted(m, a, b, ps[k])
  }

  lemma EmittedExtends(m: Matcher, a: seq<Row>, b: seq<Row>, ps: seq<Pair>, out: seq<Correspondence>, p: Pair)
    requires EmittedAs(m, a, b, ps, out) && 0 <= p.i < |a| && 0 <= p.j < |b|
    ensures EmittedAs(m, a, b, ps + [p], out + [Emitted(m, a, b, p)])
  {
  }

  /** The correspondences are the matches, in the order of their source rows, each with its
      distance. */
  method MatchCorrespondences(m: Matcher, a: seq<Row>, b: seq<Row>)
    returns (out: seq<Correspondence>, ghost ps: seq<Pair>)
    ensures Lists(ps, FrameMatches(m, a, b)) && EmittedAs(m, a, b, ps, out)
    ensures |out| == |FrameMatches(m, a, b)|
  {
    out := [];
    ps := [];
    if !Comparable(a, b) {
      return;
    }
    var aToB, dist := FillTable(m, a, b);
    var bToA, _ := FillTable(m, b, a);
    for i := 0 to |a|
      invariant IsFilled(m, a, b, aToB[..], dist[..]) && IsTable(m, a, b, aToB[..]) && IsTable(m, b, a, bToA[..])
      invariant ListUpTo(m, a, b, i, ps) && EmittedAs(m, a, b, ps, out)
    {
      var takes := CountsAsMatch(m, a, b, aToB[..], bToA[..], i);
      if takes {
        ghost var p := Pair(i, aToB[i].value);
        assert FilledAt(m, a[i], b, aToB[..][i], dist[..][i]);
        ListExtends(m, a, b, i, ps, p);
        EmittedExtends(m, a, b, ps, out, p);
        ps := ps + [p];
        out := out + [Correspondence(i % WIDTH, aToB[i].value % WIDTH, dist[i])];
      } else {
        ListSkips(m, a, b, i, ps);
      }
    }
    ListComplete(m, a, b, ps);
  }
}
