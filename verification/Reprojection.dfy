/** Reprojection metrics over the reals: median threshold, inliers, and two families of
    aggregates (core/geometry/reprojection.h). The root mean square is kept squared. */
module Reprojection {
  import opened Wrappers
  import opened Collections
  import opened Folds

  // ------------------------------------------------------------------------- the residuals

  datatype View<C> = View(imageId: int, camera: C)

  datatype Point<P> = Point(pointId: int, xyz: P)

  datatype Observation<K> = Observation(imageId: int, pointId: int, keypoint: K)

  /** An observation with its residual. */
  datatype Item = Item(image: int, point: int, r: real)

  datatype EvaluationError = UnknownImage | UnknownPoint | BadResidual

  /** A scene to measure: the residual of a keypoint is a parameter, which may refuse. */
  datatype Scene<!C, !P, !K> = Scene(views: seq<View<C>>, points: seq<Point<P>>, residual: (C, P, K) -> Option<real>)

  function FindView<C>(views: seq<View<C>>, id: int): Option<C> {
    if views == [] then None else if views[0].imageId == id then Some(views[0].camera) else FindView(views[1..], id)
  }

  function FindPoint<P>(points: seq<Point<P>>, id: int): Option<P> {
    if points == [] then None else if points[0].pointId == id then Some(points[0].xyz) else FindPoint(points[1..], id)
  }

  function Measure<C, P, K>(s: Scene<C, P, K>, o: Observation<K>): Result<Item, EvaluationError> {
    match FindView(s.views, o.imageId)
    case None => Err(UnknownImage)
    case Some(camera) =>
      match FindPoint(s.points, o.pointId)
      case None => Err(UnknownPoint)
      case Some(xyz) =>
        match s.residual(camera, xyz, o.keypoint)
        case None => Err(BadResidual)
        case Some(r) => Ok(Item(o.imageId, o.pointId, r))
  }

  /** The first observation that cannot be measured fails the whole evaluation. */
  function MeasureAll<C, P, K>(s: Scene<C, P, K>, os: seq<Observation<K>>): (r: Result<seq<Item>, EvaluationError>)
    ensures r.Ok? ==> |r.value| == |os| && forall i :: 0 <= i < |os| ==> Measure(s, os[i]) == Ok(r.value[i])
  {
    if os == [] then Ok([])
    else
      match MeasureAll(s, os[..|os| - 1])
      case Err(e) => Err(e)
      case Ok(items) =>
        match Measure(s, os[|os| - 1])
        case Err(e) => Err(e)
        case Ok(it) => Ok(items + [it])
  }

  // ---------------------------------------------------------------------- sorting the reals

  function InsertReal(x: real, s: seq<real>): seq<real> {
    if s == [] || x <= s[0] then [x] + s else [s[0]] + InsertReal(x, s[1..])
  }

  function SortReals(s: seq<real>): seq<real> {
    if s == [] then [] else InsertReal(s[0], SortReals(s[1..]))
  }

  ghost predicate Ascending(s: seq<real>) {
    forall i, j :: 0 <= i < j < |s| ==> s[i] <= s[j]
  }

  lemma {:induction false} InsertRealElements(x: real, s: seq<real>)
    ensures multiset(InsertReal(x, s)) == multiset{x} + multiset(s)
  {
    if s != [] && x > s[0] {
      InsertRealElements(x, s[1..]);
      assert s == [s[0]] + s[1..];
    }
  }

  lemma {:induction false} InsertRealAscending(x: real, s: seq<real>)
    requires Ascending(s)
    ensures Ascending(InsertReal(x, s))
  {
    if s != [] && x > s[0] {
      var r := InsertReal(x, s[1..]);
      InsertRealAscending(x, s[1..]);
      InsertRealElements(x, s[1..]);
      forall k | 0 <= k < |r|
        ensures s[0] <= r[k]
      {
        assert r[k] in multiset(r);
        if r[k] != x {
          assert r[k] in s[1..];
        }
      }
      HeadBelow(s[0], r);
    } else if s != [] {
      assert forall k :: 0 <= k < |s| ==> x <= s[0] <= s[k];
      HeadBelow(x, s);
    }
  }

  lemma HeadBelow(x: real, s: seq<real>)
    requires Ascending(s) && forall k :: 0 <= k < |s| ==> x <= s[k]
    ensures Ascending([x] + s)
  {
  }

  lemma {:induction false} SortRealsCorrect(s: seq<real>)
    ensures Ascending(SortReals(s)) && multiset(SortReals(s)) == multiset(s) && |SortReals(s)| == |s|
  {
    if s != [] {
      SortRealsCorrect(s[1..]);
      InsertRealElements(s[0], SortReals(s[1..]));
      InsertRealAscending(s[0], SortReals(s[1..]));
      assert s == [s[0]] + s[1..];
    }
    SameLength(SortReals(s), s);
  }

  lemma {:induction false} AscendingUnique(a: seq<real>, b: seq<real>)
    requires Ascending(a) && Ascending(b) && multiset(a) == multiset(b)
    ensures a == b
  {
    SameLength(a, b);
    if a != [] {
      SameElementsMember(a, b, a[0]);
      SameElementsMember(a, b, b[0]);
      assert a[0] == b[0];
      TailMultiset(a);
      TailMultiset(b);
      AscendingUnique(a[1..], b[1..]);
      HeadAndTail(a, b);
    }
  }

  // ------------------------------------------------------------------ median and threshold

  function ResidualOf(it: Item): real { it.r }

  function Residuals(items: seq<Item>): seq<real> {
    Mapped(ResidualOf, items)
  }

  function Median(rs: seq<real>): real {
    var s := SortReals(rs);
    var n := |s|;
    if n == 0 then 0.0 else if n % 2 == 0 then (s[n / 2 - 1] + s[n / 2]) / 2.0 else s[n / 2]
  }

  function Threshold(median: real): real {
    if 3.0 * median > 2.0 then 3.0 * median else 2.0
  }

  // ---------------------------------------------------------------------------------- sums

  /** Number of items, number of inliers, and the inliers' residuals and their squares. */
  datatype Stats = Stats(total: nat, inliers: nat, sum: real, squares: real)

  const NOTHING := Stats(0, 0, 0.0, 0.0)

  function Plus(a: Stats, b: Stats): Stats {
    Stats(a.total + b.total, a.inliers + b.inliers, a.sum + b.sum, a.squares + b.squares)
  }

  function One(r: real, t: real): Stats {
    if r <= t then Stats(1, 1, r, r * r) else Stats(1, 0, 0.0, 0.0)
  }

  const STATS := Monoid(NOTHING, (a: Stats, b: Stats) => Plus(a, b))

  /** What an observation contributes under a threshold; a point's aggregate has no squares. */
  function Contribution(t: real): Item -> Stats {
    (it: Item) => One(it.r, t)
  }

  function PointContribution(t: real): Item -> Stats {
    (it: Item) => One(it.r, t).(squares := 0.0)
  }

  function Sum(items: seq<Item>, t: real): Stats {
    Fold(STATS, Contribution(t), items)
  }

  function ImageKey(it: Item): int { it.image }

  function PointKey(it: Item): int { it.point }

  function ImageSum(items: seq<Item>, t: real, id: int): Stats {
    Sum(Select(ImageKey, id, items), t)
  }

  function PointSum(items: seq<Item>, t: real, id: int): Stats {
    Fold(STATS, PointContribution(t), Select(PointKey, id, items))
  }

  // ------------------------------------------------------------------------------- metrics

  function Mean(s: Stats): real {
    if s.inliers == 0 then 0.0 else s.sum / s.inliers as real
  }

  function MeanSquare(s: Stats): real {
    if s.inliers == 0 then 0.0 else s.squares / s.inliers as real
  }

  datatype ImageAggregate = ImageAggregate(imageId: int, meanSquare: real, mean: real, total: nat, inliers: nat,
                                           outliers: int)

  datatype PointAggregate = PointAggregate(pointId: int, mean: real, total: nat, inliers: nat)

  datatype Metrics = Metrics(meanSquare: real, mean: real, median: real, threshold: real, total: nat, inliers: nat,
                             outliers: int, perImage: seq<ImageAggregate>, perPoint: seq<PointAggregate>)

  function ImageOf(id: int, s: Stats): ImageAggregate {
    ImageAggregate(id, MeanSquare(s), Mean(s), s.total, s.inliers, s.total - s.inliers)
  }

  function PointOf(id: int, s: Stats): PointAggregate {
    PointAggregate(id, Mean(s), s.total, s.inliers)
  }

  function PerImage(items: seq<Item>, t: real, ids: seq<int>): (r: seq<ImageAggregate>)
    ensures |r| == |ids|
  {
    seq(|ids|, i requires 0 <= i < |ids| => ImageOf(ids[i], ImageSum(items, t, ids[i])))
  }

  function PerPoint(items: seq<Item>, t: real, ids: seq<int>): (r: seq<PointAggregate>)
    ensures |r| == |ids|
  {
    seq(|ids|, i requires 0 <= i < |ids| => PointOf(ids[i], PointSum(items, t, ids[i])))
  }

  function MetricsOf(items: seq<Item>): Metrics {
    var m := Median(Residuals(items));
    var t := Threshold(m);
    var s := Sum(items, t);
    Metrics(MeanSquare(s), Mean(s), m, t, s.total, s.inliers, s.total - s.inliers,
            PerImage(items, t, Ids(ImageKey, items)), PerPoint(items, t, Ids(PointKey, items)))
  }

  // --------------------------------------------------------------------- the evaluation loop

  datatype Residual = Residual(item: Item, inlier: bool)

  method FindViewIn<C>(views: seq<View<C>>, id: int) returns (r: Option<C>)
    ensures r == FindView(views, id)
  {
    for i := 0 to |views|
      invariant FindView(views, id) == FindView(views[i..], id)
    {
      if views[i].imageId == id {
        return Some(views[i].camera);
      }
      assert views[i..][1..] == views[i + 1..];
    }
    r := None;
  }

  method FindPointIn<P>(points: seq<Point<P>>, id: int) returns (r: Option<P>)
    ensures r == FindPoint(points, id)
  {
    for i := 0 to |points|
      invariant FindPoint(points, id) == FindPoint(points[i..], id)
    {
      if points[i].pointId == id {
        return Some(points[i].xyz);
      }
      assert points[i..][1..] == points[i + 1..];
    }
    r := None;
  }

  method MeasureEach<C, P, K>(s: Scene<C, P, K>, os: seq<Observation<K>>)
    returns (r: Result<seq<Item>, EvaluationError>)
    ensures r == MeasureAll(s, os)
  {
    var items: seq<Item> := [];
    for i := 0 to |os|
      invariant MeasureAll(s, os[..i]) == Ok(items)
    {
      MeasureMore(s, os, i + 1);
      assert os[..i + 1][..i] == os[..i];
      var o := os[i];
      var camera := FindViewIn(s.views, o.imageId);
      if camera.None? {
        return Err(UnknownImage);
      }
      var xyz := FindPointIn(s.points, o.pointId);
      if xyz.None? {
        return Err(UnknownPoint);
      }
      var d := s.residual(camera.value, xyz.value, o.keypoint);
      if d.None? {
        return Err(BadResidual);
      }
      items := items + [Item(o.imageId, o.pointId, d.value)];
    }
    assert os[..|os|] == os;
    r := Ok(items);
  }

  lemma {:induction false} MeasureMore<C, P, K>(s: Scene<C, P, K>, os: seq<Observation<K>>, i: nat)
    requires i <= |os|
    ensures MeasureAll(s, os[..i]).Err? ==> MeasureAll(s, os) == MeasureAll(s, os[..i])
    decreases |os| - i
  {
    if i < |os| {
      MeasureMore(s, os, i + 1);
      assert os[..i + 1][..i] == os[..i];
    } else {
      assert os[..i] == os;
    }
  }

  /** One more residual in a running sum. */
  method Accumulate(s: Stats, r: real, t: real) returns (n: Stats)
    ensures n == Plus(s, One(r, t))
  {
    n := s.(total := s.total + 1);
    if r <= t {
      n := n.(inliers := s.inliers + 1, sum := s.sum + r, squares := s.squares + r * r);
    }
  }

  method SumLoop(items: seq<Item>, t: real) returns (s: Stats)
    ensures s == Sum(items, t)
  {
    s := NOTHING;
    for i := 0 to |items|
      invariant s == Sum(items[..i], t)
    {
      assert items[..i + 1] == items[..i] + [items[i]];
      FoldSnoc(STATS, Contribution(t), items[..i], items[i]);
      s := Accumulate(s, items[i].r, t);
    }
    assert items[..|items|] == items;
  }

  method SumImage(items: seq<Item>, id: int, t: real) returns (s: Stats)
    ensures s == ImageSum(items, t, id)
  {
    s := NOTHING;
    for i := 0 to |items|
      invariant s == ImageSum(items[..i], t, id)
    {
      assert items[..i + 1] == items[..i] + [items[i]];
      SelectSnoc(ImageKey, id, items[..i], items[i]);
      if items[i].image == id {
        FoldSnoc(STATS, Contribution(t), Select(ImageKey, id, items[..i]), items[i]);
        s := Accumulate(s, items[i].r, t);
      }
    }
    assert items[..|items|] == items;
  }

  method SumPoint(items: seq<Item>, id: int, t: real) returns (s: Stats)
    ensures s == PointSum(items, t, id)
  {
    s := NOTHING;
    for i := 0 to |items|
      invariant s == PointSum(items[..i], t, id)
    {
      assert items[..i + 1] == items[..i] + [items[i]];
      SelectSnoc(PointKey, id, items[..i], items[i]);
      if items[i].point == id {
        FoldSnoc(STATS, PointContribution(t), Select(PointKey, id, items[..i]), items[i]);
        s := s.(total := s.total + 1);
        if items[i].r <= t {
          s := s.(inliers := s.inliers + 1, sum := s.sum + items[i].r);
        }
      }
    }
    assert items[..|items|] == items;
  }

  method CollectIds(items: seq<Item>, key: Item -> int) returns (ids: seq<int>)
    ensures ids == Ids(key, items)
  {
    var keys: seq<int> := [];
    for i := 0 to |items|
      invariant keys == Keys(key, items[..i])
    {
      assert items[..i + 1][..i] == items[..i];
      if key(items[i]) !in keys {
        keys := keys + [key(items[i])];
      }
    }
    assert items[..|items|] == items;
    ids := SortBy(keys, Same);
  }

  method AggregateImages(items: seq<Item>, t: real) returns (r: seq<ImageAggregate>)
    ensures r == PerImage(items, t, Ids(ImageKey, items))
  {
    var ids := CollectIds(items, ImageKey);
    r := [];
    for i := 0 to |ids|
      invariant r == PerImage(items, t, ids)[..i]
    {
      var s := SumImage(items, ids[i], t);
      r := r + [ImageOf(ids[i], s)];
    }
  }

  method AggregatePoints(items: seq<Item>, t: real) returns (r: seq<PointAggregate>)
    ensures r == PerPoint(items, t, Ids(PointKey, items))
  {
    var ids := CollectIds(items, PointKey);
    r := [];
    for i := 0 to |ids|
      invariant r == PerPoint(items, t, ids)[..i]
    {
      var s := SumPoint(items, ids[i], t);
      r := r + [PointOf(ids[i], s)];
    }
  }

  method Classify(items: seq<Item>, t: real) returns (residuals: seq<Residual>)
    ensures |residuals| == |items|
    ensures forall i :: 0 <= i < |items| ==> residuals[i] == Residual(items[i], items[i].r <= t)
  {
    residuals := [];
    for i := 0 to |items|
      invariant |residuals| == i && forall k :: 0 <= k < i ==> residuals[k] == Residual(items[k], items[k].r <= t)
    {
      residuals := residuals + [Residual(items[i], items[i].r <= t)];
    }
  }

  /** Metrics are produced only when every observation can be measured. */
  method EvaluateReprojection<C, P, K>(s: Scene<C, P, K>, os: seq<Observation<K>>)
    returns (r: Result<Metrics, EvaluationError>, residuals: seq<Residual>)
    ensures match MeasureAll(s, os)
            case Err(e) => r == Err(e) && residuals == []
            case Ok(items) =>
              && r == Ok(MetricsOf(items)) && |residuals| == |os|
              && forall i :: 0 <= i < |os| ==>
                   residuals[i] == Residual(items[i], items[i].r <= MetricsOf(items).threshold)
  {
    residuals := [];
    var measured := MeasureEach(s, os);
    if measured.Err? {
      return Err(measured.error), [];
    }
    var items := measured.value;
    var median := Median(Residuals(items));
    var t := Threshold(median);
    residuals := Classify(items, t);
    var all := SumLoop(items, t);
    var images := AggregateImages(items, t);
    var points := AggregatePoints(items, t);
    r := Ok(Metrics(MeanSquare(all), Mean(all), median, t, all.total, all.inliers, all.total - all.inliers, images,
                    points));
  }
}
