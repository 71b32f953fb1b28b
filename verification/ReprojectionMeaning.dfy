/** What the reprojection metrics say in numbers: the threshold, the median, the means and the
    counts, globally and for each image and point. */
module ReprojectionMeaning {
  import opened Wrappers
  import opened Collections
  import opened Folds
  import opened Reprojection
  import opened ReprojectionLaws

  // ------------------------------------------------------------------ threshold and median

  /** The threshold is the larger of three medians and two pixels, and so every residual up to
      two pixels is that of an inlier. */
  lemma {:induction false} ThresholdIs(items: seq<Item>)
    ensures var m := MetricsOf(items);
            && m.threshold >= 3.0 * m.median && m.threshold >= 2.0
            && (m.threshold == 3.0 * m.median || m.threshold == 2.0)
            && forall i :: 0 <= i < |items| && items[i].r <= 2.0 ==> items[i].r <= m.threshold
  {
  }

  /** The median is read off any ascending arrangement of the residuals: the middle one, or the
      mean of the two middle ones. */
  lemma {:induction false} MedianIs(items: seq<Item>, s: seq<real>)
    requires Ascending(s) && multiset(s) == multiset(Residuals(items))
    ensures |s| == |items|
    ensures MetricsOf(items).median == if s == [] then 0.0
                                       else if |s| % 2 == 1 then s[|s| / 2]
                                       else (s[|s| / 2 - 1] + s[|s| / 2]) / 2.0
  {
    SortRealsCorrect(Residuals(items));
    SameLength(s, Residuals(items));
    AscendingUnique(s, SortReals(Residuals(items)));
  }

  // -------------------------------------------------------------------------------- measures

  /** The sum of f over the items that meet a condition. */
  function SumWhere(p: Item -> bool, f: Item -> real, items: seq<Item>): real {
    if items == [] then 0.0
    else (if p(items[0]) then f(items[0]) else 0.0) + SumWhere(p, f, items[1..])
  }

  function HowMany(p: Item -> bool, items: seq<Item>): nat {
    if items == [] then 0 else (if p(items[0]) then 1 else 0) + HowMany(p, items[1..])
  }

  lemma {:induction false} SumSnoc(p: Item -> bool, f: Item -> real, items: seq<Item>, it: Item)
    ensures SumWhere(p, f, items + [it]) == SumWhere(p, f, items) + if p(it) then f(it) else 0.0
  {
    if items == [] {
      assert items + [it] == [it] && [it][1..] == [];
    } else {
      SumSnoc(p, f, items[1..], it);
      assert (items + [it])[1..] == items[1..] + [it];
    }
  }

  lemma {:induction false} HowManySnoc(p: Item -> bool, items: seq<Item>, it: Item)
    ensures HowMany(p, items + [it]) == HowMany(p, items) + if p(it) then 1 else 0
  {
    if items == [] {
      assert items + [it] == [it] && [it][1..] == [];
    } else {
      HowManySnoc(p, items[1..], it);
      assert (items + [it])[1..] == items[1..] + [it];
    }
  }

  function Anything(): Item -> bool {
    (it: Item) => true
  }

  function Within(t: real): Item -> bool {
    (it: Item) => it.r <= t
  }

  function OfImage(id: int): Item -> bool {
    (it: Item) => it.image == id
  }

  function OfPoint(id: int): Item -> bool {
    (it: Item) => it.point == id
  }

  function Both(p: Item -> bool, q: Item -> bool): Item -> bool {
    (it: Item) => p(it) && q(it)
  }

  function TheResidual(): Item -> real {
    (it: Item) => it.r
  }

  function ItsSquare(): Item -> real {
    (it: Item) => it.r * it.r
  }

  /** Counts and sums as the statistics should be over the items that meet a condition. */
  predicate Measures(s: Stats, p: Item -> bool, items: seq<Item>, t: real) {
    && s.total == HowMany(p, items) && s.inliers == HowMany(Both(p, Within(t)), items)
    && s.sum == SumWhere(Both(p, Within(t)), TheResidual(), items)
    && s.squares == SumWhere(Both(p, Within(t)), ItsSquare(), items)
  }

  lemma {:induction false} MeasuresNothing(p: Item -> bool, t: real)
    ensures Measures(NOTHING, p, [], t)
  {
  }

  lemma {:induction false} OneMeasures(it: Item, t: real, q: Item -> bool)
    requires q(it) <==> it.r <= t
    ensures var o := One(it.r, t);
            && o.total == 1 && o.inliers == (if q(it) then 1 else 0)
            && o.sum == (if q(it) then TheResidual()(it) else 0.0)
            && o.squares == (if q(it) then ItsSquare()(it) else 0.0)
  {
  }

  lemma {:induction false} Adds(s: Stats, o: Stats, p: Item -> bool, q: Item -> bool, f: Item -> real, g: Item -> real,
                                items: seq<Item>, it: Item)
    requires s.total == HowMany(p, items) && s.inliers == HowMany(q, items)
    requires s.sum == SumWhere(q, f, items) && s.squares == SumWhere(q, g, items)
    requires p(it) && o.total == 1 && o.inliers == (if q(it) then 1 else 0)
    requires o.sum == (if q(it) then f(it) else 0.0) && o.squares == (if q(it) then g(it) else 0.0)
    ensures Plus(s, o).total == HowMany(p, items + [it]) && Plus(s, o).inliers == HowMany(q, items + [it])
    ensures Plus(s, o).sum == SumWhere(q, f, items + [it]) && Plus(s, o).squares == SumWhere(q, g, items + [it])
  {
    HowManySnoc(p, items, it);
    HowManySnoc(q, items, it);
    SumSnoc(q, f, items, it);
    SumSnoc(q, g, items, it);
  }

  lemma {:induction false} MeasuresOneMore(s: Stats, p: Item -> bool, items: seq<Item>, t: real, it: Item)
    requires Measures(s, p, items, t)
    ensures Measures(if p(it) then Plus(s, One(it.r, t)) else s, p, items + [it], t)
  {
    var q := Both(p, Within(t));
    if p(it) {
      OneMeasures(it, t, q);
      Adds(s, One(it.r, t), p, q, TheResidual(), ItsSquare(), items, it);
    } else {
      HowManySnoc(p, items, it);
      HowManySnoc(q, items, it);
      SumSnoc(q, TheResidual(), items, it);
      SumSnoc(q, ItsSquare(), items, it);
    }
  }

  lemma {:induction false} SumMeasures(items: seq<Item>, t: real)
    ensures Measures(Sum(items, t), Anything(), items, t)
  {
    if items == [] {
      MeasuresNothing(Anything(), t);
    } else {
      var n := |items| - 1;
      SumMeasures(items[..n], t);
      FoldSnoc(STATS, Contribution(t), items[..n], items[n]);
      MeasuresOneMore(Sum(items[..n], t), Anything(), items[..n], t, items[n]);
      assert items[..n] + [items[n]] == items;
    }
  }

  predicate Keyed(key: Item -> int, id: int, p: Item -> bool, it: Item) {
    p(it) <==> key(it) == id
  }

  lemma {:induction false} SelectedOneMore(key: Item -> int, id: int, p: Item -> bool, items: seq<Item>, t: real,
                                           it: Item)
    requires Measures(Sum(Select(key, id, items), t), p, items, t) && Keyed(key, id, p, it)
    ensures Measures(Sum(Select(key, id, items + [it]), t), p, items + [it], t)
  {
    SelectSnoc(key, id, items, it);
    FoldSnoc(STATS, Contribution(t), Select(key, id, items), it);
    MeasuresOneMore(Sum(Select(key, id, items), t), p, items, t, it);
  }

  lemma {:induction false} SelectedMeasures(key: Item -> int, id: int, p: Item -> bool, items: seq<Item>, t: real)
    requires forall it :: Keyed(key, id, p, it)
    ensures Measures(Sum(Select(key, id, items), t), p, items, t)
  {
    if items == [] {
      MeasuresNothing(p, t);
    } else {
      var n := |items| - 1;
      SelectedMeasures(key, id, p, items[..n], t);
      assert Keyed(key, id, p, items[n]);
      SelectedOneMore(key, id, p, items[..n], t, items[n]);
      assert items[..n] + [items[n]] == items;
    }
  }

  // --------------------------------------------------------------------------------- metrics

  /** A mean over n numbers, zero over none. */
  predicate IsMean(mean: real, n: nat, sum: real) {
    if n == 0 then mean == 0.0 else mean == sum / n as real
  }

  /** Globally: the observations, the inliers, the outliers, and the mean and the mean square of
      the inliers' residuals. */
  lemma {:induction false} MetricsAre(items: seq<Item>)
    ensures var m := MetricsOf(items);
            && m.total == |items| && m.outliers == |items| - m.inliers
            && m.inliers == HowMany(Both(Anything(), Within(m.threshold)), items)
            && IsMean(m.mean, m.inliers, SumWhere(Both(Anything(), Within(m.threshold)), TheResidual(), items))
            && IsMean(m.meanSquare, m.inliers, SumWhere(Both(Anything(), Within(m.threshold)), ItsSquare(), items))
  {
    var t := MetricsOf(items).threshold;
    SumMeasures(items, t);
    Counts(items, t);
  }

  /** The same for each image. */
  lemma {:induction false} ImageMetricsAre(items: seq<Item>, i: nat)
    requires i < |MetricsOf(items).perImage|
    ensures var m := MetricsOf(items);
            var a := m.perImage[i];
            var p := OfImage(a.imageId);
            && a.total == HowMany(p, items) && a.outliers == a.total - a.inliers
            && a.inliers == HowMany(Both(p, Within(m.threshold)), items)
            && IsMean(a.mean, a.inliers, SumWhere(Both(p, Within(m.threshold)), TheResidual(), items))
            && IsMean(a.meanSquare, a.inliers, SumWhere(Both(p, Within(m.threshold)), ItsSquare(), items))
  {
    var m := MetricsOf(items);
    var id := m.perImage[i].imageId;
    forall it
      ensures Keyed(ImageKey, id, OfImage(id), it)
    {
    }
    SelectedMeasures(ImageKey, id, OfImage(id), items, m.threshold);
  }

  /** The same for each point, which has no mean square. */
  lemma {:induction false} PointMetricsAre(items: seq<Item>, i: nat)
    requires i < |MetricsOf(items).perPoint|
    ensures var m := MetricsOf(items);
            var a := m.perPoint[i];
            var p := OfPoint(a.pointId);
            && a.total == HowMany(p, items) && a.inliers == HowMany(Both(p, Within(m.threshold)), items)
            && IsMean(a.mean, a.inliers, SumWhere(Both(p, Within(m.threshold)), TheResidual(), items))
  {
    var m := MetricsOf(items);
    var id := m.perPoint[i].pointId;
    forall it
      ensures Keyed(PointKey, id, OfPoint(id), it)
    {
    }
    SelectedMeasures(PointKey, id, OfPoint(id), items, m.threshold);
    Counts(Select(PointKey, id, items), m.threshold);
  }

  lemma {:induction false} IdsAre(key: Item -> int, items: seq<Item>)
    ensures forall i, j :: 0 <= i < j < |Ids(key, items)| ==> Ids(key, items)[i] < Ids(key, items)[j]
    ensures forall k :: k in Ids(key, items) <==> IsKey(key, items, k)
  {
    var keys, ids := Keys(key, items), Ids(key, items);
    KeysCover(key, items);
    SortByCorrect(keys, Folds.Same);
    DistinctPermutes(keys, ids, Folds.Same);
    forall i, j | 0 <= i < j < |ids|
      ensures ids[i] < ids[j]
    {
      assert Folds.Same(ids[i]) <= Folds.Same(ids[j]) && Folds.Same(ids[i]) != Folds.Same(ids[j]);
    }
    forall k
      ensures k in ids <==> IsKey(key, items, k)
    {
      assert k in ids <==> k in multiset(ids);
      assert k in keys <==> k in multiset(keys);
    }
  }

  ghost predicate HasImage(m: Metrics, id: int) {
    exists i :: 0 <= i < |m.perImage| && m.perImage[i].imageId == id
  }

  ghost predicate HasPoint(m: Metrics, id: int) {
    exists i :: 0 <= i < |m.perPoint| && m.perPoint[i].pointId == id
  }

  /** There is one aggregate for each image and for each point that is observed, in order of id. */
  lemma {:induction false} AggregatesListed(items: seq<Item>)
    ensures var m := MetricsOf(items);
            && (forall i, j :: 0 <= i < j < |m.perImage| ==> m.perImage[i].imageId < m.perImage[j].imageId)
            && (forall i, j :: 0 <= i < j < |m.perPoint| ==> m.perPoint[i].pointId < m.perPoint[j].pointId)
    ensures forall id :: HasImage(MetricsOf(items), id) <==> IsKey(ImageKey, items, id)
    ensures forall id :: HasPoint(MetricsOf(items), id) <==> IsKey(PointKey, items, id)
  {
    var m := MetricsOf(items);
    IdsAre(ImageKey, items);
    IdsAre(PointKey, items);
    forall id
      ensures HasImage(m, id) <==> IsKey(ImageKey, items, id)
    {
      ImageListed(items, id);
    }
    forall id
      ensures HasPoint(m, id) <==> IsKey(PointKey, items, id)
    {
      PointListed(items, id);
    }
  }

  lemma {:induction false} ImageListed(items: seq<Item>, id: int)
    ensures HasImage(MetricsOf(items), id) <==> IsKey(ImageKey, items, id)
  {
    var m, ids := MetricsOf(items), Ids(ImageKey, items);
    IdsAre(ImageKey, items);
    if id in ids {
      var i :| 0 <= i < |ids| && ids[i] == id;
      assert m.perImage[i].imageId == id;
    }
  }

  lemma {:induction false} PointListed(items: seq<Item>, id: int)
    ensures HasPoint(MetricsOf(items), id) <==> IsKey(PointKey, items, id)
  {
    var m, ids := MetricsOf(items), Ids(PointKey, items);
    IdsAre(PointKey, items);
    if id in ids {
      var i :| 0 <= i < |ids| && ids[i] == id;
      assert m.perPoint[i].pointId == id;
    }
  }

  // ------------------------------------------------------------------------ failing evaluations

  ghost predicate FirstFailure<C, P, K>(s: Scene<C, P, K>, os: seq<Observation<K>>, i: int)
    requires 0 <= i < |os|
  {
    Measure(s, os[i]).Err? && forall j :: 0 <= j < i ==> Measure(s, os[j]).Ok?
  }

  /** An evaluation fails exactly when some observation cannot be measured, and with the error
      of the first such one. */
  lemma {:induction false} FirstFailureDecides<C, P, K>(s: Scene<C, P, K>, os: seq<Observation<K>>)
    ensures MeasureAll(s, os).Err? <==> exists i :: 0 <= i < |os| && Measure(s, os[i]).Err?
    ensures forall i :: 0 <= i < |os| && FirstFailure(s, os, i) ==> MeasureAll(s, os) == Err(Measure(s, os[i]).error)
  {
    if os != [] {
      var n := |os| - 1;
      FirstFailureDecides(s, os[..n]);
      if i :| 0 <= i < n && Measure(s, os[..n][i]).Err? {
        assert Measure(s, os[i]).Err?;
      }
      forall i | 0 <= i < |os| && FirstFailure(s, os, i)
        ensures MeasureAll(s, os) == Err(Measure(s, os[i]).error)
      {
        if i < n {
          assert FirstFailure(s, os[..n], i);
        }
      }
    }
  }

  /** Which observations cannot be measured, and why. */
  lemma {:induction false} WhyUnmeasured<C, P, K>(s: Scene<C, P, K>, o: Observation<K>)
    ensures Measure(s, o) == Err(UnknownImage) <==> forall v :: v in s.views ==> v.imageId != o.imageId
    ensures Measure(s, o) == Err(UnknownPoint)
            <==> (exists v :: v in s.views && v.imageId == o.imageId)
                 && forall p :: p in s.points ==> p.pointId != o.pointId
    ensures Measure(s, o).Ok? ==> Measure(s, o).value.image == o.imageId && Measure(s, o).value.point == o.pointId
  {
    ViewFound(s.views, o.imageId);
    PointFound(s.points, o.pointId);
  }

  lemma {:induction false} ViewFound<C>(views: seq<View<C>>, id: int)
    ensures FindView(views, id).None? <==> forall v :: v in views ==> v.imageId != id
  {
    if views != [] {
      ViewFound(views[1..], id);
      assert views == [views[0]] + views[1..];
    }
  }

  lemma {:induction false} PointFound<P>(points: seq<Point<P>>, id: int)
    ensures FindPoint(points, id).None? <==> forall p :: p in points ==> p.pointId != id
  {
    if points != [] {
      PointFound(points[1..], id);
      assert points == [points[0]] + points[1..];
    }
  }
}
