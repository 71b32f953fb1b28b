/** Laws of the reprojection metrics: the aggregates are two partitions of the same sums, the
    moments are ordered, more than half the observations are inliers, and the order of the
    observations does not matter. */
module ReprojectionLaws {
  import opened Collections
  import opened Folds
  import opened Reprojection

  // ------------------------------------------------------------------------------ partitions

  lemma StatsLawful()
    ensures Lawful(STATS)
  {
    forall a, b, c
      ensures Laws(STATS, a, b, c)
    {
    }
  }

  /** Counts, and means weighted by the inlier count. */
  function Weight(total: nat, inliers: nat, mean: real, meanSquare: real): Stats {
    Stats(total, inliers, inliers as real * mean, inliers as real * meanSquare)
  }

  function ImageWeight(a: ImageAggregate): Stats {
    Weight(a.total, a.inliers, a.mean, a.meanSquare)
  }

  function PointWeight(a: PointAggregate): Stats {
    Weight(a.total, a.inliers, a.mean, 0.0)
  }

  function GlobalWeight(m: Metrics): Stats {
    Weight(m.total, m.inliers, m.mean, m.meanSquare)
  }

  /** Counts and sums of the same inliers: none of the one without the other. */
  predicate Consistent(s: Stats) {
    s.inliers == 0 ==> s.sum == 0.0 && s.squares == 0.0
  }

  lemma OneMore(s: Stats, r: real, t: real)
    ensures Contribution(t)(Item(0, 0, r)) == One(r, t)
    ensures Consistent(s) ==> Consistent(Plus(s, One(r, t))) && Consistent(Plus(s, One(r, t).(squares := 0.0)))
    ensures One(r, t).total == 1 && One(r, t).inliers == if r <= t then 1 else 0
  {
  }

  lemma {:induction false} Counts(items: seq<Item>, t: real)
    ensures Consistent(Sum(items, t)) && Consistent(Fold(STATS, PointContribution(t), items))
    ensures Sum(items, t).total == |items|
    ensures Fold(STATS, PointContribution(t), items) == Sum(items, t).(squares := 0.0)
  {
    if items != [] {
      var n := |items| - 1;
      Counts(items[..n], t);
      OneMore(Sum(items[..n], t), items[n].r, t);
      OneMore(Fold(STATS, PointContribution(t), items[..n]), items[n].r, t);
    }
  }

  lemma Undivided(n: nat, x: real)
    requires n > 0
    ensures n as real * (x / n as real) == x
  {
  }

  lemma MeansWeighBack(s: Stats)
    requires Consistent(s)
    ensures Weight(s.total, s.inliers, Mean(s), MeanSquare(s)) == s
    ensures Weight(s.total, s.inliers, Mean(s), 0.0) == s.(squares := 0.0)
  {
    if s.inliers != 0 {
      Undivided(s.inliers, s.sum);
      Undivided(s.inliers, s.squares);
    }
  }

  lemma WeighsBack(id: int, s: Stats)
    requires Consistent(s)
    ensures ImageWeight(ImageOf(id, s)) == s && PointWeight(PointOf(id, s)) == s.(squares := 0.0)
  {
    MeansWeighBack(s);
  }

  lemma ImagesAddUp(items: seq<Item>, t: real)
    ensures Fold(STATS, ImageWeight, PerImage(items, t, Ids(ImageKey, items))) == Sum(items, t)
  {
    var ids := Ids(ImageKey, items);
    StatsLawful();
    forall i | 0 <= i < |ids|
      ensures ImageWeight(PerImage(items, t, ids)[i]) == Fold(STATS, Contribution(t), Select(ImageKey, ids[i], items))
    {
      Counts(Select(ImageKey, ids[i], items), t);
      WeighsBack(ids[i], ImageSum(items, t, ids[i]));
    }
    AggregatesAddUp(STATS, Contribution(t), ImageKey, ids, items, PerImage(items, t, ids), ImageWeight);
    GroupsPartition(STATS, Contribution(t), ImageKey, items);
  }

  lemma PointsAddUp(items: seq<Item>, t: real)
    ensures Fold(STATS, PointWeight, PerPoint(items, t, Ids(PointKey, items))) == Sum(items, t).(squares := 0.0)
  {
    var ids := Ids(PointKey, items);
    StatsLawful();
    forall i | 0 <= i < |ids|
      ensures PointWeight(PerPoint(items, t, ids)[i]) == Fold(STATS, PointContribution(t),
                                                              Select(PointKey, ids[i], items))
    {
      Counts(Select(PointKey, ids[i], items), t);
      WeighsBack(ids[i], PointSum(items, t, ids[i]));
    }
    AggregatesAddUp(STATS, PointContribution(t), PointKey, ids, items, PerPoint(items, t, ids), PointWeight);
    GroupsPartition(STATS, PointContribution(t), PointKey, items);
    Counts(items, t);
  }

  lemma MetricsFields(items: seq<Item>, m: Metrics, s: Stats)
    requires m == MetricsOf(items) && s == Sum(items, m.threshold)
    ensures m.total == s.total && m.inliers == s.inliers && m.mean == Mean(s) && m.meanSquare == MeanSquare(s)
  {
    Counts(items, m.threshold);
  }

  lemma GlobalWeighsBack(items: seq<Item>, m: Metrics)
    requires m == MetricsOf(items)
    ensures GlobalWeight(m) == Sum(items, m.threshold)
  {
    var s := Sum(items, m.threshold);
    MetricsFields(items, m, s);
    Counts(items, m.threshold);
    MeansWeighBack(s);
  }

  /** The per-image and the per-point aggregates both add up to the global values: totals,
      inliers, and the sums behind the mean and (per image) the mean square. */
  lemma AggregatesAgree(items: seq<Item>)
    ensures Fold(STATS, ImageWeight, MetricsOf(items).perImage) == GlobalWeight(MetricsOf(items))
    ensures Fold(STATS, PointWeight, MetricsOf(items).perPoint) == GlobalWeight(MetricsOf(items)).(squares := 0.0)
  {
    var t := MetricsOf(items).threshold;
    GlobalWeighsBack(items, MetricsOf(items));
    ImagesAddUp(items, t);
    PointsAddUp(items, t);
  }

  // --------------------------------------------------------------------------------- moments

  ghost predicate NonNegative(items: seq<Item>) {
    forall i :: 0 <= i < |items| ==> items[i].r >= 0.0
  }

  /** The Cauchy-Schwarz step: (S + r)^2 <= (n + 1)(Q + r^2) when S^2 <= n Q. */
  lemma CauchyStep(n: real, s: real, q: real, r: real)
    requires n >= 1.0 && s * s <= n * q
    ensures (s + r) * (s + r) <= (n + 1.0) * (q + r * r)
  {
    var d := s - n * r;
    assert d * d >= 0.0;
    assert n * (2.0 * (s * r)) <= n * (q + n * (r * r)) by {
      var sr, rr := s * r, r * r;
      assert d * d == s * s - 2.0 * (n * sr) + n * (n * rr);
    }
    Cancel(n, 2.0 * (s * r), q + n * (r * r));
    assert (s + r) * (s + r) == s * s + 2.0 * (s * r) + r * r;
    assert (n + 1.0) * (q + r * r) == n * q + q + n * (r * r) + r * r;
  }

  lemma Grows(n: real, a: real, b: real)
    requires n >= 1.0 && a > b
    ensures n * a > n * b
  {
    assert n * (a - b) >= a - b;
  }

  lemma Cancel(n: real, a: real, b: real)
    requires n >= 1.0 && n * a <= n * b
    ensures a <= b
  {
    if a > b {
      Grows(n, a, b);
    }
  }

  lemma SquareBelow(r: real, t: real)
    requires 0.0 <= r <= t
    ensures r * r <= t * t
  {
  }

  function Square(x: real): real { x * x }

  /** The two inequalities between the moments. */
  predicate Ordered(n: real, s: real, q: real, tt: real) {
    s >= 0.0 && Square(s) <= n * q && q <= n * tt
  }

  lemma OrderedStep(n: real, s: real, q: real, r: real, t: real)
    requires Ordered(n, s, q, t * t) && 0.0 <= r <= t
    requires n >= 1.0 || (n == 0.0 && s == 0.0 && q == 0.0)
    ensures Ordered(n + 1.0, s + r, q + r * r, t * t)
  {
    SquareBelow(r, t);
    OneMoreSquare(n, q, r * r, t * t);
    if n >= 1.0 {
      CauchyStep(n, s, q, r);
    }
  }

  predicate OrderedStats(s: Stats, tt: real) {
    Ordered(s.inliers as real, s.sum, s.squares, tt)
  }

  lemma OrderedPlus(s: Stats, r: real, t: real)
    requires OrderedStats(s, t * t) && 0.0 <= r
    requires Consistent(s)
    ensures OrderedStats(Plus(s, One(r, t)), t * t)
  {
    if r <= t {
      OrderedStep(s.inliers as real, s.sum, s.squares, r, t);
      assert (s.inliers + 1) as real == s.inliers as real + 1.0;
    }
  }

  lemma {:induction false} Moments(items: seq<Item>, t: real)
    requires NonNegative(items)
    ensures OrderedStats(Sum(items, t), t * t)
  {
    if items != [] {
      var n := |items| - 1;
      Moments(items[..n], t);
      Counts(items[..n], t);
      OrderedPlus(Sum(items[..n], t), items[n].r, t);
    }
  }

  lemma OneMoreSquare(n: real, q: real, rr: real, tt: real)
    requires q <= n * tt && rr <= tt
    ensures q + rr <= (n + 1.0) * tt
  {
  }

  lemma DivideMoments(n: real, s: real, q: real, tt: real)
    requires n >= 1.0 && Ordered(n, s, q, tt)
    ensures 0.0 <= s / n && Square(s / n) <= q / n <= tt
  {
    var m, w := s / n, q / n;
    assert m * n == s && w * n == q;
    assert s * s == n * (n * (m * m));
    assert n * q == n * (n * w);
    Cancel(n, n * (m * m), n * w);
    Cancel(n, m * m, w);
    Cancel(n, w, tt);
  }

  lemma SquareNonNegative(x: real)
    ensures Square(x) >= 0.0
  {
  }

  /** The squared mean is at most the mean square, and that at most the squared threshold. */
  lemma MomentsOrdered(items: seq<Item>)
    requires NonNegative(items)
    ensures var m := MetricsOf(items);
            0.0 <= m.mean && Square(m.mean) <= m.meanSquare <= Square(m.threshold)
  {
    var t := Threshold(Median(Residuals(items)));
    var s := Sum(items, t);
    Moments(items, t);
    if s.inliers > 0 {
      DivideMoments(s.inliers as real, s.sum, s.squares, t * t);
    } else {
      SquareNonNegative(t);
    }
  }

  // -------------------------------------------------------------------------------- majority

  function CountUpTo(rs: seq<real>, t: real): nat {
    if rs == [] then 0 else CountUpTo(rs[1..], t) + if rs[0] <= t then 1 else 0
  }

  lemma {:induction false} CountWithout(rs: seq<real>, i: nat, t: real)
    requires i < |rs|
    ensures CountUpTo(rs, t) == CountUpTo(Without(rs, i), t) + if rs[i] <= t then 1 else 0
  {
    if i == 0 {
      assert Without(rs, 0) == rs[1..];
    } else {
      CountWithout(rs[1..], i - 1, t);
      assert Without(rs, i)[1..] == Without(rs[1..], i - 1);
    }
  }

  lemma {:induction false} CountPermutes(a: seq<real>, b: seq<real>, t: real)
    requires multiset(a) == multiset(b)
    ensures CountUpTo(a, t) == CountUpTo(b, t)
  {
    SameLength(a, b);
    if a != [] {
      var i := MatchHead(a, b);
      CountPermutes(a[1..], Without(b, i), t);
      CountWithout(b, i, t);
    }
  }

  lemma {:induction false} CountPrefix(s: seq<real>, k: nat, t: real)
    requires k <= |s| && forall i :: 0 <= i < k ==> s[i] <= t
    ensures CountUpTo(s, t) >= k
  {
    if k > 0 {
      CountPrefix(s[1..], k - 1, t);
    }
  }

  lemma {:induction false} CountIsInliers(items: seq<Item>, t: real)
    ensures CountUpTo(Residuals(items), t) == Sum(items, t).inliers
  {
    if items != [] {
      var n := |items| - 1;
      var rs := Residuals(items);
      OneMore(Sum(items[..n], t), items[n].r, t);
      CountIsInliers(items[..n], t);
      CountWithout(rs, n, t);
      assert Without(rs, n) == Residuals(items[..n]);
    }
  }

  /** The lower half of the sorted residuals, and one more, is below the threshold. */
  lemma MedianBelowThreshold(s: seq<real>)
    requires Ascending(s) && s != [] && s[0] >= 0.0
    ensures var n := |s|;
            var m := if n % 2 == 0 then (s[n / 2 - 1] + s[n / 2]) / 2.0 else s[n / 2];
            forall i :: 0 <= i <= n / 2 ==> s[i] <= Threshold(m)
  {
    var n := |s|;
    var m := if n % 2 == 0 then (s[n / 2 - 1] + s[n / 2]) / 2.0 else s[n / 2];
    assert s[0] <= s[n / 2] by {
      assert n / 2 == 0 || s[0] <= s[n / 2];
    }
    assert n % 2 == 0 ==> s[n / 2 - 1] >= 0.0 by {
      assert n % 2 == 0 && n / 2 - 1 > 0 ==> s[0] <= s[n / 2 - 1];
    }
    assert s[n / 2] <= 3.0 * m;
    forall i | 0 <= i <= n / 2
      ensures s[i] <= Threshold(m)
    {
      assert i == n / 2 || s[i] <= s[n / 2];
    }
  }

  /** More than half of the observations are inliers. */
  lemma MajorityInliers(items: seq<Item>)
    requires NonNegative(items) && items != []
    ensures 2 * MetricsOf(items).inliers > MetricsOf(items).total
  {
    var rs := Residuals(items);
    var s := SortReals(rs);
    var t := Threshold(Median(rs));
    SortRealsCorrect(rs);
    SameElementsMember(rs, s, s[0]);
    MedianBelowThreshold(s);
    CountPrefix(s, |s| / 2 + 1, t);
    CountPermutes(rs, s, t);
    CountIsInliers(items, t);
    Counts(items, t);
    MajorityOfHalf(|s|, Sum(items, t).inliers);
  }

  lemma MajorityOfHalf(n: nat, k: nat)
    requires k >= n / 2 + 1
    ensures 2 * k > n
  {
  }

  // ------------------------------------------------------------------- order of observations

  lemma MedianPermutes(a: seq<Item>, b: seq<Item>)
    requires multiset(a) == multiset(b)
    ensures Median(Residuals(a)) == Median(Residuals(b))
  {
    MappedPermutation(ResidualOf, a, b);
    SortRealsCorrect(Residuals(a));
    SortRealsCorrect(Residuals(b));
    AscendingUnique(SortReals(Residuals(a)), SortReals(Residuals(b)));
  }

  lemma AggregatesPermute(a: seq<Item>, b: seq<Item>, t: real)
    requires multiset(a) == multiset(b)
    ensures Sum(a, t) == Sum(b, t)
    ensures PerImage(a, t, Ids(ImageKey, a)) == PerImage(b, t, Ids(ImageKey, b))
    ensures PerPoint(a, t, Ids(PointKey, a)) == PerPoint(b, t, Ids(PointKey, b))
  {
    StatsLawful();
    FoldPermutes(STATS, Contribution(t), a, b);
    IdsPermute(ImageKey, a, b);
    IdsPermute(PointKey, a, b);
    forall id
      ensures ImageSum(a, t, id) == ImageSum(b, t, id) && PointSum(a, t, id) == PointSum(b, t, id)
    {
      SelectPermutes(ImageKey, id, a, b);
      SelectPermutes(PointKey, id, a, b);
      FoldPermutes(STATS, Contribution(t), Select(ImageKey, id, a), Select(ImageKey, id, b));
      FoldPermutes(STATS, PointContribution(t), Select(PointKey, id, a), Select(PointKey, id, b));
    }
  }

  /** Permuting the observations changes no metric. */
  lemma MetricsPermute(a: seq<Item>, b: seq<Item>)
    requires multiset(a) == multiset(b)
    ensures MetricsOf(a) == MetricsOf(b)
  {
    MedianPermutes(a, b);
    AggregatesPermute(a, b, Threshold(Median(Residuals(a))));
  }

  lemma {:induction false} AllMeasured<C, P, K>(s: Scene<C, P, K>, os: seq<Observation<K>>)
    ensures MeasureAll(s, os).Ok? <==> forall o :: o in os ==> Measure(s, o).Ok?
  {
    if os != [] {
      var n := |os| - 1;
      AllMeasured(s, os[..n]);
      assert os == os[..n] + [os[n]];
    }
  }

  /** The item of an observation that can be measured. */
  function Measured<C, P, K>(s: Scene<C, P, K>): Observation<K> -> Item {
    (o: Observation<K>) => match Measure(s, o) case Ok(it) => it case Err(_) => Item(0, 0, 0.0)
  }

  /** Permuting the observations changes neither whether they can be evaluated nor the result. */
  lemma EvaluationPermutes<C, P, K>(s: Scene<C, P, K>, a: seq<Observation<K>>, b: seq<Observation<K>>)
    requires multiset(a) == multiset(b)
    ensures MeasureAll(s, a).Ok? <==> MeasureAll(s, b).Ok?
    ensures MeasureAll(s, a).Ok? ==> MetricsOf(MeasureAll(s, a).value) == MetricsOf(MeasureAll(s, b).value)
  {
    AllMeasured(s, a);
    AllMeasured(s, b);
    forall o
      ensures o in a <==> o in b
    {
      SameElementsMember(a, b, o);
    }
    if MeasureAll(s, a).Ok? {
      MappedPermutation(Measured(s), a, b);
      assert Mapped(Measured(s), a) == MeasureAll(s, a).value;
      assert Mapped(Measured(s), b) == MeasureAll(s, b).value;
      MetricsPermute(MeasureAll(s, a).value, MeasureAll(s, b).value);
    }
  }
}
