/** Sums in a commutative monoid: grouping by a key and permuting do not change them. */
module Folds {
  import opened Collections

  datatype Monoid<!T> = Monoid(zero: T, plus: (T, T) -> T)

  ghost predicate Laws<T>(m: Monoid<T>, a: T, b: T, c: T) {
    && m.plus(a, b) == m.plus(b, a)
    && m.plus(m.plus(a, b), c) == m.plus(a, m.plus(b, c))
    && m.plus(a, m.zero) == a
  }

  ghost predicate Lawful<T(!new)>(m: Monoid<T>) {
    forall a, b, c :: Laws(m, a, b, c)
  }

  lemma Middle<T(!new)>(m: Monoid<T>, a: T, b: T, x: T)
    requires Lawful(m)
    ensures m.plus(m.plus(a, x), b) == m.plus(m.plus(a, b), x)
    ensures m.plus(a, m.plus(b, x)) == m.plus(m.plus(a, b), x)
    ensures m.plus(a, m.zero) == a
  {
    assert Laws(m, a, x, b);
    assert Laws(m, x, b, a);
    assert Laws(m, a, b, x);
  }

  function Fold<X, T>(m: Monoid<T>, w: X -> T, xs: seq<X>): T {
    if xs == [] then m.zero else m.plus(Fold(m, w, xs[..|xs| - 1]), w(xs[|xs| - 1]))
  }

  lemma FoldSnoc<X, T>(m: Monoid<T>, w: X -> T, xs: seq<X>, x: X)
    ensures Fold(m, w, xs + [x]) == m.plus(Fold(m, w, xs), w(x))
  {
    assert (xs + [x])[..|xs|] == xs;
  }

  /** The elements with the given key, in order. */
  function Select<X>(key: X -> int, id: int, xs: seq<X>): seq<X> {
    if xs == [] then []
    else
      var rest := Select(key, id, xs[..|xs| - 1]);
      if key(xs[|xs| - 1]) == id then rest + [xs[|xs| - 1]] else rest
  }

  lemma SelectSnoc<X>(key: X -> int, id: int, xs: seq<X>, x: X)
    ensures Select(key, id, xs + [x]) == if key(x) == id then Select(key, id, xs) + [x] else Select(key, id, xs)
  {
    assert (xs + [x])[..|xs|] == xs;
  }

  /** The distinct keys, in the order of first occurrence. */
  function Keys<X>(key: X -> int, xs: seq<X>): seq<int> {
    if xs == [] then []
    else
      var rest := Keys(key, xs[..|xs| - 1]);
      var k := key(xs[|xs| - 1]);
      if k in rest then rest else rest + [k]
  }

  function Same(x: int): int { x }

  function Ids<X>(key: X -> int, xs: seq<X>): seq<int> {
    SortBy(Keys(key, xs), Same)
  }

  // ---------------------------------------------------------------------------- partition

  /** The fold of each group with the given ids, folded together. */
  function Grouped<X, T>(m: Monoid<T>, w: X -> T, key: X -> int, ids: seq<int>, xs: seq<X>): T {
    if ids == [] then m.zero
    else m.plus(Grouped(m, w, key, ids[..|ids| - 1], xs), Fold(m, w, Select(key, ids[|ids| - 1], xs)))
  }

  /** One more element goes to the one group it belongs to. */
  lemma {:induction false} GroupedSnoc<X, T(!new)>(m: Monoid<T>, w: X -> T, key: X -> int, ids: seq<int>, xs: seq<X>,
                                                   x: X)
    requires Lawful(m) && DistinctBy(ids, Same)
    ensures Grouped(m, w, key, ids, xs + [x])
            == if key(x) in ids then m.plus(Grouped(m, w, key, ids, xs), w(x)) else Grouped(m, w, key, ids, xs)
  {
    if ids != [] {
      var n := |ids| - 1;
      var before, group := Grouped(m, w, key, ids[..n], xs), Fold(m, w, Select(key, ids[n], xs));
      GroupedSnoc(m, w, key, ids[..n], xs, x);
      SelectSnoc(key, ids[n], xs, x);
      FoldSnoc(m, w, Select(key, ids[n], xs), x);
      Middle(m, before, group, w(x));
      LastApart(ids);
      assert key(x) in ids <==> key(x) in ids[..n] || key(x) == ids[n];
    }
  }

  lemma LastApart(ids: seq<int>)
    requires DistinctBy(ids, Same) && ids != []
    ensures ids[|ids| - 1] !in ids[..|ids| - 1]
  {
    assert forall k :: 0 <= k < |ids| - 1 ==> Same(ids[k]) != Same(ids[|ids| - 1]);
  }

  lemma {:induction false} NothingGrouped<X, T(!new)>(m: Monoid<T>, w: X -> T, key: X -> int, ids: seq<int>)
    requires Lawful(m)
    ensures Grouped(m, w, key, ids, []) == m.zero
  {
    if ids != [] {
      NothingGrouped(m, w, key, ids[..|ids| - 1]);
      assert Laws(m, m.zero, m.zero, m.zero);
    }
  }

  /** Distinct ids that cover all elements split the whole fold. */
  lemma {:induction false} GroupsAddUp<X, T(!new)>(m: Monoid<T>, w: X -> T, key: X -> int, ids: seq<int>, xs: seq<X>)
    requires Lawful(m) && DistinctBy(ids, Same) && forall i :: 0 <= i < |xs| ==> key(xs[i]) in ids
    ensures Grouped(m, w, key, ids, xs) == Fold(m, w, xs)
  {
    if xs == [] {
      NothingGrouped(m, w, key, ids);
    } else {
      var n := |xs| - 1;
      GroupsAddUp(m, w, key, ids, xs[..n]);
      GroupedSnoc(m, w, key, ids, xs[..n], xs[n]);
      assert xs[..n] + [xs[n]] == xs;
    }
  }

  ghost predicate IsKey<X>(key: X -> int, xs: seq<X>, k: int) {
    exists i :: 0 <= i < |xs| && key(xs[i]) == k
  }

  lemma IsKeySnoc<X>(key: X -> int, xs: seq<X>, x: X, k: int)
    ensures IsKey(key, xs + [x], k) <==> IsKey(key, xs, k) || key(x) == k
  {
    if IsKey(key, xs, k) {
      var i :| 0 <= i < |xs| && key(xs[i]) == k;
      assert (xs + [x])[i] == xs[i];
    }
    assert (xs + [x])[|xs|] == x;
  }

  lemma {:induction false} KeysCover<X>(key: X -> int, xs: seq<X>)
    ensures DistinctBy(Keys(key, xs), Same) && forall k :: k in Keys(key, xs) <==> IsKey(key, xs, k)
  {
    if xs != [] {
      var n := |xs| - 1;
      KeysCover(key, xs[..n]);
      assert xs[..n] + [xs[n]] == xs;
      forall k
        ensures k in Keys(key, xs) <==> IsKey(key, xs, k)
      {
        IsKeySnoc(key, xs[..n], xs[n], k);
      }
    }
  }

  lemma IdsCover<X>(key: X -> int, xs: seq<X>)
    ensures DistinctBy(Ids(key, xs), Same) && forall i :: 0 <= i < |xs| ==> key(xs[i]) in Ids(key, xs)
  {
    var keys := Keys(key, xs);
    KeysCover(key, xs);
    SortByCorrect(keys, Same);
    DistinctPermutes(keys, Ids(key, xs), Same);
    forall i | 0 <= i < |xs|
      ensures key(xs[i]) in Ids(key, xs)
    {
      assert IsKey(key, xs, key(xs[i]));
      SameElementsMember(keys, Ids(key, xs), key(xs[i]));
    }
  }

  /** Every element is in exactly one group. */
  lemma GroupsPartition<X, T(!new)>(m: Monoid<T>, w: X -> T, key: X -> int, xs: seq<X>)
    requires Lawful(m)
    ensures Grouped(m, w, key, Ids(key, xs), xs) == Fold(m, w, xs)
  {
    IdsCover(key, xs);
    GroupsAddUp(m, w, key, Ids(key, xs), xs);
  }

  /** Aggregates that weigh what their groups fold to weigh together what all elements do. */
  lemma {:induction false} AggregatesAddUp<X, A, T(!new)>(m: Monoid<T>, w: X -> T, key: X -> int, ids: seq<int>,
                                                          xs: seq<X>,
                                                          aggs: seq<A>, weight: A -> T)
    requires Lawful(m) && |aggs| == |ids|
    requires forall i :: 0 <= i < |ids| ==> weight(aggs[i]) == Fold(m, w, Select(key, ids[i], xs))
    ensures Fold(m, weight, aggs) == Grouped(m, w, key, ids, xs)
  {
    if ids != [] {
      var n := |ids| - 1;
      AggregatesAddUp(m, w, key, ids[..n], xs, aggs[..n], weight);
    }
  }

  // -------------------------------------------------------------------------- permutations

  lemma {:induction false} FoldWithout<X, T(!new)>(m: Monoid<T>, w: X -> T, xs: seq<X>, i: nat)
    requires Lawful(m) && i < |xs|
    ensures Fold(m, w, xs) == m.plus(Fold(m, w, Without(xs, i)), w(xs[i]))
  {
    var n := |xs| - 1;
    if i == n {
      assert Without(xs, i) == xs[..n];
    } else {
      FoldWithout(m, w, xs[..n], i);
      assert Without(xs, i) == Without(xs[..n], i) + [xs[n]];
      FoldSnoc(m, w, Without(xs[..n], i), xs[n]);
      Middle(m, Fold(m, w, Without(xs[..n], i)), w(xs[n]), w(xs[i]));
    }
  }

  lemma {:induction false} FoldPermutes<X, T(!new)>(m: Monoid<T>, w: X -> T, a: seq<X>, b: seq<X>)
    requires Lawful(m) && multiset(a) == multiset(b)
    ensures Fold(m, w, a) == Fold(m, w, b)
  {
    SameLength(a, b);
    if a != [] {
      var i := MatchHead(a, b);
      FoldPermutes(m, w, a[1..], Without(b, i));
      FoldWithout(m, w, a, 0);
      assert Without(a, 0) == a[1..];
      FoldWithout(m, w, b, i);
    }
  }

  lemma {:induction false} SelectCounts<X>(key: X -> int, id: int, xs: seq<X>, x: X)
    ensures multiset(Select(key, id, xs))[x] == if key(x) == id then multiset(xs)[x] else 0
  {
    if xs != [] {
      var n := |xs| - 1;
      SelectCounts(key, id, xs[..n], x);
      assert xs == xs[..n] + [xs[n]];
    }
  }

  lemma SelectPermutes<X(!new)>(key: X -> int, id: int, a: seq<X>, b: seq<X>)
    requires multiset(a) == multiset(b)
    ensures multiset(Select(key, id, a)) == multiset(Select(key, id, b))
  {
    forall x: X
      ensures multiset(Select(key, id, a))[x] == multiset(Select(key, id, b))[x]
    {
      SelectCounts(key, id, a, x);
      SelectCounts(key, id, b, x);
    }
  }

  lemma DistinctSameElements(a: seq<int>, b: seq<int>)
    requires DistinctBy(a, Same) && DistinctBy(b, Same) && forall k :: k in a <==> k in b
    ensures multiset(a) == multiset(b)
  {
    forall k: int
      ensures multiset(a)[k] == multiset(b)[k]
    {
      OnceInDistinct(a, k, Same);
      OnceInDistinct(b, k, Same);
      assert k in multiset(a) <==> k in a;
      assert k in multiset(b) <==> k in b;
    }
  }

  lemma KeyInBoth<X>(key: X -> int, a: seq<X>, b: seq<X>, k: int)
    requires multiset(a) == multiset(b) && IsKey(key, a, k)
    ensures IsKey(key, b, k)
  {
    var i :| 0 <= i < |a| && key(a[i]) == k;
    SameElementsMember(a, b, a[i]);
    var j :| 0 <= j < |b| && b[j] == a[i];
  }

  /** The sorted distinct keys do not depend on the order of the elements. */
  lemma IdsPermute<X>(key: X -> int, a: seq<X>, b: seq<X>)
    requires multiset(a) == multiset(b)
    ensures Ids(key, a) == Ids(key, b)
  {
    KeysCover(key, a);
    KeysCover(key, b);
    forall k
      ensures k in Keys(key, a) <==> k in Keys(key, b)
    {
      if IsKey(key, a, k) {
        KeyInBoth(key, a, b, k);
      }
      if IsKey(key, b, k) {
        KeyInBoth(key, b, a, k);
      }
    }
    DistinctSameElements(Keys(key, a), Keys(key, b));
    SortByPermutation(Keys(key, a), Keys(key, b), Same);
  }
}
