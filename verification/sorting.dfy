/** Stable sorting by an order: insertion keeps equals in the order they came. */
module Sorting {

  function Insert<T>(x: T, sorted: seq<T>, before: (T, T) -> bool): (r: seq<T>)
    ensures multiset(r) == multiset(sorted) + multiset{x}
  {
    if sorted == [] || before(x, sorted[0]) then [x] + sorted
    else
      assert sorted == [sorted[0]] + sorted[1..];
      [sorted[0]] + Insert(x, sorted[1..], before)
  }

  function Sort<T>(xs: seq<T>, before: (T, T) -> bool): (r: seq<T>)
    ensures multiset(r) == multiset(xs)
  {
    if xs == [] then []
    else
      assert xs == [xs[0]] + xs[1..];
      Insert(xs[0], Sort(xs[1..], before), before)
  }

  lemma Regroup<T>(a: seq<T>, b: seq<T>, c: seq<T>)
    ensures a + (b + c) == a + b + c
  {
  }

  lemma SameMembers<T>(a: seq<T>, b: seq<T>)
    requires multiset(a) == multiset(b)
    ensures |a| == |b| && forall x :: x in a <==> x in b
  {
    assert |multiset(a)| == |a| && |multiset(b)| == |b|;
    assert forall x :: x in a <==> x in multiset(a);
    assert forall x :: x in b <==> x in multiset(b);
  }

  lemma InsertMembers<T>(x: T, sorted: seq<T>, before: (T, T) -> bool)
    ensures forall y :: y in Insert(x, sorted, before) <==> y == x || y in sorted
  {
    var r := Insert(x, sorted, before);
    assert forall y :: y in r <==> y in multiset(r);
    assert forall y :: y in sorted <==> y in multiset(sorted);
  }

  // ---- in order

  ghost predicate TotalOrder<T(!new)>(before: (T, T) -> bool) {
    && (forall a, b :: before(a, b) || before(b, a))
    && (forall a, b, c :: before(a, b) && before(b, c) ==> before(a, c))
  }

  ghost predicate Sorted<T>(xs: seq<T>, before: (T, T) -> bool) {
    forall i, j :: 0 <= i < j < |xs| ==> before(xs[i], xs[j])
  }

  lemma {:induction false} InsertSorted<T(!new)>(x: T, sorted: seq<T>, before: (T, T) -> bool)
    requires TotalOrder(before) && Sorted(sorted, before)
    ensures Sorted(Insert(x, sorted, before), before)
  {
    if sorted != [] && !before(x, sorted[0]) {
      var rest := Insert(x, sorted[1..], before);
      InsertSorted(x, sorted[1..], before);
      InsertMembers(x, sorted[1..], before);
      forall k | 0 <= k < |rest|
        ensures before(sorted[0], rest[k])
      {
        assert rest[k] in rest;
      }
    }
  }

  /** The result is in order. */
  lemma {:induction false} SortSorted<T(!new)>(xs: seq<T>, before: (T, T) -> bool)
    requires TotalOrder(before)
    ensures Sorted(Sort(xs, before), before)
  {
    if xs != [] {
      SortSorted(xs[1..], before);
      InsertSorted(xs[0], Sort(xs[1..], before), before);
    }
  }

  // ---- stable

  /** The members that the order does not tell from `x`. */
  function Like<T>(xs: seq<T>, x: T, before: (T, T) -> bool): seq<T> {
    if xs == [] then []
    else (if before(x, xs[0]) && before(xs[0], x) then [xs[0]] else []) + Like(xs[1..], x, before)
  }

  lemma LikeHead<T>(y: T, rest: seq<T>, x: T, before: (T, T) -> bool)
    ensures Like([y] + rest, x, before) == (if before(x, y) && before(y, x) then [y] else []) + Like(rest, x, before)
  {
    assert ([y] + rest)[1..] == rest;
  }

  lemma {:induction false} InsertStable<T(!new)>(y: T, sorted: seq<T>, x: T, before: (T, T) -> bool)
    requires TotalOrder(before)
    ensures Like(Insert(y, sorted, before), x, before) == Like([y] + sorted, x, before)
  {
    if sorted != [] && !before(y, sorted[0]) {
      InsertStable(y, sorted[1..], x, before);
      LikeHead(y, sorted, x, before);
      LikeHead(y, sorted[1..], x, before);
      LikeHead(sorted[0], Insert(y, sorted[1..], before), x, before);
    }
  }

  /** Members the order does not tell apart stay in the order they came. */
  lemma {:induction false} SortStable<T(!new)>(xs: seq<T>, x: T, before: (T, T) -> bool)
    requires TotalOrder(before)
    ensures Like(Sort(xs, before), x, before) == Like(xs, x, before)
  {
    if xs != [] {
      var sorted := Sort(xs[1..], before);
      SortStable(xs[1..], x, before);
      InsertStable(xs[0], sorted, x, before);
      LikeHead(xs[0], sorted, x, before);
    }
  }
}
