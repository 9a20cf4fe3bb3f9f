/** Distributing the selected nodes evenly between the edges of their group. */
module Distribute {
  import opened Options
  import opened Sorting
  import opened Align

  ghost predicate DistinctIds(ns: seq<Item>) {
    forall i, j :: 0 <= i < j < |ns| ==> ns[i].id != ns[j].id
  }

  // ---- the order by position

  function ByPosition(axis: Axis): (Item, Item) -> bool {
    (a, b) => Position(axis, a) <= Position(axis, b)
  }

  ghost predicate Ascending(axis: Axis, ns: seq<Item>) {
    forall i, j :: 0 <= i <= j < |ns| ==> Position(axis, ns[i]) <= Position(axis, ns[j])
  }

  lemma SortAscends(axis: Axis, ns: seq<Item>)
    ensures Ascending(axis, Sort(ns, ByPosition(axis)))
  {
    var sorted := Sort(ns, ByPosition(axis));
    SortSorted(ns, ByPosition(axis));
    forall i, j | 0 <= i <= j < |sorted|
      ensures Position(axis, sorted[i]) <= Position(axis, sorted[j])
    {
      if i < j {
        assert ByPosition(axis)(sorted[i], sorted[j]);
      }
    }
  }

  lemma {:induction false} InsertDistinct(axis: Axis, n: Item, sorted: seq<Item>)
    requires DistinctIds(sorted) && forall m :: m in sorted ==> m.id != n.id
    ensures DistinctIds(Insert(n, sorted, ByPosition(axis)))
  {
    if sorted != [] && Position(axis, n) > Position(axis, sorted[0]) {
      var rest := Insert(n, sorted[1..], ByPosition(axis));
      InsertDistinct(axis, n, sorted[1..]);
      InsertMembers(n, sorted[1..], ByPosition(axis));
      forall k | 0 <= k < |rest|
        ensures sorted[0].id != rest[k].id
      {
        assert rest[k] in rest;
      }
    }
  }

  lemma {:induction false} SortDistinct(axis: Axis, ns: seq<Item>)
    requires DistinctIds(ns)
    ensures DistinctIds(Sort(ns, ByPosition(axis)))
  {
    if ns != [] {
      SortDistinct(axis, ns[1..]);
      SameMembers(Sort(ns[1..], ByPosition(axis)), ns[1..]);
      forall m | m in ns[1..]
        ensures m.id != ns[0].id
      {
        var i :| 0 <= i < |ns[1..]| && ns[1..][i] == m;
      }
      InsertDistinct(axis, ns[0], Sort(ns[1..], ByPosition(axis)));
    }
  }

  // ---- the new positions

  function TotalSize(axis: Axis, ns: seq<Item>): real {
    if ns == [] then 0.0 else TotalSize(axis, ns[..|ns| - 1]) + Size(axis, ns[|ns| - 1])
  }

  function Gap(axis: Axis, s: seq<Item>): real
    requires |s| >= 2
  {
    (Far(axis, s) - Near(axis, s) - TotalSize(axis, s)) / (|s| - 1) as real
  }

  /** Where the node at `k` goes: after the nodes before it, each followed by the gap. */
  function Cursor(axis: Axis, s: seq<Item>, near: real, gap: real, k: nat): real
    requires k <= |s|
  {
    if k == 0 then near else Cursor(axis, s, near, gap, k - 1) + (Size(axis, s[k - 1]) + gap)
  }

  function Targets(axis: Axis, s: seq<Item>, near: real, gap: real, k: nat): map<string, real>
    requires k <= |s|
  {
    if k == 0 then map[] else Targets(axis, s, near, gap, k - 1)[s[k - 1].id := Cursor(axis, s, near, gap, k - 1)]
  }

  function MoveOne(axis: Axis, n: Item, next: map<string, real>): Item {
    if n.id in next then MoveTo(axis, n, next[n.id]) else n
  }

  function MoveAll(axis: Axis, ns: seq<Item>, next: map<string, real>): (r: seq<Item>)
    ensures |r| == |ns|
    ensures forall i :: 0 <= i < |ns| ==> r[i] == MoveOne(axis, ns[i], next)
  {
    seq(|ns|, i requires 0 <= i < |ns| => MoveOne(axis, ns[i], next))
  }

  /** Spreads a sorted group over its extent. */
  function Spread(ns: seq<Item>, s: seq<Item>, axis: Axis): seq<Item>
    requires |s| >= 2
  {
    MoveAll(axis, ns, Targets(axis, s, Near(axis, s), Gap(axis, s), |s|))
  }

  /** The selected nodes in order of position. */
  function InOrder(ns: seq<Item>, ids: set<string>, axis: Axis): seq<Item> {
    Sort(Selected(ns, ids), ByPosition(axis))
  }

  function Distributed(ns: seq<Item>, ids: set<string>, axis: Axis): seq<Item> {
    var s := InOrder(ns, ids, axis);
    if |s| < 3 then ns else Spread(ns, s, axis)
  }

  method DistributeNodes(ns: seq<Item>, ids: set<string>, axis: Axis) returns (r: seq<Item>)
    ensures r == Distributed(ns, ids, axis)
  {
    var selected := Selected(ns, ids);
    var sorted := Sort(selected, ByPosition(axis));
    SameMembers(sorted, selected);
    if |selected| < 3 {
      return ns;
    }
    r := SpreadOut(ns, sorted, axis);
  }

  /** The two loops: the total size, then a cursor that moves over the sorted nodes. */
  method SpreadOut(ns: seq<Item>, sorted: seq<Item>, axis: Axis) returns (r: seq<Item>)
    requires |sorted| >= 2
    ensures r == Spread(ns, sorted, axis)
  {
    var totalSize := SumSizes(sorted, axis);
    var span := Far(axis, sorted) - Near(axis, sorted);
    var gap := (span - totalSize) / (|sorted| - 1) as real;
    var cursor := Near(axis, sorted);
    ghost var near := cursor;
    var next := map[];
    for k := 0 to |sorted|
      invariant cursor == Cursor(axis, sorted, near, gap, k)
      invariant next == Targets(axis, sorted, near, gap, k)
    {
      next := next[sorted[k].id := cursor];
      cursor := cursor + (Size(axis, sorted[k]) + gap);
    }
    r := MoveAll(axis, ns, next);
  }

  method SumSizes(ns: seq<Item>, axis: Axis) returns (total: real)
    ensures total == TotalSize(axis, ns)
  {
    total := 0.0;
    for k := 0 to |ns|
      invariant total == TotalSize(axis, ns[..k])
    {
      assert ns[..k + 1][..k] == ns[..k];
      total := total + Size(axis, ns[k]);
    }
    assert ns[..|ns|] == ns;
  }

  // ---- where the nodes end up

  /** Sizes and gaps up to a node, in closed form. */
  lemma {:induction false} CursorClosed(axis: Axis, s: seq<Item>, near: real, gap: real, k: nat)
    requires k <= |s|
    ensures Cursor(axis, s, near, gap, k) == near + TotalSize(axis, s[..k]) + k as real * gap
    decreases k
  {
    if k > 0 {
      CursorClosed(axis, s, near, gap, k - 1);
      assert s[..k][..k - 1] == s[..k - 1];
      NextMultiple(k, gap);
    }
  }

  lemma NextMultiple(k: nat, g: real)
    requires k > 0
    ensures k as real * g == (k - 1) as real * g + g
  {
  }

  /** With the leftover spread over the gaps, the last node ends at the far edge. */
  lemma LastEndsAt(axis: Axis, s: seq<Item>, near: real, far: real, gap: real)
    requires |s| >= 2 && gap == (far - near - TotalSize(axis, s)) / (|s| - 1) as real
    ensures Cursor(axis, s, near, gap, |s| - 1) + Size(axis, s[|s| - 1]) == far
  {
    var n := |s|;
    var before, last := TotalSize(axis, s[..n - 1]), Size(axis, s[n - 1]);
    CursorClosed(axis, s, near, gap, n - 1);
    FillsSpan(near, far, before, last, n - 1);
  }

  lemma LastAtEdge(axis: Axis, s: seq<Item>)
    requires |s| >= 2
    ensures Cursor(axis, s, Near(axis, s), Gap(axis, s), |s| - 1) + Size(axis, s[|s| - 1]) == Far(axis, s)
  {
    LastEndsAt(axis, s, Near(axis, s), Far(axis, s), Gap(axis, s));
  }

  lemma FillsSpan(near: real, far: real, before: real, last: real, n: nat)
    requires n > 0
    ensures near + before + n as real * ((far - near - (before + last)) / n as real) + last == far
  {
    Undivide(far - near - (before + last), n);
  }

  lemma Undivide(a: real, n: nat)
    requires n > 0
    ensures n as real * (a / n as real) == a
  {
  }

  /** The first node stays, and neighbours are one gap apart. */
  lemma EvenGaps(axis: Axis, s: seq<Item>, gap: real, k: nat)
    requires Ascending(axis, s) && k + 1 < |s|
    ensures Cursor(axis, s, Near(axis, s), gap, 0) == Position(axis, s[0])
    ensures Cursor(axis, s, Near(axis, s), gap, k + 1) ==
      Cursor(axis, s, Near(axis, s), gap, k) + Size(axis, s[k]) + gap
  {
  }

  lemma {:induction false} TargetAt(axis: Axis, s: seq<Item>, near: real, gap: real, k: nat, i: nat)
    requires DistinctIds(s) && i < k <= |s|
    ensures var next := Targets(axis, s, near, gap, k);
      s[i].id in next && next[s[i].id] == Cursor(axis, s, near, gap, i)
    decreases k
  {
    if i < k - 1 {
      TargetAt(axis, s, near, gap, k - 1, i);
    }
  }

  lemma {:induction false} TargetsOnly(axis: Axis, s: seq<Item>, near: real, gap: real, k: nat, id: string)
    requires k <= |s| && forall n :: n in s ==> n.id != id
    ensures id !in Targets(axis, s, near, gap, k)
    decreases k
  {
    if k > 0 {
      assert s[k - 1] in s;
      TargetsOnly(axis, s, near, gap, k - 1, id);
    }
  }

  lemma {:induction false} SelectedDistinct(ns: seq<Item>, ids: set<string>)
    requires DistinctIds(ns)
    ensures DistinctIds(Selected(ns, ids))
  {
    if ns != [] {
      SelectedDistinct(ns[1..], ids);
      forall n | n in Selected(ns[1..], ids)
        ensures n.id != ns[0].id
      {
        var i :| 0 <= i < |ns[1..]| && ns[1..][i] == n;
      }
    }
  }

  /** The order holds exactly the selected nodes, each once, by position. */
  lemma OrderHolds(ns: seq<Item>, ids: set<string>, axis: Axis)
    requires DistinctIds(ns)
    ensures var s := InOrder(ns, ids, axis);
      && |s| == |Selected(ns, ids)| && Ascending(axis, s) && DistinctIds(s)
      && forall n :: n in s <==> n in ns && n.id in ids
  {
    SortAscends(axis, Selected(ns, ids));
    SelectedDistinct(ns, ids);
    SortDistinct(axis, Selected(ns, ids));
    SameMembers(InOrder(ns, ids, axis), Selected(ns, ids));
  }

  /** A node that is not selected stays; the selected node at `k` in the order goes to the cursor at `k`. */
  lemma DistributedPlaces(ns: seq<Item>, ids: set<string>, axis: Axis, i: nat)
    requires DistinctIds(ns) && i < |ns| && |Selected(ns, ids)| >= 3
    ensures var s, r := InOrder(ns, ids, axis), Distributed(ns, ids, axis);
      && |s| == |Selected(ns, ids)| && |r| == |ns|
      && (ns[i].id !in ids ==> r[i] == ns[i])
      && (forall k :: 0 <= k < |s| && s[k] == ns[i] ==>
          r[i] == MoveTo(axis, ns[i], Cursor(axis, s, Near(axis, s), Gap(axis, s), k)))
  {
    var s := InOrder(ns, ids, axis);
    var near, gap := Near(axis, s), Gap(axis, s);
    var next := Targets(axis, s, near, gap, |s|);
    OrderHolds(ns, ids, axis);
    assert Distributed(ns, ids, axis)[i] == MoveOne(axis, ns[i], next);
    if ns[i].id !in ids {
      TargetsOnly(axis, s, near, gap, |s|, ns[i].id);
    }
    forall k | 0 <= k < |s| && s[k] == ns[i]
      ensures MoveOne(axis, ns[i], next) == MoveTo(axis, ns[i], Cursor(axis, s, near, gap, k))
    {
      TargetAt(axis, s, near, gap, |s|, k);
    }
  }

  // ---- the same, told by the fields of the nodes

  /** What distributing leaves of the node that stands at this place in the order. */
  ghost predicate GoesTo(ns: seq<Item>, ids: set<string>, axis: Axis, k: nat, before: Item, after: Item) {
    && k < |InOrder(ns, ids, axis)| && InOrder(ns, ids, axis)[k] == before
    && |Distributed(ns, ids, axis)| == |ns|
    && exists i :: 0 <= i < |ns| && ns[i] == before && Distributed(ns, ids, axis)[i] == after
  }

  lemma GoesToCursor(ns: seq<Item>, ids: set<string>, axis: Axis, k: nat, before: Item, after: Item)
    requires DistinctIds(ns) && |Selected(ns, ids)| >= 3 && GoesTo(ns, ids, axis, k, before, after)
    ensures var s := InOrder(ns, ids, axis);
      |s| >= 3 && after == MoveTo(axis, before, Cursor(axis, s, Near(axis, s), Gap(axis, s), k))
  {
    var i :| 0 <= i < |ns| && ns[i] == before && Distributed(ns, ids, axis)[i] == after;
    DistributedPlaces(ns, ids, axis, i);
  }

  /** A node at the cursor of its place, and what that means for the first, the last and the next node. */
  ghost predicate AtCursor(axis: Axis, s: seq<Item>, k: nat, before: Item, after: Item) {
    && |s| >= 3 && k < |s| && s[k] == before && Ascending(axis, s)
    && after == MoveTo(axis, before, Cursor(axis, s, Near(axis, s), Gap(axis, s), k))
  }

  lemma GoesAtCursor(ns: seq<Item>, ids: set<string>, axis: Axis, k: nat, before: Item, after: Item)
    requires DistinctIds(ns) && |Selected(ns, ids)| >= 3 && GoesTo(ns, ids, axis, k, before, after)
    ensures AtCursor(axis, InOrder(ns, ids, axis), k, before, after)
  {
    OrderHolds(ns, ids, axis);
    GoesToCursor(ns, ids, axis, k, before, after);
  }

  lemma FirstStays(axis: Axis, s: seq<Item>, a: Item, a': Item)
    requires AtCursor(axis, s, 0, a, a')
    ensures Position(axis, a') == Position(axis, a) == Near(axis, s)
  {
    EvenGaps(axis, s, Gap(axis, s), 0);
  }

  lemma LastEnds(axis: Axis, s: seq<Item>, k: nat, a: Item, a': Item)
    requires AtCursor(axis, s, k, a, a') && k == |s| - 1
    ensures Position(axis, a') + Size(axis, a) == Far(axis, s)
  {
    LastAtEdge(axis, s);
  }

  lemma NextFollows(axis: Axis, s: seq<Item>, k: nat, a: Item, a': Item, b: Item, b': Item)
    requires AtCursor(axis, s, k, a, a') && AtCursor(axis, s, k + 1, b, b')
    ensures Position(axis, a) <= Position(axis, b)
    ensures Position(axis, b') == Position(axis, a') + Size(axis, a) + Gap(axis, s)
  {
    EvenGaps(axis, s, Gap(axis, s), k);
  }

  /** Distributed horizontally, the first node stays where the leftmost one was, and the last one ends where the
      rightmost one ended; only `x` changes. */
  lemma EndsAcross(ns: seq<Item>, ids: set<string>, k: nat, a: Item, a': Item, w: real, left: real, right: real)
    requires DistinctIds(ns) && |Selected(ns, ids)| >= 3 && GoesTo(ns, ids, Horizontal, k, a, a') && Wide(a, w)
    requires Across(InOrder(ns, ids, Horizontal), left, right)
    ensures a' == a.(x := a'.x)
    ensures k == 0 ==> a'.x == a.x == left
    ensures k == |InOrder(ns, ids, Horizontal)| - 1 ==> a'.x + w == right
  {
    var s := InOrder(ns, ids, Horizontal);
    GoesAtCursor(ns, ids, Horizontal, k, a, a');
    EdgesAcross(s, left, right);
    if k == 0 {
      FirstStays(Horizontal, s, a, a');
    }
    if k == |s| - 1 {
      LastEnds(Horizontal, s, k, a, a');
    }
  }

  lemma Spaced(ns: seq<Item>, ids: set<string>, axis: Axis, k: nat, a: Item, a': Item, b: Item, b': Item)
    requires DistinctIds(ns) && |Selected(ns, ids)| >= 3
    requires GoesTo(ns, ids, axis, k, a, a') && GoesTo(ns, ids, axis, k + 1, b, b')
    ensures |InOrder(ns, ids, axis)| >= 2 && Position(axis, a) <= Position(axis, b)
    ensures Position(axis, b') == Position(axis, a') + Size(axis, a) + Gap(axis, InOrder(ns, ids, axis))
  {
    GoesAtCursor(ns, ids, axis, k, a, a');
    GoesAtCursor(ns, ids, axis, k + 1, b, b');
    NextFollows(axis, InOrder(ns, ids, axis), k, a, a', b, b');
  }

  /** Distributed horizontally, nodes are taken by their `x`, and the same space is behind each. */
  lemma SpacedAcross(ns: seq<Item>, ids: set<string>, k: nat, a: Item, a': Item, w: real, b: Item, b': Item)
    requires DistinctIds(ns) && |Selected(ns, ids)| >= 3 && Wide(a, w)
    requires GoesTo(ns, ids, Horizontal, k, a, a') && GoesTo(ns, ids, Horizontal, k + 1, b, b')
    ensures a.x <= b.x && b'.x == a'.x + w + Gap(Horizontal, InOrder(ns, ids, Horizontal))
  {
    Spaced(ns, ids, Horizontal, k, a, a', b, b');
  }

  /** Distributed vertically, the first node stays where the topmost one was, and the last one ends where the lowest
      one ended; only `y` changes. */
  lemma EndsDown(ns: seq<Item>, ids: set<string>, k: nat, a: Item, a': Item, h: real, top: real, bottom: real)
    requires DistinctIds(ns) && |Selected(ns, ids)| >= 3 && GoesTo(ns, ids, Vertical, k, a, a') && High(a, h)
    requires Down(InOrder(ns, ids, Vertical), top, bottom)
    ensures a' == a.(y := a'.y)
    ensures k == 0 ==> a'.y == a.y == top
    ensures k == |InOrder(ns, ids, Vertical)| - 1 ==> a'.y + h == bottom
  {
    var s := InOrder(ns, ids, Vertical);
    GoesAtCursor(ns, ids, Vertical, k, a, a');
    EdgesDown(s, top, bottom);
    if k == 0 {
      FirstStays(Vertical, s, a, a');
    }
    if k == |s| - 1 {
      LastEnds(Vertical, s, k, a, a');
    }
  }

  /** Distributed vertically, nodes are taken by their `y`, and the same space is below each. */
  lemma SpacedDown(ns: seq<Item>, ids: set<string>, k: nat, a: Item, a': Item, h: real, b: Item, b': Item)
    requires DistinctIds(ns) && |Selected(ns, ids)| >= 3 && High(a, h)
    requires GoesTo(ns, ids, Vertical, k, a, a') && GoesTo(ns, ids, Vertical, k + 1, b, b')
    ensures a.y <= b.y && b'.y == a'.y + h + Gap(Vertical, InOrder(ns, ids, Vertical))
  {
    Spaced(ns, ids, Vertical, k, a, a', b, b');
  }

  // ---- no overlap, and nothing left to do

  ghost predicate PositiveSizes(axis: Axis, s: seq<Item>) {
    forall k :: 0 <= k < |s| ==> Size(axis, s[k]) > 0.0
  }

  /** The nodes, each with its gap, go forward: none is placed at or before the one in front of it. */
  ghost predicate GoesForward(axis: Axis, s: seq<Item>, gap: real) {
    forall k :: 0 <= k < |s| ==> Size(axis, s[k]) + gap > 0.0
  }

  lemma {:induction false} CursorGrows(axis: Axis, s: seq<Item>, near: real, gap: real, j: nat, k: nat)
    requires GoesForward(axis, s, gap) && j < k < |s|
    ensures Cursor(axis, s, near, gap, j) < Cursor(axis, s, near, gap, k)
    ensures Cursor(axis, s, near, gap, j) + Size(axis, s[j]) < Cursor(axis, s, near, gap, k) + Size(axis, s[k])
    decreases k
  {
    assert Size(axis, s[k - 1]) + gap > 0.0 && Size(axis, s[k]) + gap > 0.0;
    if j < k - 1 {
      CursorGrows(axis, s, near, gap, j, k - 1);
    }
  }

  lemma {:induction false} ApartByGap(axis: Axis, s: seq<Item>, near: real, gap: real, j: nat, k: nat)
    requires PositiveSizes(axis, s) && gap >= 0.0 && j < k < |s|
    ensures Cursor(axis, s, near, gap, j) + Size(axis, s[j]) + gap <= Cursor(axis, s, near, gap, k)
    decreases k
  {
    if j < k - 1 {
      ApartByGap(axis, s, near, gap, j, k - 1);
      assert Size(axis, s[k - 1]) > 0.0;
    }
  }

  /** At its cursor the node at `j` ends where the node at `k` starts, or before. */
  predicate EndsBefore(axis: Axis, s: seq<Item>, near: real, gap: real, j: nat, k: nat)
    requires j < |s| && k < |s|
  {
    Cursor(axis, s, near, gap, j) + Size(axis, s[j]) <= Cursor(axis, s, near, gap, k)
  }

  /** Every node ends before the next ones start exactly when the gap is not negative. */
  lemma NoOverlap(axis: Axis, s: seq<Item>, near: real, gap: real)
    requires PositiveSizes(axis, s) && |s| >= 2
    ensures (forall j, k :: 0 <= j < k < |s| ==> EndsBefore(axis, s, near, gap, j, k)) <==> gap >= 0.0
  {
    if gap >= 0.0 {
      forall j, k | 0 <= j < k < |s|
        ensures EndsBefore(axis, s, near, gap, j, k)
      {
        ApartByGap(axis, s, near, gap, j, k);
      }
    } else {
      assert !EndsBefore(axis, s, near, gap, 0, 1);
    }
  }

  lemma {:induction false} SelectedMoved(ns: seq<Item>, ids: set<string>, axis: Axis, next: map<string, real>)
    ensures Selected(MoveAll(axis, ns, next), ids) == MoveAll(axis, Selected(ns, ids), next)
  {
    if ns != [] {
      SelectedMoved(ns[1..], ids, axis, next);
      var all, rest := MoveAll(axis, ns, next), MoveAll(axis, ns[1..], next);
      assert all[1..] == rest && all[0].id == ns[0].id;
      if ns[0].id in ids {
        assert Selected(all, ids) == [all[0]] + Selected(rest, ids);
      } else {
        assert Selected(all, ids) == Selected(rest, ids);
      }
    }
  }

  lemma MovedCons(axis: Axis, n: Item, rest: seq<Item>, next: map<string, real>)
    ensures MoveAll(axis, [n] + rest, next) == [MoveOne(axis, n, next)] + MoveAll(axis, rest, next)
    ensures multiset(MoveAll(axis, [n] + rest, next)) ==
      multiset{MoveOne(axis, n, next)} + multiset(MoveAll(axis, rest, next))
  {
  }

  lemma Swapped(axis: Axis, n: Item, m: Item, rest: seq<Item>, next: map<string, real>)
    ensures multiset(MoveAll(axis, [n] + ([m] + rest), next)) ==
      multiset{MoveOne(axis, m, next)} + (multiset{MoveOne(axis, n, next)} + multiset(MoveAll(axis, rest, next)))
  {
    MovedCons(axis, n, [m] + rest, next);
    MovedCons(axis, m, rest, next);
  }

  lemma {:induction false} MovedInsert(axis: Axis, n: Item, sorted: seq<Item>, next: map<string, real>)
    ensures multiset(MoveAll(axis, Insert(n, sorted, ByPosition(axis)), next)) ==
      multiset(MoveAll(axis, [n] + sorted, next))
  {
    if sorted != [] && Position(axis, n) > Position(axis, sorted[0]) {
      var rest := sorted[1..];
      assert sorted == [sorted[0]] + rest;
      MovedCons(axis, sorted[0], Insert(n, rest, ByPosition(axis)), next);
      MovedInsert(axis, n, rest, next);
      MovedCons(axis, n, rest, next);
      Swapped(axis, n, sorted[0], rest, next);
    }
  }

  /** Sorting and moving, in either order, leave the same nodes. */
  lemma {:induction false} MovedSort(axis: Axis, ns: seq<Item>, next: map<string, real>)
    ensures multiset(MoveAll(axis, Sort(ns, ByPosition(axis)), next)) == multiset(MoveAll(axis, ns, next))
  {
    if ns != [] {
      assert ns == [ns[0]] + ns[1..];
      MovedCons(axis, ns[0], ns[1..], next);
      MovedInsert(axis, ns[0], Sort(ns[1..], ByPosition(axis)), next);
      MovedCons(axis, ns[0], Sort(ns[1..], ByPosition(axis)), next);
      MovedSort(axis, ns[1..], next);
    }
  }

  ghost predicate StrictlyAscending(axis: Axis, s: seq<Item>) {
    forall i, j :: 0 <= i < j < |s| ==> Position(axis, s[i]) < Position(axis, s[j])
  }

  lemma SameRest(x: Item, a: seq<Item>, b: seq<Item>)
    requires multiset([x] + a) == multiset([x] + b)
    ensures multiset(a) == multiset(b)
  {
    assert multiset([x] + a) - multiset{x} == multiset(a);
    assert multiset([x] + b) - multiset{x} == multiset(b);
  }

  lemma SameFirst(axis: Axis, a: seq<Item>, b: seq<Item>)
    requires a != [] && b != [] && a[0] in b && b[0] in a && Ascending(axis, a) && StrictlyAscending(axis, b)
    ensures a[0] == b[0]
  {
    var i :| 0 <= i < |b| && b[i] == a[0];
    var j :| 0 <= j < |a| && a[j] == b[0];
    assert Position(axis, a[0]) <= Position(axis, a[j]);
  }

  /** A list sorted by distinct positions is the only sorted arrangement of its members. */
  lemma {:induction false} OneOrder(axis: Axis, a: seq<Item>, b: seq<Item>)
    requires multiset(a) == multiset(b) && Ascending(axis, a) && StrictlyAscending(axis, b)
    ensures a == b
  {
    SameMembers(a, b);
    if a != [] {
      assert a[0] in b && b[0] in a;
      SameFirst(axis, a, b);
      assert a == [a[0]] + a[1..] && b == [a[0]] + b[1..];
      SameRest(a[0], a[1..], b[1..]);
      OneOrder(axis, a[1..], b[1..]);
    }
  }

  /** Every node of `m` is the node of `s` at its cursor. */
  ghost predicate Placed(axis: Axis, s: seq<Item>, m: seq<Item>, near: real, gap: real) {
    && |m| == |s|
    && forall k :: 0 <= k < |s| ==> m[k] == MoveTo(axis, s[k], Cursor(axis, s, near, gap, k))
  }

  lemma PlacedKeeps(axis: Axis, s: seq<Item>, m: seq<Item>, near: real, gap: real)
    requires Placed(axis, s, m, near, gap)
    ensures SameShapes(axis, s, m)
  {
  }

  ghost predicate SameShapes(axis: Axis, s: seq<Item>, m: seq<Item>) {
    && |m| == |s|
    && forall i :: 0 <= i < |s| ==> Size(axis, m[i]) == Size(axis, s[i]) && m[i].id == s[i].id
  }

  /** The group after spreading: the same nodes at their cursors. */
  lemma SpreadGroup(axis: Axis, s: seq<Item>, near: real, gap: real)
    requires DistinctIds(s) && GoesForward(axis, s, gap)
    ensures var m := MoveAll(axis, s, Targets(axis, s, near, gap, |s|));
      Placed(axis, s, m, near, gap) && StrictlyAscending(axis, m)
  {
    var next := Targets(axis, s, near, gap, |s|);
    var m := MoveAll(axis, s, next);
    forall k | 0 <= k < |s|
      ensures m[k] == MoveTo(axis, s[k], Cursor(axis, s, near, gap, k))
    {
      TargetAt(axis, s, near, gap, |s|, k);
    }
    forall i, j | 0 <= i < j < |s|
      ensures Position(axis, m[i]) < Position(axis, m[j])
    {
      CursorGrows(axis, s, near, gap, i, j);
    }
  }

  lemma {:induction false} SameCursors(axis: Axis, s: seq<Item>, m: seq<Item>, near: real, gap: real, k: nat)
    requires k <= |s| && SameShapes(axis, s, m)
    ensures Cursor(axis, m, near, gap, k) == Cursor(axis, s, near, gap, k)
    ensures Targets(axis, m, near, gap, k) == Targets(axis, s, near, gap, k)
    decreases k
  {
    if k > 0 {
      SameCursors(axis, s, m, near, gap, k - 1);
    }
  }

  lemma {:induction false} SameTotals(axis: Axis, s: seq<Item>, m: seq<Item>)
    requires SameShapes(axis, s, m)
    ensures TotalSize(axis, m) == TotalSize(axis, s)
  {
    if s != [] {
      SameTotals(axis, s[..|s| - 1], m[..|s| - 1]);
    }
  }

  lemma NearIs(axis: Axis, m: seq<Item>, near: real)
    requires m != [] && Position(axis, m[0]) == near
    requires forall k :: 0 <= k < |m| ==> near <= Position(axis, m[k])
    ensures Near(axis, m) == near
  {
  }

  lemma FarIs(axis: Axis, m: seq<Item>, far: real)
    requires m != [] && EndOf(axis, m[|m| - 1]) == far
    requires forall k :: 0 <= k < |m| ==> EndOf(axis, m[k]) <= far
    ensures Far(axis, m) == far
  {
  }

  /** Nodes at their cursors start at the near edge, and none reaches beyond the end of the last. */
  lemma CursorBounds(axis: Axis, s: seq<Item>, near: real, gap: real, k: nat)
    requires GoesForward(axis, s, gap) && k < |s|
    ensures near <= Cursor(axis, s, near, gap, k)
    ensures Cursor(axis, s, near, gap, k) + Size(axis, s[k]) <=
      Cursor(axis, s, near, gap, |s| - 1) + Size(axis, s[|s| - 1])
  {
    if k > 0 {
      CursorGrows(axis, s, near, gap, 0, k);
    }
    if k < |s| - 1 {
      CursorGrows(axis, s, near, gap, k, |s| - 1);
    }
  }

  /** The spread group keeps its edges. */
  lemma SpreadEdges(axis: Axis, s: seq<Item>, m: seq<Item>, near: real, gap: real, far: real)
    requires |s| >= 2 && GoesForward(axis, s, gap) && Placed(axis, s, m, near, gap)
    requires Cursor(axis, s, near, gap, |s| - 1) + Size(axis, s[|s| - 1]) == far
    ensures Near(axis, m) == near && Far(axis, m) == far
  {
    forall k | 0 <= k < |m|
      ensures near <= Position(axis, m[k]) && EndOf(axis, m[k]) <= far
    {
      CursorBounds(axis, s, near, gap, k);
    }
    NearIs(axis, m, near);
    FarIs(axis, m, far);
  }

  lemma GapFrom(axis: Axis, s: seq<Item>, m: seq<Item>)
    requires |s| >= 2 && |m| == |s| && Near(axis, m) == Near(axis, s) && Far(axis, m) == Far(axis, s)
    requires TotalSize(axis, m) == TotalSize(axis, s)
    ensures Gap(axis, m) == Gap(axis, s)
  {
    GapIs(axis, s, Near(axis, s), Far(axis, s), TotalSize(axis, s));
    GapIs(axis, m, Near(axis, s), Far(axis, s), TotalSize(axis, s));
  }

  lemma GapIs(axis: Axis, s: seq<Item>, near: real, far: real, total: real)
    requires |s| >= 2 && near == Near(axis, s) && far == Far(axis, s) && total == TotalSize(axis, s)
    ensures Gap(axis, s) == (far - near - total) / (|s| - 1) as real
  {
  }

  /** The spread group has the edges and the sizes that the group had. */
  lemma SpreadKeeps(axis: Axis, s: seq<Item>, m: seq<Item>, near: real, gap: real, far: real)
    requires |s| >= 2 && GoesForward(axis, s, gap) && Placed(axis, s, m, near, gap)
    requires Cursor(axis, s, near, gap, |s| - 1) + Size(axis, s[|s| - 1]) == far
    ensures Near(axis, m) == near && Far(axis, m) == far && TotalSize(axis, m) == TotalSize(axis, s)
    ensures Targets(axis, m, near, gap, |m|) == Targets(axis, s, near, gap, |s|)
  {
    SpreadEdges(axis, s, m, near, gap, far);
    PlacedKeeps(axis, s, m, near, gap);
    SameTotals(axis, s, m);
    SameCursors(axis, s, m, near, gap, |s|);
  }

  lemma MovedAgain(axis: Axis, ns: seq<Item>, next: map<string, real>)
    ensures MoveAll(axis, MoveAll(axis, ns, next), next) == MoveAll(axis, ns, next)
  {
  }

  lemma OrderForward(ns: seq<Item>, ids: set<string>, axis: Axis, gap: real)
    requires GoesForward(axis, Selected(ns, ids), gap)
    ensures GoesForward(axis, InOrder(ns, ids, axis), gap)
  {
    var selected, s := Selected(ns, ids), InOrder(ns, ids, axis);
    SameMembers(s, selected);
    forall k | 0 <= k < |s|
      ensures Size(axis, s[k]) + gap > 0.0
    {
      assert s[k] in s;
      var i :| 0 <= i < |selected| && selected[i] == s[k];
    }
  }

  /** After distributing, the selected nodes in order are the old order at its cursors. */
  lemma OrderAfter(ns: seq<Item>, ids: set<string>, axis: Axis, near: real, gap: real)
    requires DistinctIds(ns) && GoesForward(axis, InOrder(ns, ids, axis), gap)
    ensures var s := InOrder(ns, ids, axis); var next := Targets(axis, s, near, gap, |s|);
      InOrder(MoveAll(axis, ns, next), ids, axis) == MoveAll(axis, s, next)
  {
    var selected, s := Selected(ns, ids), InOrder(ns, ids, axis);
    var next := Targets(axis, s, near, gap, |s|);
    OrderHolds(ns, ids, axis);
    SpreadGroup(axis, s, near, gap);
    SelectedMoved(ns, ids, axis, next);
    MovedSort(axis, selected, next);
    SortAscends(axis, MoveAll(axis, selected, next));
    OneOrder(axis, Sort(MoveAll(axis, selected, next), ByPosition(axis)), MoveAll(axis, s, next));
  }

  /** When no node is placed at or before the one in front of it, distributing again changes nothing; the gap
      may be negative. */
  lemma DistributeTwice(ns: seq<Item>, ids: set<string>, axis: Axis)
    requires DistinctIds(ns) && |Selected(ns, ids)| >= 3
    requires GoesForward(axis, Selected(ns, ids), Gap(axis, InOrder(ns, ids, axis)))
    ensures Distributed(Distributed(ns, ids, axis), ids, axis) == Distributed(ns, ids, axis)
  {
    var s := InOrder(ns, ids, axis);
    OrderHolds(ns, ids, axis);
    OrderForward(ns, ids, axis, Gap(axis, s));
    SpreadTwice(ns, ids, axis, s, Near(axis, s), Gap(axis, s));
  }

  /** A group already at its cursors is given the same targets. */
  lemma SameTargets(axis: Axis, s: seq<Item>, m: seq<Item>)
    requires |s| >= 2 && GoesForward(axis, s, Gap(axis, s))
    requires Placed(axis, s, m, Near(axis, s), Gap(axis, s))
    ensures Targets(axis, m, Near(axis, m), Gap(axis, m), |m|) == Targets(axis, s, Near(axis, s), Gap(axis, s), |s|)
  {
    LastAtEdge(axis, s);
    SpreadKeeps(axis, s, m, Near(axis, s), Gap(axis, s), Far(axis, s));
    GapFrom(axis, s, m);
  }

  lemma SpreadTwice(ns: seq<Item>, ids: set<string>, axis: Axis, s: seq<Item>, near: real, gap: real)
    requires DistinctIds(ns) && s == InOrder(ns, ids, axis) && |s| >= 3 && DistinctIds(s)
    requires GoesForward(axis, s, gap) && near == Near(axis, s) && gap == Gap(axis, s)
    ensures Distributed(Spread(ns, s, axis), ids, axis) == Spread(ns, s, axis)
  {
    var next := Targets(axis, s, near, gap, |s|);
    var m, spread := MoveAll(axis, s, next), MoveAll(axis, ns, next);
    SpreadGroup(axis, s, near, gap);
    SameTargets(axis, s, m);
    OrderAfter(ns, ids, axis, near, gap);
    MovedAgain(axis, ns, next);
    SpreadIs(spread, ids, axis, m, next);
  }

  lemma SpreadIs(ns: seq<Item>, ids: set<string>, axis: Axis, s: seq<Item>, next: map<string, real>)
    requires s == InOrder(ns, ids, axis) && |s| >= 3
    requires next == Targets(axis, s, Near(axis, s), Gap(axis, s), |s|)
    ensures Distributed(ns, ids, axis) == MoveAll(axis, ns, next)
  {
  }
}
