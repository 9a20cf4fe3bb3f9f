/** Rooms ordered by breadth-first walks over their adjacency. */
module RoomOrder {

  /** `fields` holds the fields whose value converts to a finite number. */
  datatype Room = Room(id: string, title: string, fields: map<string, real>)

  datatype Relation = Relation(sourceId: string, targetId: string)

  type Graph = map<string, set<string>>

  function Ids(objects: seq<Room>): set<string> {
    set o | o in objects :: o.id
  }

  ghost predicate Distinct<T>(s: seq<T>) {
    forall i, j :: 0 <= i < j < |s| ==> s[i] != s[j]
  }

  function IdsInOrder(objects: seq<Room>): seq<string> {
    seq(|objects|, i requires 0 <= i < |objects| => objects[i].id)
  }

  // ---- the graph

  /** Two known rooms that some relation joins, in either direction. */
  ghost predicate Joined(objects: seq<Room>, relations: seq<Relation>, u: string, v: string) {
    && u in Ids(objects) && v in Ids(objects)
    && (Relation(u, v) in relations || Relation(v, u) in relations)
  }

  ghost predicate IsGraph(g: Graph) {
    forall u, v :: u in g && v in g[u] ==> v in g && u in g[v]
  }

  method BuildGraph(objects: seq<Room>, relations: seq<Relation>) returns (g: Graph)
    ensures g.Keys == Ids(objects)
    ensures forall u, v :: u in g ==> (v in g[u] <==> Joined(objects, relations, u, v))
    ensures IsGraph(g)
  {
    g := map id | id in Ids(objects) :: {};
    var i := 0;
    while i < |relations|
      invariant 0 <= i <= |relations|
      invariant g.Keys == Ids(objects)
      invariant forall u, v :: u in g ==> (v in g[u] <==> Joined(objects, relations[..i], u, v))
    {
      var r := relations[i];
      assert relations[..i + 1] == relations[..i] + [r];
      if r.sourceId in g && r.targetId in g {
        g := g[r.sourceId := g[r.sourceId] + {r.targetId}];
        g := g[r.targetId := g[r.targetId] + {r.sourceId}];
      }
      i := i + 1;
    }
    assert relations[..i] == relations;
  }

  // ---- distance

  predicate Adjacent(g: Graph, u: string, v: string) {
    u in g && v in g[u]
  }

  /** The room `v` is at most `n` steps from `start`. */
  ghost predicate Within(g: Graph, start: string, n: nat, v: string) {
    if n == 0 then v == start
    else Within(g, start, n - 1, v) || exists u :: Within(g, start, n - 1, u) && Adjacent(g, u, v)
  }

  lemma {:induction false} WithinMore(g: Graph, start: string, m: nat, n: nat, v: string)
    requires m <= n && Within(g, start, m, v)
    ensures Within(g, start, n, v)
    decreases n - m
  {
    if m < n {
      WithinMore(g, start, m + 1, n, v);
    }
  }

  /** One connected component, nearest rooms first. */
  ghost predicate IsWalk(g: Graph, block: seq<string>) {
    && block != []
    && (forall v :: v in block <==> exists n: nat :: Within(g, block[0], n, v))
    && (forall i, j, n: nat :: 0 <= i <= j < |block| && Within(g, block[0], n, block[j]) ==>
        Within(g, block[0], n, block[i]))
  }

  // ---- the comparison of rooms

  function Degree(g: Graph, id: string): nat {
    if id in g then |g[id]| else 0
  }

  function TitleOf(byId: map<string, Room>, id: string): string {
    if id in byId then byId[id].title else id
  }

  /** Larger degree first, then by title; `collate` stands for the locale's order of titles. */
  predicate Before(byId: map<string, Room>, g: Graph, collate: string -> int, left: string, right: string) {
    Degree(g, left) > Degree(g, right) ||
    (Degree(g, left) == Degree(g, right) && collate(TitleOf(byId, left)) <= collate(TitleOf(byId, right)))
  }

  lemma InsertDistinct<T(!new)>(s: seq<T>, k: nat, x: T)
    requires k <= |s| && Distinct(s) && x !in s
    ensures var t := s[..k] + [x] + s[k..];
      Distinct(t) && forall y :: y in t <==> y == x || y in s
  {
    var t := s[..k] + [x] + s[k..];
    forall y
      ensures y in t <==> y == x || y in s
    {
      assert s == s[..k] + s[k..];
    }
  }

  lemma AppendDistinct<T>(s: seq<T>, t: seq<T>)
    requires Distinct(s) && Distinct(t) && forall x :: x in t ==> x !in s
    ensures Distinct(s + t)
  {
    forall i, j | 0 <= i < j < |s + t|
      ensures (s + t)[i] != (s + t)[j]
    {
      if i < |s| <= j {
        assert (s + t)[i] in s && (s + t)[j] in t;
      }
    }
  }

  lemma {:induction false} DistinctSize<T>(s: seq<T>, bound: set<T>)
    requires Distinct(s) && forall x :: x in s ==> x in bound
    ensures |s| <= |bound|
  {
    if s != [] {
      DistinctSize(s[1..], bound - {s[0]});
    }
  }

  /** Sorts a set of ids; rooms that compare equal may come in any order. */
  method SortIds(byId: map<string, Room>, g: Graph, collate: string -> int, ids: set<string>)
    returns (sorted: seq<string>)
    ensures Distinct(sorted) && (forall id :: id in sorted <==> id in ids)
    ensures forall i, j :: 0 <= i < j < |sorted| ==> Before(byId, g, collate, sorted[i], sorted[j])
    ensures forall i, j :: 0 <= i < j < |sorted| && sorted[i] in g && sorted[j] in g ==>
      && |g[sorted[j]]| <= |g[sorted[i]]|
      && (|g[sorted[i]]| == |g[sorted[j]]| && sorted[i] in byId && sorted[j] in byId ==>
          collate(byId[sorted[i]].title) <= collate(byId[sorted[j]].title))
  {
    sorted := [];
    var rest := ids;
    while rest != {}
      invariant rest <= ids
      invariant Distinct(sorted) && (forall id :: id in sorted <==> id in ids - rest)
      invariant forall i, j :: 0 <= i < j < |sorted| ==> Before(byId, g, collate, sorted[i], sorted[j])
      decreases |rest|
    {
      var id :| id in rest;
      var k := 0;
      while k < |sorted| && Before(byId, g, collate, sorted[k], id)
        invariant 0 <= k <= |sorted|
        invariant forall i :: 0 <= i < k ==> Before(byId, g, collate, sorted[i], id)
      {
        k := k + 1;
      }
      InsertDistinct(sorted, k, id);
      sorted := sorted[..k] + [id] + sorted[k..];
      rest := rest - {id};
    }
  }

  // ---- one walk

  /** The rooms that stand for a list of ids; the empty id stands for none. */
  function RoomsOf(byId: map<string, Room>, ids: seq<string>): seq<Room>
    requires forall id :: id in ids ==> id in byId
  {
    if ids == [] then []
    else
      var rest := RoomsOf(byId, ids[..|ids| - 1]);
      if ids[|ids| - 1] == "" then rest else rest + [byId[ids[|ids| - 1]]]
  }

  ghost predicate Closed(g: Graph, s: set<string>) {
    forall u, v :: u in s && u in g && v in g[u] ==> v in s
  }

  /** Levels never fall along the list, and the last is at most one above the first unexpanded one. */
  ghost predicate Levels(level: seq<nat>, k: nat) {
    && level != [] && k <= |level| && level[0] == 0
    && (forall i, j :: 0 <= i <= j < |level| ==> level[i] <= level[j])
    && (k < |level| ==> level[|level| - 1] <= level[k] + 1)
  }

  ghost predicate AtDistance(g: Graph, start: string, id: string, n: nat) {
    Within(g, start, n, id) && (n > 0 ==> !Within(g, start, n - 1, id))
  }

  ghost predicate Exact(g: Graph, start: string, found: seq<string>, level: seq<nat>) {
    |level| == |found| && forall j :: 0 <= j < |found| ==> AtDistance(g, start, found[j], level[j])
  }

  ghost predicate Expanded(g: Graph, found: seq<string>, k: nat) {
    k <= |found| && forall j, v :: 0 <= j < k && found[j] in g && v in g[found[j]] ==> v in found
  }

  /** A discovery list with the distance of each room; the first `k` rooms are expanded. */
  ghost predicate Frontier(g: Graph, found: seq<string>, level: seq<nat>, k: nat) {
    found != [] && Levels(level, k) && Exact(g, found[0], found, level) && Expanded(g, found, k)
  }

  /** Once every room nearer than `m` is expanded, every room within `m` steps is found. */
  lemma {:induction false} AllFound(g: Graph, found: seq<string>, level: seq<nat>, k: nat, m: nat, v: string)
    requires Frontier(g, found, level, k)
    requires forall j :: k <= j < |found| ==> level[j] >= m
    requires Within(g, found[0], m, v)
    ensures v in found
    decreases m
  {
    if m > 0 {
      if Within(g, found[0], m - 1, v) {
        AllFound(g, found, level, k, m - 1, v);
      } else {
        var u :| Within(g, found[0], m - 1, u) && Adjacent(g, u, v);
        AllFound(g, found, level, k, m - 1, u);
        NearIsExpanded(g, found, level, k, m, u, v);
      }
    }
  }

  /** A room nearer than every unexpanded one has its neighbours in the list. */
  lemma NearIsExpanded(g: Graph, found: seq<string>, level: seq<nat>, k: nat, m: nat, u: string, v: string)
    requires Frontier(g, found, level, k) && m > 0
    requires forall j :: k <= j < |found| ==> level[j] >= m
    requires u in found && Within(g, found[0], m - 1, u) && Adjacent(g, u, v)
    ensures v in found
  {
    var j := PlaceOfNear(g, found[0], found, level, k, m, u);
    assert found[j] == u;
  }

  /** A room nearer than every unexpanded one is expanded. */
  lemma PlaceOfNear(g: Graph, start: string, found: seq<string>, level: seq<nat>, k: nat, m: nat, u: string)
    returns (j: nat)
    requires Exact(g, start, found, level) && m > 0 && u in found && Within(g, start, m - 1, u)
    requires forall i :: k <= i < |found| ==> level[i] >= m
    ensures j < k && j < |found| && found[j] == u
  {
    j :| 0 <= j < |found| && found[j] == u;
    assert AtDistance(g, start, found[j], level[j]);
    NearerThan(g, start, u, level[j], m - 1);
  }

  lemma NearerThan(g: Graph, start: string, u: string, n: nat, m: nat)
    requires AtDistance(g, start, u, n) && Within(g, start, m, u)
    ensures n <= m
  {
    if n > m {
      WithinMore(g, start, m, n - 1, u);
    }
  }

  /** When every found room is expanded, the list is a whole component in order of distance. */
  lemma FrontierDone(g: Graph, found: seq<string>, level: seq<nat>)
    requires Frontier(g, found, level, |found|)
    ensures IsWalk(g, found)
  {
    forall v
      ensures v in found <==> exists n: nat :: Within(g, found[0], n, v)
    {
      if v in found {
        var j :| 0 <= j < |found| && found[j] == v;
        assert AtDistance(g, found[0], found[j], level[j]);
        var n := level[j];
        assert Within(g, found[0], n, v);
      }
      forall n: nat | Within(g, found[0], n, v)
        ensures v in found
      {
        AllFound(g, found, level, |found|, n, v);
      }
    }
    forall i, j, n: nat | 0 <= i <= j < |found| && Within(g, found[0], n, found[j])
      ensures Within(g, found[0], n, found[i])
    {
      NoFarther(g, found[0], found[i], level[i], found[j], level[j], n);
    }
  }

  lemma NoFarther(g: Graph, start: string, u: string, near: nat, v: string, far: nat, n: nat)
    requires AtDistance(g, start, u, near) && AtDistance(g, start, v, far) && near <= far && Within(g, start, n, v)
    ensures Within(g, start, n, u)
  {
    NearerThan(g, start, v, far, n);
    WithinMore(g, start, near, n, u);
  }

  function Repeat(d: nat, n: nat): seq<nat> {
    seq(n, _ => d)
  }

  /** The rooms in `more` are the neighbours of the room at `k` that are not in the list yet. */
  ghost predicate Unseen(g: Graph, found: seq<string>, k: nat, more: seq<string>) {
    && k < |found| && found[k] in g
    && (forall v :: v in more ==> v in g[found[k]] && v !in found)
    && (forall v :: v in g[found[k]] ==> v in found || v in more)
  }

  ghost predicate AllAt(g: Graph, start: string, more: seq<string>, d: nat) {
    forall v :: v in more ==> AtDistance(g, start, v, d)
  }

  /** The unseen neighbours of the room at `k` are exactly one step further away. */
  lemma NeighboursNext(g: Graph, start: string, found: seq<string>, level: seq<nat>, k: nat, more: seq<string>, d: nat)
    requires Frontier(g, found, level, k) && Unseen(g, found, k, more)
    requires start == found[0] && d == level[k] + 1
    ensures AllAt(g, start, more, d)
  {
    assert AtDistance(g, start, found[k], level[k]);
    forall v | v in more
      ensures AtDistance(g, start, v, d)
    {
      assert Adjacent(g, found[k], v);
      if Within(g, start, d - 1, v) {
        AllFound(g, found, level, k, d - 1, v);
      }
    }
  }

  lemma LevelsStep(level: seq<nat>, k: nat, n: nat)
    requires Levels(level, k) && k < |level|
    ensures Levels(level + Repeat(level[k] + 1, n), k + 1)
  {
  }

  lemma ExactStep(g: Graph, start: string, found: seq<string>, level: seq<nat>, more: seq<string>, d: nat)
    requires Exact(g, start, found, level) && AllAt(g, start, more, d)
    ensures Exact(g, start, found + more, level + Repeat(d, |more|))
  {
    forall j | 0 <= j < |found + more|
      ensures AtDistance(g, start, (found + more)[j], (level + Repeat(d, |more|))[j])
    {
      if j >= |found| {
        assert (found + more)[j] in more;
      }
    }
  }

  lemma ExpandedStep(g: Graph, found: seq<string>, k: nat, more: seq<string>)
    requires Expanded(g, found, k) && Unseen(g, found, k, more)
    ensures Expanded(g, found + more, k + 1)
  {
  }

  /** Expanding the room at `k`: its unseen neighbours go to the end of the list. */
  lemma FrontierStep(g: Graph, found: seq<string>, level: seq<nat>, k: nat, more: seq<string>)
    requires Frontier(g, found, level, k) && Unseen(g, found, k, more)
    ensures Frontier(g, found + more, level + Repeat(level[k] + 1, |more|), k + 1)
  {
    var start, d := found[0], level[k] + 1;
    NeighboursNext(g, start, found, level, k, more, d);
    ExactStep(g, start, found, level, more, d);
    LevelsStep(level, k, |more|);
    ExpandedStep(g, found, k, more);
    FrontierFrom(g, start, found + more, level + Repeat(d, |more|), k + 1);
  }

  lemma FrontierFrom(g: Graph, start: string, found: seq<string>, level: seq<nat>, k: nat)
    requires found != [] && found[0] == start
    requires Levels(level, k) && Exact(g, start, found, level) && Expanded(g, found, k)
    ensures Frontier(g, found, level, k)
  {
  }

  // ---- the order among rooms at one distance

  /** The room at `j` is found from the room at `p`: the first in the list that it is adjacent to. */
  ghost predicate Finds(g: Graph, found: seq<string>, p: nat, j: nat) {
    && p < j < |found| && Adjacent(g, found[p], found[j])
    && forall q :: 0 <= q < p ==> !Adjacent(g, found[q], found[j])
  }

  ghost predicate HasFinder(g: Graph, found: seq<string>, j: nat) {
    exists p: nat :: Finds(g, found, p, j)
  }

  /** Rooms come in the order of the rooms they are found from, and those found from one room come sorted. */
  ghost predicate InFindingOrder(byId: map<string, Room>, g: Graph, collate: string -> int, found: seq<string>) {
    && (forall j :: 0 < j < |found| ==> HasFinder(g, found, j))
    && (forall i: nat, j: nat, p: nat, q: nat :: 0 < i < j && Finds(g, found, p, i) && Finds(g, found, q, j) ==>
        p <= q && (p == q ==> Before(byId, g, collate, found[i], found[j])))
  }

  /** The same with the finders written down, all among the first `k` rooms. */
  ghost predicate FoundFrom(byId: map<string, Room>, g: Graph, collate: string -> int, found: seq<string>,
                            finder: seq<nat>, k: nat) {
    && |finder| == |found|
    && (forall j :: 0 < j < |found| ==> finder[j] < k && Finds(g, found, finder[j], j))
    && (forall i, j :: 0 < i < j < |found| ==>
        finder[i] <= finder[j] && (finder[i] == finder[j] ==> Before(byId, g, collate, found[i], found[j])))
  }

  lemma FindsLater(g: Graph, found: seq<string>, more: seq<string>, p: nat, j: nat)
    requires Finds(g, found, p, j)
    ensures Finds(g, found + more, p, j)
  {
    forall q | 0 <= q < p
      ensures !Adjacent(g, (found + more)[q], (found + more)[j])
    {
      assert !Adjacent(g, found[q], found[j]);
    }
  }

  /** A room that is not in the list yet is adjacent to no room that is expanded. */
  lemma FindsNew(g: Graph, found: seq<string>, k: nat, more: seq<string>, j: nat)
    requires Expanded(g, found, k) && k < |found| && found[k] in g
    requires j < |more| && more[j] in g[found[k]] && more[j] !in found
    ensures Finds(g, found + more, k, |found| + j)
  {
    var all := found + more;
    assert all[k] == found[k] && all[|found| + j] == more[j];
    forall q | 0 <= q < k
      ensures !Adjacent(g, all[q], more[j])
    {
      assert all[q] == found[q];
    }
  }

  lemma FoundFromStep(byId: map<string, Room>, g: Graph, collate: string -> int, found: seq<string>, finder: seq<nat>,
                      k: nat, more: seq<string>)
    requires FoundFrom(byId, g, collate, found, finder, k) && Expanded(g, found, k) && Unseen(g, found, k, more)
    requires forall i, j :: 0 <= i < j < |more| ==> Before(byId, g, collate, more[i], more[j])
    ensures FoundFrom(byId, g, collate, found + more, finder + Repeat(k, |more|), k + 1)
  {
    var all, finders := found + more, finder + Repeat(k, |more|);
    forall j | 0 < j < |all|
      ensures finders[j] < k + 1 && Finds(g, all, finders[j], j)
    {
      if j < |found| {
        FindsLater(g, found, more, finder[j], j);
      } else {
        assert more[j - |found|] in more;
        FindsNew(g, found, k, more, j - |found|);
      }
    }
  }

  lemma FindersOrder(byId: map<string, Room>, g: Graph, collate: string -> int, found: seq<string>, finder: seq<nat>,
                     k: nat)
    requires FoundFrom(byId, g, collate, found, finder, k)
    ensures InFindingOrder(byId, g, collate, found)
  {
    forall i: nat, p: nat | 0 < i && Finds(g, found, p, i)
      ensures p == finder[i]
    {
      assert Finds(g, found, finder[i], i);
    }
    forall j | 0 < j < |found|
      ensures HasFinder(g, found, j)
    {
      assert Finds(g, found, finder[j], j);
    }
  }

  /** The rooms found so far were unvisited, are listed once, and are no longer left. */
  ghost predicate Tracks(block: seq<string>, start: string, unvisited: set<string>, left: set<string>) {
    && Distinct(block) && block != [] && block[0] == start
    && (forall id :: id in block ==> id in unvisited)
    && (forall id :: id in left <==> id in unvisited && id !in block)
  }

  lemma TracksStep(block: seq<string>, start: string, unvisited: set<string>, left: set<string>, more: seq<string>)
    requires Tracks(block, start, unvisited, left) && Distinct(more) && forall v :: v in more ==> v in left
    ensures Tracks(block + more, start, unvisited, left - set v | v in more)
  {
    AppendDistinct(block, more);
  }

  /** A neighbour that is neither found nor left would belong to an earlier walk, which is closed. */
  lemma NeighboursCovered(g: Graph, block: seq<string>, start: string, unvisited: set<string>, left: set<string>,
                          k: nat, id: string, more: seq<string>)
    requires IsGraph(g) && unvisited <= g.Keys && Closed(g, g.Keys - unvisited)
    requires Tracks(block, start, unvisited, left) && k < |block| && id == block[k] && id in g
    requires forall v :: v in more <==> v in g[id] * left
    ensures Unseen(g, block, k, more)
  {
    forall v | v in g[id] && v !in block
      ensures v in left
    {
      assert v in g && id in g[v] && id in unvisited;
    }
  }

  /** After a walk, the visited rooms are again closed under adjacency. */
  lemma WalkClosed(g: Graph, block: seq<string>, start: string, unvisited: set<string>, left: set<string>)
    requires Tracks(block, start, unvisited, left) && Closed(g, g.Keys - unvisited) && IsGraph(g)
    requires Expanded(g, block, |block|)
    ensures Closed(g, g.Keys - left)
  {
    forall u, v | u in g.Keys - left && u in g && v in g[u]
      ensures v in g.Keys - left
    {
      if u in block {
        var j :| 0 <= j < |block| && block[j] == u;
        assert v in block;
      } else {
        assert u in g.Keys - unvisited;
      }
    }
  }

  /** The queue holds what is found from place `k` on, and the rooms before it are listed. */
  ghost predicate Queued(byId: map<string, Room>, queue: seq<string>, rooms: seq<Room>, block: seq<string>, k: nat) {
    && k <= |block| && queue == block[k..]
    && (forall id :: id in block[..k] ==> id in byId)
    && rooms == RoomsOf(byId, block[..k])
  }

  lemma QueuedSkip(byId: map<string, Room>, queue: seq<string>, rooms: seq<Room>, block: seq<string>, k: nat)
    requires Queued(byId, queue, rooms, block, k) && queue != [] && queue[0] in byId && queue[0] == ""
    ensures Queued(byId, queue[1..], rooms, block, k + 1)
  {
    assert block[..k + 1][..k] == block[..k];
  }

  lemma QueuedNext(byId: map<string, Room>, queue: seq<string>, rooms: seq<Room>, block: seq<string>, k: nat,
                   more: seq<string>)
    requires Queued(byId, queue, rooms, block, k) && queue != [] && queue[0] in byId && queue[0] != ""
    ensures Queued(byId, queue[1..] + more, rooms + [byId[queue[0]]], block + more, k + 1)
  {
    assert (block + more)[..k + 1] == block[..k + 1];
    assert block[..k + 1][..k] == block[..k];
    assert (block + more)[k + 1..] == queue[1..] + more;
  }

  /** One walk from `start` over the rooms not visited yet. */
  method Walk(byId: map<string, Room>, g: Graph, collate: string -> int, start: string, unvisited: set<string>)
    returns (rooms: seq<Room>, left: set<string>, ghost block: seq<string>)
    requires IsGraph(g) && byId.Keys == g.Keys
    requires start in unvisited && unvisited <= g.Keys
    ensures Tracks(block, start, unvisited, left)
    ensures rooms == RoomsOf(byId, block)
    ensures "" !in g.Keys && Closed(g, g.Keys - unvisited) ==>
      IsWalk(g, block) && InFindingOrder(byId, g, collate, block) && Closed(g, g.Keys - left)
  {
    ghost var whole := "" !in g.Keys && Closed(g, g.Keys - unvisited);
    var queue := [start];
    left := unvisited - {start};
    rooms := [];
    block := [start];
    ghost var level: seq<nat>, finder: seq<nat> := [0], [0];
    ghost var k := 0;
    while queue != []
      invariant Queued(byId, queue, rooms, block, k)
      invariant Tracks(block, start, unvisited, left)
      invariant whole ==> Frontier(g, block, level, k) && FoundFrom(byId, g, collate, block, finder, k)
      decreases |unvisited| - k
    {
      DistinctSize(block, unvisited);
      ghost var before, listed := queue, rooms;
      var id := queue[0];
      queue := queue[1..];
      if id == "" {
        QueuedSkip(byId, before, listed, block, k);
        k := k + 1;
        continue;
      }
      rooms := rooms + [byId[id]];
      var neighbors := SortIds(byId, g, collate, g[id] * left);
      if whole {
        NeighboursCovered(g, block, start, unvisited, left, k, id, neighbors);
        FrontierStep(g, block, level, k, neighbors);
        FoundFromStep(byId, g, collate, block, finder, k, neighbors);
        level, finder := level + Repeat(level[k] + 1, |neighbors|), finder + Repeat(k, |neighbors|);
      }
      TracksStep(block, start, unvisited, left, neighbors);
      QueuedNext(byId, before, listed, block, k, neighbors);
      block := block + neighbors;
      queue := queue + neighbors;
      left := left - set v | v in neighbors;
      k := k + 1;
    }
    assert block[..k] == block;
    if whole {
      FrontierDone(g, block, level);
      FindersOrder(byId, g, collate, block, finder, k);
      WalkClosed(g, block, start, unvisited, left);
    }
  }

  // ---- all walks, one after the other

  /** Rooms by id; of several rooms with one id the last is kept. */
  function ById(objects: seq<Room>): (m: map<string, Room>)
    ensures m.Keys == Ids(objects)
    ensures forall id :: id in m ==> m[id].id == id && m[id] in objects
  {
    if objects == [] then map[]
    else
      var last := objects[|objects| - 1];
      assert objects == objects[..|objects| - 1] + [last];
      ById(objects[..|objects| - 1])[last.id := last]
  }

  function Flatten(blocks: seq<seq<string>>): seq<string> {
    if blocks == [] then [] else Flatten(blocks[..|blocks| - 1]) + blocks[|blocks| - 1]
  }

  lemma {:induction false} RoomsOfAppend(byId: map<string, Room>, a: seq<string>, b: seq<string>)
    requires forall id :: id in a + b ==> id in byId
    ensures (forall id :: id in a ==> id in byId) && (forall id :: id in b ==> id in byId)
    ensures RoomsOf(byId, a + b) == RoomsOf(byId, a) + RoomsOf(byId, b)
  {
    assert (forall id :: id in a ==> id in a + b) && (forall id :: id in b ==> id in a + b);
    if b == [] {
      assert a + b == a;
    } else {
      var n := |b| - 1;
      assert (a + b)[..|a| + n] == a + b[..n];
      RoomsOfAppend(byId, a, b[..n]);
    }
  }

  /** Every block is a component in the order in which its rooms are found, and starts at a room that no later
      room precedes. */
  ghost predicate InBlocks(byId: map<string, Room>, g: Graph, collate: string -> int, blocks: seq<seq<string>>) {
    && (forall i :: 0 <= i < |blocks| ==> IsWalk(g, blocks[i]) && InFindingOrder(byId, g, collate, blocks[i]))
    && (forall i, j, id :: 0 <= i <= j < |blocks| && id in blocks[j] ==>
        blocks[i] != [] && Before(byId, g, collate, blocks[i][0], id))
  }

  ghost predicate Leads(byId: map<string, Room>, g: Graph, collate: string -> int,
                        blocks: seq<seq<string>>, unvisited: set<string>) {
    forall i, id :: 0 <= i < |blocks| && id in unvisited ==>
      blocks[i] != [] && Before(byId, g, collate, blocks[i][0], id)
  }

  lemma InBlocksStep(byId: map<string, Room>, g: Graph, collate: string -> int,
                     blocks: seq<seq<string>>, unvisited: set<string>, block: seq<string>)
    requires InBlocks(byId, g, collate, blocks) && Leads(byId, g, collate, blocks, unvisited)
    requires IsWalk(g, block) && InFindingOrder(byId, g, collate, block)
    requires forall id :: id in block ==> id in unvisited
    requires forall id :: id in unvisited ==> Before(byId, g, collate, block[0], id)
    ensures InBlocks(byId, g, collate, blocks + [block])
    ensures Leads(byId, g, collate, blocks + [block], unvisited - set id | id in block)
  {
  }

  /** What the outer loop has established when `unvisited` is left. */
  ghost predicate Visited(byId: map<string, Room>, g: Graph, collate: string -> int,
                          blocks: seq<seq<string>>, unvisited: set<string>) {
    var ids := Flatten(blocks);
    && Distinct(ids)
    && (forall id :: id in unvisited <==> id in g && id !in ids)
    && (forall id :: id in ids ==> id in g)
    && ("" !in g ==>
        && Closed(g, g.Keys - unvisited)
        && InBlocks(byId, g, collate, blocks) && Leads(byId, g, collate, blocks, unvisited))
  }

  lemma VisitedStep(byId: map<string, Room>, g: Graph, collate: string -> int, blocks: seq<seq<string>>,
                    unvisited: set<string>, start: string, block: seq<string>, left: set<string>)
    requires Visited(byId, g, collate, blocks, unvisited) && Tracks(block, start, unvisited, left)
    requires "" !in g ==> IsWalk(g, block) && InFindingOrder(byId, g, collate, block) && Closed(g, g.Keys - left)
    requires forall id :: id in unvisited ==> Before(byId, g, collate, start, id)
    ensures Visited(byId, g, collate, blocks + [block], left)
  {
    var more := blocks + [block];
    assert more[..|blocks|] == blocks;
    assert Flatten(more) == Flatten(blocks) + block;
    AppendDistinct(Flatten(blocks), block);
    if "" !in g {
      InBlocksStep(byId, g, collate, blocks, unvisited, block);
      assert left == unvisited - set id | id in block;
    }
  }

  /** One turn of the outer loop: picks the first room in the order and walks from it. */
  method VisitNext(byId: map<string, Room>, g: Graph, collate: string -> int,
                   ghost blocks: seq<seq<string>>, unvisited: set<string>)
    returns (rooms: seq<Room>, left: set<string>, ghost block: seq<string>)
    requires IsGraph(g) && byId.Keys == g.Keys && unvisited != {}
    requires Visited(byId, g, collate, blocks, unvisited)
    ensures block == [] ==> "" in g && rooms == [] && left == unvisited
    ensures block != [] ==> Visited(byId, g, collate, blocks + [block], left) && left < unvisited
    ensures (forall id :: id in block ==> id in byId) && rooms == RoomsOf(byId, block)
  {
    var candidates := SortIds(byId, g, collate, unvisited);
    assert exists id :: id in unvisited;
    var start := candidates[0];
    if start == "" {
      return [], unvisited, [];
    }
    rooms, left, block := Walk(byId, g, collate, start, unvisited);
    VisitedStep(byId, g, collate, blocks, unvisited, start, block, left);
    assert start in block && left <= unvisited - {start};
  }

  method VisitAll(byId: map<string, Room>, g: Graph, collate: string -> int)
    returns (ordered: seq<Room>, ghost blocks: seq<seq<string>>, ghost left: set<string>)
    requires IsGraph(g) && byId.Keys == g.Keys
    ensures forall id :: id in Flatten(blocks) ==> id in byId
    ensures ordered == RoomsOf(byId, Flatten(blocks))
    ensures Visited(byId, g, collate, blocks, left) && ("" !in g ==> left == {})
  {
    var unvisited := g.Keys;
    ordered := [];
    blocks := [];
    while unvisited != {}
      invariant Visited(byId, g, collate, blocks, unvisited)
      invariant forall id :: id in Flatten(blocks) ==> id in byId
      invariant ordered == RoomsOf(byId, Flatten(blocks))
      decreases unvisited
    {
      var rooms, rest;
      ghost var block;
      rooms, rest, block := VisitNext(byId, g, collate, blocks, unvisited);
      if rest == unvisited {
        break;
      }
      RoomsOfAppend(byId, Flatten(blocks), block);
      assert (blocks + [block])[..|blocks|] == blocks;
      ordered := ordered + rooms;
      blocks := blocks + [block];
      unvisited := rest;
    }
    left := unvisited;
  }

  // ---- the order, told by neighbours and titles alone

  /** The room is the last one given with its id. */
  ghost predicate LastGiven(objects: seq<Room>, o: Room) {
    exists k :: LastAt(objects, o, k)
  }

  ghost predicate LastAt(objects: seq<Room>, o: Room, k: int) {
    0 <= k < |objects| && objects[k] == o && forall j :: k < j < |objects| ==> objects[j].id != o.id
  }

  lemma LastAtLonger(earlier: seq<Room>, last: Room, o: Room)
    requires LastGiven(earlier, o) && last.id != o.id
    ensures LastGiven(earlier + [last], o)
  {
    var k :| LastAt(earlier, o, k);
    assert LastAt(earlier + [last], o, k);
  }

  lemma {:induction false} ByIdIsLast(objects: seq<Room>, id: string)
    requires id in Ids(objects)
    ensures LastGiven(objects, ById(objects)[id])
  {
    var n := |objects| - 1;
    var earlier, last := objects[..n], objects[n];
    assert objects == earlier + [last];
    if last.id == id {
      assert LastAt(objects, last, n);
    } else {
      NextId(earlier, last);
      ByIdIsLast(earlier, id);
      LastAtLonger(earlier, last, ById(earlier)[id]);
    }
  }

  lemma OneLast(objects: seq<Room>, o: Room, p: Room)
    requires LastGiven(objects, o) && LastGiven(objects, p) && o.id == p.id
    ensures o == p
  {
    var k :| LastAt(objects, o, k);
    var m :| LastAt(objects, p, m);
    assert k == m;
  }

  lemma OnlyLast(objects: seq<Room>, o: Room)
    requires LastGiven(objects, o) && o.id in Ids(objects)
    ensures ById(objects)[o.id] == o
  {
    ByIdIsLast(objects, o.id);
    OneLast(objects, o, ById(objects)[o.id]);
  }

  /** The left room has more neighbours than the right one, or as many and a title that comes first; the titles
      are those that the rooms are given with. */
  ghost predicate Outranks(objects: seq<Room>, g: Graph, collate: string -> int, left: string, right: string) {
    && left in g && right in g && |g[right]| <= |g[left]|
    && (|g[left]| == |g[right]| ==> TitlesInOrder(objects, collate, left, right))
  }

  ghost predicate TitlesInOrder(objects: seq<Room>, collate: string -> int, left: string, right: string) {
    forall a, b :: LastGiven(objects, a) && LastGiven(objects, b) && a.id == left && b.id == right ==>
      collate(a.title) <= collate(b.title)
  }

  lemma BeforeTells(objects: seq<Room>, g: Graph, collate: string -> int, left: string, right: string)
    requires g.Keys == Ids(objects) && left in g && right in g && Before(ById(objects), g, collate, left, right)
    ensures Outranks(objects, g, collate, left, right)
  {
    forall a, b | LastGiven(objects, a) && LastGiven(objects, b) && a.id == left && b.id == right &&
                  |g[left]| == |g[right]|
      ensures collate(a.title) <= collate(b.title)
    {
      OnlyLast(objects, a);
      OnlyLast(objects, b);
    }
  }

  /** Every block starts at a room that outranks all rooms of its own and of later blocks. */
  ghost predicate StartsFirst(objects: seq<Room>, g: Graph, collate: string -> int, blocks: seq<seq<string>>) {
    forall i, j, id :: 0 <= i <= j < |blocks| && id in blocks[j] ==>
      blocks[i] != [] && Outranks(objects, g, collate, blocks[i][0], id)
  }

  /** Of two neighbouring rooms found from one room the first outranks the second. */
  ghost predicate FoundSorted(objects: seq<Room>, g: Graph, collate: string -> int, block: seq<string>) {
    forall p: nat, k: nat :: 0 < k && Finds(g, block, p, k) && Finds(g, block, p, k + 1) ==>
      Outranks(objects, g, collate, block[k], block[k + 1])
  }

  lemma {:induction false} InFlatten(blocks: seq<seq<string>>, i: nat, id: string)
    requires i < |blocks| && id in blocks[i]
    ensures id in Flatten(blocks)
  {
    if i < |blocks| - 1 {
      InFlatten(blocks[..|blocks| - 1], i, id);
    }
  }

  lemma StartsTold(objects: seq<Room>, g: Graph, collate: string -> int, blocks: seq<seq<string>>)
    requires g.Keys == Ids(objects) && InBlocks(ById(objects), g, collate, blocks)
    requires forall id :: id in Flatten(blocks) ==> id in g
    ensures StartsFirst(objects, g, collate, blocks)
  {
    forall i, j, id | 0 <= i <= j < |blocks| && id in blocks[j]
      ensures blocks[i] != [] && Outranks(objects, g, collate, blocks[i][0], id)
    {
      assert Before(ById(objects), g, collate, blocks[i][0], id);
      InFlatten(blocks, j, id);
      InFlatten(blocks, i, blocks[i][0]);
      BeforeTells(objects, g, collate, blocks[i][0], id);
    }
  }

  lemma FoundTold(objects: seq<Room>, g: Graph, collate: string -> int, block: seq<string>)
    requires g.Keys == Ids(objects) && InFindingOrder(ById(objects), g, collate, block)
    requires forall id :: id in block ==> id in g
    ensures FoundSorted(objects, g, collate, block)
  {
    forall p: nat, k: nat | 0 < k && Finds(g, block, p, k) && Finds(g, block, p, k + 1)
      ensures Outranks(objects, g, collate, block[k], block[k + 1])
    {
      assert block[k] in block && block[k + 1] in block;
      BeforeTells(objects, g, collate, block[k], block[k + 1]);
    }
  }

  /** The rooms that stand for ids are these, one for each, and each is the last one given with its id. */
  lemma {:induction false} RoomsStand(objects: seq<Room>, ids: seq<string>)
    requires forall id :: id in ids ==> id in Ids(objects) && id != ""
    ensures IdsInOrder(RoomsOf(ById(objects), ids)) == ids
    ensures forall o :: o in RoomsOf(ById(objects), ids) ==> LastGiven(objects, o)
  {
    if ids != [] {
      var n := |ids| - 1;
      assert forall id :: id in ids[..n] ==> id in ids;
      RoomsStand(objects, ids[..n]);
      ByIdIsLast(objects, ids[n]);
      assert ids == ids[..n] + [ids[n]];
    }
  }

  lemma OrderTold(objects: seq<Room>, g: Graph, collate: string -> int, blocks: seq<seq<string>>)
    requires g.Keys == Ids(objects) && InBlocks(ById(objects), g, collate, blocks) && "" !in g
    requires forall id :: id in Flatten(blocks) ==> id in g
    ensures StartsFirst(objects, g, collate, blocks)
    ensures forall i :: 0 <= i < |blocks| ==> FoundSorted(objects, g, collate, blocks[i])
    ensures var ordered := RoomsOf(ById(objects), Flatten(blocks));
      IdsInOrder(ordered) == Flatten(blocks) && forall o :: o in ordered ==> LastGiven(objects, o)
  {
    StartsTold(objects, g, collate, blocks);
    forall i | 0 <= i < |blocks|
      ensures FoundSorted(objects, g, collate, blocks[i])
    {
      forall id | id in blocks[i]
        ensures id in g
      {
        InFlatten(blocks, i, id);
      }
      FoundTold(objects, g, collate, blocks[i]);
    }
    RoomsStand(objects, Flatten(blocks));
  }

  method OrderRooms(objects: seq<Room>, relations: seq<Relation>, collate: string -> int)
    returns (ordered: seq<Room>, ghost g: Graph, ghost blocks: seq<seq<string>>)
    ensures g.Keys == Ids(objects)
    ensures forall u, v :: u in g ==> (v in g[u] <==> Joined(objects, relations, u, v))
    ensures multiset(ordered) == multiset(objects) <==> Distinct(IdsInOrder(objects)) && "" !in Ids(objects)
    ensures "" !in Ids(objects) ==>
      && (forall id :: id in Flatten(blocks) <==> id in Ids(objects))
      && Distinct(Flatten(blocks))
      && ordered == RoomsOf(ById(objects), Flatten(blocks))
      && InBlocks(ById(objects), g, collate, blocks)
    ensures "" !in Ids(objects) ==>
      && IdsInOrder(ordered) == Flatten(blocks) && (forall o :: o in ordered ==> LastGiven(objects, o))
      && StartsFirst(objects, g, collate, blocks)
      && forall i :: 0 <= i < |blocks| ==> FoundSorted(objects, g, collate, blocks[i])
  {
    var byId := ById(objects);
    var graph := BuildGraph(objects, relations);
    g := graph;
    ghost var left;
    ordered, blocks, left := VisitAll(byId, graph, collate);
    PermutationWhen(objects, Flatten(blocks));
    if "" !in Ids(objects) {
      OrderTold(objects, graph, collate, blocks);
    }
  }

  // ---- when the order is a permutation

  lemma {:induction false} RoomsOfDistinct(byId: map<string, Room>, ids: seq<string>)
    requires forall id :: id in ids ==> id in byId && byId[id].id == id
    requires Distinct(ids)
    ensures Distinct(RoomsOf(byId, ids))
    ensures forall r :: r in RoomsOf(byId, ids) <==> r.id in ids && r.id != "" && byId[r.id] == r
  {
    if ids != [] {
      var n := |ids| - 1;
      RoomsOfDistinct(byId, ids[..n]);
      assert ids == ids[..n] + [ids[n]];
    }
  }

  lemma {:induction false} DistinctCount<T>(s: seq<T>, x: T)
    requires Distinct(s)
    ensures multiset(s)[x] == if x in s then 1 else 0
  {
    if s != [] {
      var n := |s| - 1;
      assert s == s[..n] + [s[n]];
      DistinctCount(s[..n], x);
    }
  }

  /** Ids listed twice leave more rooms than ids. */
  lemma {:induction false} FewerIds(objects: seq<Room>)
    ensures |Ids(objects)| <= |objects|
    ensures |Ids(objects)| == |objects| ==> Distinct(IdsInOrder(objects))
  {
    if objects != [] {
      var n := |objects| - 1;
      var earlier, last := objects[..n], objects[n];
      assert objects == earlier + [last];
      FewerIds(earlier);
      NextId(earlier, last);
      if last.id !in Ids(earlier) && |Ids(objects)| == |objects| {
        AppendDistinct(IdsInOrder(earlier), [last.id]);
      }
    }
  }

  lemma NextId(earlier: seq<Room>, last: Room)
    ensures Ids(earlier + [last]) == Ids(earlier) + {last.id}
    ensures |Ids(earlier + [last])| == |Ids(earlier)| + if last.id in Ids(earlier) then 0 else 1
    ensures IdsInOrder(earlier + [last]) == IdsInOrder(earlier) + [last.id]
    ensures forall id :: id in IdsInOrder(earlier) ==> id in Ids(earlier)
  {
    var objects := earlier + [last];
    assert forall o :: o in objects <==> o in earlier || o == last;
    assert Ids(objects) == Ids(earlier) + {last.id};
    if last.id in Ids(earlier) {
      assert Ids(objects) == Ids(earlier);
    }
  }

  lemma PermutationTo(objects: seq<Room>, ids: seq<string>, rooms: seq<Room>)
    requires Distinct(ids) && (forall id :: id in ids <==> id in Ids(objects)) && "" !in ids
    requires rooms == RoomsOf(ById(objects), ids) && Distinct(IdsInOrder(objects))
    ensures multiset(rooms) == multiset(objects)
  {
    RoomsOfDistinct(ById(objects), ids);
    DistinctRooms(objects);
    forall r
      ensures multiset(rooms)[r] == multiset(objects)[r]
    {
      DistinctCount(rooms, r);
      DistinctCount(objects, r);
    }
  }

  lemma PermutationFrom(objects: seq<Room>, ids: seq<string>, rooms: seq<Room>)
    requires Distinct(ids) && forall id :: id in ids ==> id in Ids(objects)
    requires rooms == RoomsOf(ById(objects), ids) && multiset(rooms) == multiset(objects)
    ensures Distinct(IdsInOrder(objects)) && "" !in Ids(objects)
  {
    RoomsOfDistinct(ById(objects), ids);
    forall o | o in objects
      ensures o in rooms
    {
      assert o in multiset(rooms);
    }
    assert |rooms| == |multiset(rooms)| == |multiset(objects)| == |objects|;
    RoomsOfLength(ById(objects), ids);
    DistinctSize(ids, Ids(objects));
    FewerIds(objects);
  }

  /** The rooms of a duplicate-free list that covers all non-empty ids. */
  lemma PermutationWhen(objects: seq<Room>, ids: seq<string>)
    requires Distinct(ids) && forall id :: id in ids ==> id in Ids(objects)
    requires "" !in Ids(objects) ==> forall id :: id in Ids(objects) ==> id in ids
    ensures multiset(RoomsOf(ById(objects), ids)) == multiset(objects) <==>
      Distinct(IdsInOrder(objects)) && "" !in Ids(objects)
  {
    var rooms := RoomsOf(ById(objects), ids);
    if Distinct(IdsInOrder(objects)) && "" !in Ids(objects) {
      PermutationTo(objects, ids, rooms);
    }
    if multiset(rooms) == multiset(objects) {
      PermutationFrom(objects, ids, rooms);
    }
  }

  lemma {:induction false} RoomsOfLength(byId: map<string, Room>, ids: seq<string>)
    requires forall id :: id in ids ==> id in byId
    ensures |RoomsOf(byId, ids)| <= |ids|
  {
    if ids != [] {
      RoomsOfLength(byId, ids[..|ids| - 1]);
    }
  }

  /** With distinct ids, rooms are distinct and each is the room of its id. */
  lemma DistinctRooms(objects: seq<Room>)
    requires Distinct(IdsInOrder(objects))
    ensures Distinct(objects)
    ensures forall o :: o in objects ==> ById(objects)[o.id] == o
  {
    forall i, j | 0 <= i < j < |objects|
      ensures objects[i] != objects[j]
    {
      assert IdsInOrder(objects)[i] != IdsInOrder(objects)[j];
    }
    forall o | o in objects
      ensures ById(objects)[o.id] == o
    {
      RoomById(objects, o, ById(objects)[o.id]);
    }
  }

  lemma RoomById(objects: seq<Room>, o: Room, p: Room)
    requires Distinct(IdsInOrder(objects)) && o in objects && p in objects && o.id == p.id
    ensures o == p
  {
    var i :| 0 <= i < |objects| && objects[i] == o;
    var j :| 0 <= j < |objects| && objects[j] == p;
    assert IdsInOrder(objects)[i] == IdsInOrder(objects)[j];
  }
}
