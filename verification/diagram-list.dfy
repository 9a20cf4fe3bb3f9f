/** The relation list of a diagram panel: connections shown early, relations removed locally, reloads merged. */
module DiagramList {
  import opened Options
  import opened DiagramRelations
  import opened DiagramLoad

  // ---- the updates of the list

  function OptimisticId(sourceId: string, targetId: string, code: string): string {
    "optimistic-rel:" + Key(Relation("", code, sourceId, targetId, 1))
  }

  function Optimistic(sourceId: string, targetId: string, code: string): Relation {
    Relation(OptimisticId(sourceId, targetId, code), code, sourceId, targetId, 1)
  }

  function Without(relations: seq<Relation>, ids: set<string>): (r: seq<Relation>)
    ensures forall x :: x in r <==> x in relations && x.relationId !in ids
  {
    if relations == [] then []
    else (if relations[0].relationId !in ids then [relations[0]] else []) + Without(relations[1..], ids)
  }

  /** The list with a connection shown before the server's relation has been read back. */
  function Shown(relations: seq<Relation>, x: Relation): seq<Relation> {
    Without(relations, {x.relationId}) + [x]
  }

  function Key(r: Relation): string {
    r.sourceId + "->" + r.targetId + ":" + r.relationType
  }

  function Keys(relations: seq<Relation>): set<string> {
    set r | r in relations :: Key(r)
  }

  function NotKeyed(relations: seq<Relation>, keys: set<string>): (r: seq<Relation>)
    ensures forall x :: x in r <==> x in relations && Key(x) !in keys
  {
    if relations == [] then []
    else (if Key(relations[0]) !in keys then [relations[0]] else []) + NotKeyed(relations[1..], keys)
  }

  /** Reloaded relations, then the current ones that no reloaded relation stands for. */
  function Merged(reloaded: seq<Relation>, current: seq<Relation>): seq<Relation> {
    reloaded + NotKeyed(current, Keys(reloaded))
  }

  // ---- each update and one relation per source, target and type

  lemma {:induction false} WithoutDistinct(relations: seq<Relation>, ids: set<string>)
    requires DistinctTriples(relations)
    ensures DistinctTriples(Without(relations, ids))
  {
    if relations != [] {
      WithoutDistinct(relations[1..], ids);
      HeadApart(relations, Without(relations[1..], ids));
    }
  }

  /** Some of the later relations, seen from the first. */
  lemma HeadApart(relations: seq<Relation>, later: seq<Relation>)
    requires relations != [] && DistinctTriples(relations)
    requires forall x :: x in later ==> x in relations[1..]
    ensures forall k :: 0 <= k < |later| ==> !SameTriple(relations[0], later[k])
  {
    forall k | 0 <= k < |later|
      ensures !SameTriple(relations[0], later[k])
    {
      assert later[k] in later;
      var i :| 0 <= i < |relations[1..]| && relations[1..][i] == later[k];
    }
  }

  lemma {:induction false} NotKeyedDistinct(relations: seq<Relation>, keys: set<string>)
    requires DistinctTriples(relations)
    ensures DistinctTriples(NotKeyed(relations, keys))
  {
    if relations != [] {
      NotKeyedDistinct(relations[1..], keys);
      HeadApart(relations, NotKeyed(relations[1..], keys));
    }
  }

  ghost predicate HasTriple(relations: seq<Relation>, x: Relation) {
    exists r :: r in relations && SameTriple(r, x)
  }

  lemma JoinDistinct(a: seq<Relation>, b: seq<Relation>)
    requires DistinctTriples(a) && DistinctTriples(b)
    requires forall x :: x in b ==> !HasTriple(a, x)
    ensures DistinctTriples(a + b)
  {
    var l := a + b;
    forall i, j | 0 <= i < j < |l|
      ensures !SameTriple(l[i], l[j])
    {
      if i < |a| <= j {
        assert a[i] in a && b[j - |a|] in b;
        assert !HasTriple(a, b[j - |a|]);
      }
    }
  }

  lemma FrontDistinct(a: seq<Relation>, b: seq<Relation>)
    requires DistinctTriples(a + b)
    ensures DistinctTriples(a)
  {
    forall i, j | 0 <= i < j < |a|
      ensures !SameTriple(a[i], a[j])
    {
      assert (a + b)[i] == a[i] && (a + b)[j] == a[j];
    }
  }

  /** A merge keeps relations apart exactly when the reloaded ones are. */
  lemma MergedDistinct(reloaded: seq<Relation>, current: seq<Relation>)
    requires DistinctTriples(current)
    ensures DistinctTriples(Merged(reloaded, current)) <==> DistinctTriples(reloaded)
  {
    var kept := NotKeyed(current, Keys(reloaded));
    if DistinctTriples(reloaded) {
      NotKeyedDistinct(current, Keys(reloaded));
      forall x | x in kept
        ensures !HasTriple(reloaded, x)
      {
        forall r | r in reloaded
          ensures !SameTriple(r, x)
        {
          assert Key(r) in Keys(reloaded);
        }
      }
      JoinDistinct(reloaded, kept);
    }
    if DistinctTriples(Merged(reloaded, current)) {
      FrontDistinct(reloaded, kept);
    }
  }

  /** No other entry of the list is for this relation. */
  predicate MayShow(relations: seq<Relation>, x: Relation) {
    forall r :: r in relations && SameTriple(r, x) ==> r.relationId == x.relationId
  }

  /** Showing a connection keeps relations apart exactly when the list holds no other entry for it. */
  lemma ShownDistinct(relations: seq<Relation>, x: Relation)
    requires DistinctTriples(relations)
    ensures DistinctTriples(Shown(relations, x)) <==> MayShow(relations, x)
  {
    var rest := Without(relations, {x.relationId});
    WithoutDistinct(relations, {x.relationId});
    if MayShow(relations, x) {
      JoinDistinct(rest, [x]);
    } else {
      var r :| r in relations && SameTriple(r, x) && r.relationId != x.relationId;
      assert r in rest;
      var i :| 0 <= i < |rest| && rest[i] == r;
      assert SameTriple(Shown(relations, x)[i], Shown(relations, x)[|rest|]);
    }
  }

  // ---- runs

  /** A connection under way: asked of the kernel, or made by it and not yet shown. */
  datatype Attempt = Attempt(sourceId: string, targetId: string, code: string, made: bool)

  /** The kernel's relations at every moment so far, what the read model has shown so far, the panel's list,
      and the connections under way. */
  datatype World = World(
    history: seq<seq<Relation>>, views: seq<seq<Relation>>, list: seq<Relation>, attempts: map<nat, Attempt>)

  datatype Event =
    | Create(relation: Relation)
    | Update(id: string, sourceId: string, targetId: string)
    | Delete(id: string)
    | Publish(view: seq<Relation>)
    | Ask(number: nat, sourceId: string, targetId: string, code: string)
    | Answer(number: nat, id: string)
    | Refuse(number: nat)
    | Show(number: nat)
    | Remove(ids: set<string>)
    | Reload(visible: map<(string, string), nat>, root: nat, query: Query)
    | Merge(visible: map<(string, string), nat>, root: nat, query: Query)
    | Fail

  const EMPTY: World := World([[]], [[]], [], map[])

  function Server(w: World): seq<Relation> {
    At(w.history, |w.history|)
  }

  predicate NewId(history: seq<seq<Relation>>, id: string) {
    forall k :: 0 <= k < |history| ==> forall r :: r in history[k] ==> r.relationId != id
  }

  /** The kernel makes a relation under an id never used when no active relation is its equal. */
  predicate Accepts(w: World, x: Relation) {
    NewId(w.history, x.relationId) && x.sourceId != x.targetId && forall r :: r in Server(w) ==> !SameTriple(r, x)
  }

  function Served(w: World, server: seq<Relation>): World {
    w.(history := w.history + [server])
  }

  function Created(w: World, x: Relation): World {
    if Accepts(w, x) then Served(w, Server(w) + [x]) else w
  }

  function Moved(r: Relation, sourceId: string, targetId: string): Relation {
    r.(sourceId := sourceId, targetId := targetId, version := r.version + 1)
  }

  /** No other active relation has the type of the relation with this id and the given ends. */
  predicate MayUpdate(server: seq<Relation>, id: string, sourceId: string, targetId: string) {
    && sourceId != targetId
    && forall r, other :: r in server && other in server && r.relationId == id && other.relationId != id ==>
      !SameTriple(Moved(r, sourceId, targetId), other)
  }

  /** The relation keeps its id, gets the next version, and may get other ends. */
  function Updated(server: seq<Relation>, id: string, sourceId: string, targetId: string): seq<Relation> {
    seq(|server|, i requires 0 <= i < |server| =>
      if server[i].relationId == id then Moved(server[i], sourceId, targetId) else server[i])
  }

  function Result(w: World, visible: map<(string, string), nat>, root: nat, q: Query): seq<Relation> {
    Loaded(Readings(w.views, visible, root), q)
  }

  function AttemptOf(a: Attempt): Relation {
    Optimistic(a.sourceId, a.targetId, a.code)
  }

  /** The request, its answer and the showing of a connection are steps of their own; an event about an
      attempt that does not exist changes nothing. The read model may come to show anything. */
  function Step(w: World, e: Event): World {
    match e
    case Create(x) => Created(w, x)
    case Update(id, sourceId, targetId) =>
      if MayUpdate(Server(w), id, sourceId, targetId) then Served(w, Updated(Server(w), id, sourceId, targetId)) else w
    case Delete(id) => Served(w, Without(Server(w), {id}))
    case Publish(view) => w.(views := w.views + [view])
    case Ask(k, sourceId, targetId, code) =>
      if k in w.attempts || Rejected(sourceId, targetId, code, w.list) != Accepted then w
      else w.(attempts := w.attempts[k := Attempt(sourceId, targetId, code, false)])
    case Answer(k, id) =>
      if k !in w.attempts || w.attempts[k].made then w
      else
        var a := w.attempts[k];
        var x := Relation(id, a.code, a.sourceId, a.targetId, 1);
        if Accepts(w, x) then Created(w, x).(attempts := w.attempts[k := a.(made := true)])
        else w.(attempts := w.attempts - {k})
    case Refuse(k) =>
      if k !in w.attempts || w.attempts[k].made then w else w.(attempts := w.attempts - {k})
    case Show(k) =>
      if k !in w.attempts || !w.attempts[k].made then w
      else w.(list := Shown(w.list, AttemptOf(w.attempts[k])), attempts := w.attempts - {k})
    case Remove(ids) => w.(list := Without(w.list, ids))
    case Reload(visible, root, q) => w.(list := Result(w, visible, root, q))
    case Merge(visible, root, q) => w.(list := Merged(Result(w, visible, root, q), w.list))
    case Fail => w.(list := [])
  }

  /** A connection is shown where no other entry is for its relation, and the answers of a load agree. */
  ghost predicate Careful(w: World, e: Event) {
    match e
    case Show(k) => k in w.attempts && w.attempts[k].made ==> MayShow(w.list, AttemptOf(w.attempts[k]))
    case Reload(visible, root, q) => Agrees(Readings(w.views, visible, root), q)
    case Merge(visible, root, q) => Agrees(Readings(w.views, visible, root), q)
    case _ => true
  }

  // ---- the kernel keeps its promises

  ghost predicate HistoryKeeps(history: seq<seq<Relation>>) {
    history != [] && AllKept(history)
  }

  lemma LastKept(w: World)
    requires HistoryKeeps(w.history)
    ensures ServerKeeps(Server(w)) && Server(w) in w.history
  {
    assert Server(w) == w.history[|w.history| - 1];
  }

  lemma ServedKeeps(w: World, server: seq<Relation>)
    requires HistoryKeeps(w.history) && ServerKeeps(server)
    ensures HistoryKeeps(Served(w, server).history) && Server(Served(w, server)) == server
  {
  }

  lemma {:induction false} WithoutDistinctIds(relations: seq<Relation>, ids: set<string>)
    requires DistinctIds(relations)
    ensures DistinctIds(Without(relations, ids))
  {
    if relations != [] {
      WithoutDistinctIds(relations[1..], ids);
      var later := Without(relations[1..], ids);
      forall k | 0 <= k < |later|
        ensures relations[0].relationId != later[k].relationId
      {
        assert later[k] in later;
        var i :| 0 <= i < |relations[1..]| && relations[1..][i] == later[k];
      }
    }
  }

  lemma CreateKeeps(w: World, x: Relation)
    requires HistoryKeeps(w.history)
    ensures HistoryKeeps(Created(w, x).history)
    ensures Accepts(w, x) ==> Server(Created(w, x)) == Server(w) + [x]
  {
    if Accepts(w, x) {
      LastKept(w);
      forall i | 0 <= i < |Server(w)|
        ensures Server(w)[i].relationId != x.relationId && !SameTriple(Server(w)[i], x)
      {
        assert Server(w)[i] in Server(w) && Server(w)[i] in w.history[|w.history| - 1];
      }
      ServedKeeps(w, Server(w) + [x]);
    }
  }

  /** After an update the kernel still has each id once, and one relation per source, target and type. */
  lemma UpdateKeeps(server: seq<Relation>, id: string, sourceId: string, targetId: string)
    requires ServerKeeps(server) && MayUpdate(server, id, sourceId, targetId)
    ensures ServerKeeps(Updated(server, id, sourceId, targetId))
  {
    var after := Updated(server, id, sourceId, targetId);
    forall i, j | 0 <= i < j < |after|
      ensures after[i].relationId != after[j].relationId && !SameTriple(after[i], after[j])
    {
      assert server[i] in server && server[j] in server && server[i].relationId != server[j].relationId;
      assert !SameTriple(server[i], server[j]);
      if server[i].relationId == id {
        assert !SameTriple(Moved(server[i], sourceId, targetId), server[j]);
      } else if server[j].relationId == id {
        assert !SameTriple(Moved(server[j], sourceId, targetId), server[i]);
      }
    }
  }

  lemma HistoryStep(w: World, e: Event)
    requires HistoryKeeps(w.history)
    ensures HistoryKeeps(Step(w, e).history)
  {
    LastKept(w);
    match e
    case Create(x) => CreateKeeps(w, x);
    case Update(id, sourceId, targetId) =>
      if MayUpdate(Server(w), id, sourceId, targetId) {
        UpdateKeeps(Server(w), id, sourceId, targetId);
        ServedKeeps(w, Updated(Server(w), id, sourceId, targetId));
      }
    case Delete(id) =>
      WithoutDistinctIds(Server(w), {id});
      WithoutDistinct(Server(w), {id});
      ServedKeeps(w, Without(Server(w), {id}));
    case Answer(k, id) =>
      if k in w.attempts {
        var a := w.attempts[k];
        CreateKeeps(w, Relation(id, a.code, a.sourceId, a.targetId, 1));
      }
    case _ =>
  }

  // ---- when the list keeps relations apart

  /** From a list that keeps relations apart, a step leads to one that does exactly when it is careful. */
  lemma StepExactly(w: World, e: Event)
    requires DistinctTriples(w.list)
    ensures DistinctTriples(Step(w, e).list) <==> Careful(w, e)
  {
    match e
    case Show(k) =>
      if k in w.attempts && w.attempts[k].made {
        ShownDistinct(w.list, AttemptOf(w.attempts[k]));
      }
    case Remove(ids) => WithoutDistinct(w.list, ids);
    case Reload(visible, root, q) => LoadedAgrees(Readings(w.views, visible, root), q);
    case Merge(visible, root, q) =>
      LoadedAgrees(Readings(w.views, visible, root), q);
      MergedDistinct(Result(w, visible, root, q), w.list);
    case _ =>
  }

  function Run(w: World, events: seq<Event>): World
    decreases |events|
  {
    if events == [] then w else Run(Step(w, events[0]), events[1..])
  }

  ghost predicate AllCareful(w: World, events: seq<Event>)
    decreases |events|
  {
    events == [] || (Careful(w, events[0]) && AllCareful(Step(w, events[0]), events[1..]))
  }

  /** The list keeps relations apart after every event. */
  ghost predicate AlwaysApart(w: World, events: seq<Event>)
    decreases |events|
  {
    DistinctTriples(w.list) && (events == [] || AlwaysApart(Step(w, events[0]), events[1..]))
  }

  lemma {:induction false} AlwaysExactly(w: World, events: seq<Event>)
    requires DistinctTriples(w.list)
    ensures AlwaysApart(w, events) <==> AllCareful(w, events)
    decreases |events|
  {
    if events != [] {
      StepExactly(w, events[0]);
      if DistinctTriples(Step(w, events[0]).list) {
        AlwaysExactly(Step(w, events[0]), events[1..]);
      }
    }
  }

  /** A run of requests, answers, showings, creations, updates, deletions, reloads and merges in any order,
      whatever the read model shows and at whatever moments queries are answered, keeps at most one relation
      per source, target and type in the list after every event if and only if every event is careful. */
  lemma RunExactly(events: seq<Event>)
    ensures AlwaysApart(EMPTY, events) <==> AllCareful(EMPTY, events)
  {
    AlwaysExactly(EMPTY, events);
  }

  // ---- when the list has each id once

  /** No current relation that the merge keeps has the id of a reloaded one. */
  ghost predicate IdsApart(reloaded: seq<Relation>, current: seq<Relation>) {
    forall r, c :: r in reloaded && c in current && Key(c) !in Keys(reloaded) ==> r.relationId != c.relationId
  }

  lemma {:induction false} NotKeyedDistinctIds(relations: seq<Relation>, keys: set<string>)
    requires DistinctIds(relations)
    ensures DistinctIds(NotKeyed(relations, keys))
  {
    if relations != [] {
      NotKeyedDistinctIds(relations[1..], keys);
      var later := NotKeyed(relations[1..], keys);
      forall k | 0 <= k < |later|
        ensures relations[0].relationId != later[k].relationId
      {
        assert later[k] in later;
        var i :| 0 <= i < |relations[1..]| && relations[1..][i] == later[k];
      }
    }
  }

  /** A merge keeps each id once exactly when no relation was reloaded with other ends under the id of one
      that it keeps. */
  lemma MergeIdsExactly(reloaded: seq<Relation>, current: seq<Relation>)
    requires DistinctIds(reloaded) && DistinctIds(current)
    ensures DistinctIds(Merged(reloaded, current)) <==> IdsApart(reloaded, current)
  {
    var kept, all := NotKeyed(current, Keys(reloaded)), Merged(reloaded, current);
    NotKeyedDistinctIds(current, Keys(reloaded));
    if IdsApart(reloaded, current) {
      forall i, j | 0 <= i < j < |all|
        ensures all[i].relationId != all[j].relationId
      {
        if i < |reloaded| <= j {
          assert all[i] in reloaded && all[j] in kept;
        }
      }
    }
    if DistinctIds(all) {
      forall r, c | r in reloaded && c in current && Key(c) !in Keys(reloaded)
        ensures r.relationId != c.relationId
      {
        assert c in kept;
        var i :| 0 <= i < |reloaded| && reloaded[i] == r;
        var j :| 0 <= j < |kept| && kept[j] == c;
        assert all[i] == r && all[|reloaded| + j] == c;
      }
    }
  }

  ghost predicate KeepsIds(w: World, e: Event) {
    match e
    case Merge(visible, root, q) => IdsApart(Result(w, visible, root, q), w.list)
    case _ => true
  }

  /** Only a merge can repeat an id in the list, and exactly when it is of that kind. */
  lemma StepIdsExactly(w: World, e: Event)
    requires DistinctIds(w.list)
    ensures DistinctIds(Step(w, e).list) <==> KeepsIds(w, e)
  {
    match e
    case Show(k) =>
      if k in w.attempts && w.attempts[k].made {
        WithoutDistinctIds(w.list, {AttemptOf(w.attempts[k]).relationId});
      }
    case Remove(ids) => WithoutDistinctIds(w.list, ids);
    case Reload(visible, root, q) =>
      var any: Relation :| true;
      LoadedExactly(Readings(w.views, visible, root), q, any);
    case Merge(visible, root, q) =>
      var any: Relation :| true;
      LoadedExactly(Readings(w.views, visible, root), q, any);
      MergeIdsExactly(Result(w, visible, root, q), w.list);
    case _ =>
  }

  ghost predicate AllKeepIds(w: World, events: seq<Event>)
    decreases |events|
  {
    events == [] || (KeepsIds(w, events[0]) && AllKeepIds(Step(w, events[0]), events[1..]))
  }

  ghost predicate AlwaysDistinctIds(w: World, events: seq<Event>)
    decreases |events|
  {
    DistinctIds(w.list) && (events == [] || AlwaysDistinctIds(Step(w, events[0]), events[1..]))
  }

  /** In every run, whatever the read model shows: each id is in the list at most once after every event if and
      only if no merge reloads a relation with other ends under the id of one that it keeps. */
  lemma {:induction false} RunIdsExactly(w: World, events: seq<Event>)
    requires DistinctIds(w.list)
    ensures AlwaysDistinctIds(w, events) <==> AllKeepIds(w, events)
    decreases |events|
  {
    if events != [] {
      StepIdsExactly(w, events[0]);
      if DistinctIds(Step(w, events[0]).list) {
        RunIdsExactly(Step(w, events[0]), events[1..]);
      }
    }
  }

  /** A relation in the list is moved, a load shows it in its new state, and the merge keeps the old one too. */
  lemma MovedStays(reloaded: seq<Relation>, current: seq<Relation>, r: Relation, sourceId: string, targetId: string)
    requires r in current && Moved(r, sourceId, targetId) in reloaded && Key(r) !in Keys(reloaded)
    ensures r in Merged(reloaded, current) && Moved(r, sourceId, targetId) in Merged(reloaded, current)
    ensures !DistinctIds(Merged(reloaded, current))
  {
    var all, kept := Merged(reloaded, current), NotKeyed(current, Keys(reloaded));
    var i :| 0 <= i < |reloaded| && reloaded[i] == Moved(r, sourceId, targetId);
    var j :| 0 <= j < |kept| && kept[j] == r;
    assert all[i] == reloaded[i] && all[|reloaded| + j] == r;
  }

  // ---- connections made at once, loads at one moment

  /** A connection asked for, answered and shown with nothing in between, or any other event. */
  datatype Act = Connect(sourceId: string, targetId: string, code: string, id: string) | Other(event: Event)

  function Spelled(act: Act): seq<Event> {
    match act
    case Connect(sourceId, targetId, code, id) => [Ask(0, sourceId, targetId, code)] + ([Answer(0, id)] + [Show(0)])
    case Other(e) => [e]
  }

  /** Other events start no connection of their own, the read model shows what the kernel had at some moment,
      and a load asks for the diagram's type at one moment. */
  ghost predicate AtOnce(w: World, act: Act) {
    match act
    case Connect(_, _, _, _) => true
    case Other(Ask(_, _, _, _)) => false
    case Other(Publish(view)) => view in w.history
    case Other(Reload(visible, root, q)) => OneMoment(Readings(w.views, visible, root), q)
    case Other(Merge(visible, root, q)) => OneMoment(Readings(w.views, visible, root), q)
    case Other(_) => true
  }

  function Perform(w: World, act: Act): World {
    Run(w, Spelled(act))
  }

  function PerformAll(w: World, acts: seq<Act>): World
    decreases |acts|
  {
    if acts == [] then w else PerformAll(Perform(w, acts[0]), acts[1..])
  }

  ghost predicate AllAtOnce(w: World, acts: seq<Act>)
    decreases |acts|
  {
    acts == [] || (AtOnce(w, acts[0]) && AllAtOnce(Perform(w, acts[0]), acts[1..]))
  }

  ghost predicate Settled(w: World) {
    HistoryKeeps(w.history) && AllKept(w.views) && DistinctTriples(w.list) && w.attempts == map[]
  }

  /** What a connection made at once comes to. */
  function Connected(w: World, sourceId: string, targetId: string, code: string, id: string): World {
    var x := Relation(id, code, sourceId, targetId, 1);
    if Rejected(sourceId, targetId, code, w.list) != Accepted || !Accepts(w, x) then w
    else Created(w, x).(list := Shown(w.list, Optimistic(sourceId, targetId, code)))
  }

  lemma RunThree(w: World, a: Event, b: Event, c: Event)
    ensures Run(w, [a] + ([b] + [c])) == Step(Step(Step(w, a), b), c)
  {
    assert ([a] + ([b] + [c]))[1..] == [b] + [c];
    assert ([b] + [c])[1..] == [c] && [c][1..] == [];
    var v := Step(Step(w, a), b);
    assert Run(v, [c]) == Run(Step(v, c), []);
  }

  lemma ConnectIs(w: World, sourceId: string, targetId: string, code: string, id: string)
    requires w.attempts == map[]
    ensures Perform(w, Connect(sourceId, targetId, code, id)) == Connected(w, sourceId, targetId, code, id)
  {
    RunThree(w, Ask(0, sourceId, targetId, code), Answer(0, id), Show(0));
    var a := Attempt(sourceId, targetId, code, false);
    assert map[0 := a] - {0} == map[];
    assert map[0 := a][0 := a.(made := true)] - {0} == map[];
  }

  lemma ConnectedKeeps(w: World, sourceId: string, targetId: string, code: string, id: string)
    requires Settled(w)
    ensures Settled(Connected(w, sourceId, targetId, code, id))
  {
    var x := Relation(id, code, sourceId, targetId, 1);
    CreateKeeps(w, x);
    ShownDistinct(w.list, Optimistic(sourceId, targetId, code));
  }

  lemma OtherKeeps(w: World, e: Event)
    requires Settled(w) && AtOnce(w, Other(e))
    ensures Perform(w, Other(e)) == Step(w, e) && Settled(Step(w, e))
  {
    assert [e][1..] == [] && Run(w, [e]) == Run(Step(w, e), []);
    HistoryStep(w, e);
    match e
    case Publish(view) =>
      var k :| 0 <= k < |w.history| && w.history[k] == view;
      assert ServerKeeps(w.history[k]);
    case Reload(visible, root, q) =>
      OneMomentAgrees(Readings(w.views, visible, root), q);
      StepExactly(w, e);
    case Merge(visible, root, q) =>
      OneMomentAgrees(Readings(w.views, visible, root), q);
      StepExactly(w, e);
    case _ => StepExactly(w, e);
  }

  lemma {:induction false} ActsKeep(w: World, acts: seq<Act>)
    requires Settled(w) && AllAtOnce(w, acts)
    ensures Settled(PerformAll(w, acts))
    decreases |acts|
  {
    if acts != [] {
      match acts[0] {
        case Connect(sourceId, targetId, code, id) =>
          ConnectIs(w, sourceId, targetId, code, id);
          ConnectedKeeps(w, sourceId, targetId, code, id);
        case Other(e) => OtherKeeps(w, e);
      }
      ActsKeep(Perform(w, acts[0]), acts[1..]);
    }
  }

  lemma EmptySettled()
    ensures Settled(EMPTY)
  {
  }

  /** In every run of connections made at once, creations, updates and deletions, where the read model shows
      what the kernel had and each load and merge asks at one moment of the past, the list holds at most one
      relation per source, target and type. */
  lemma RunSafe(acts: seq<Act>)
    requires AllAtOnce(EMPTY, acts)
    ensures DistinctTriples(PerformAll(EMPTY, acts).list)
  {
    EmptySettled();
    ActsKeep(EMPTY, acts);
  }

  // ---- a connection that is shown late

  /** The kernel has made the connection, and a load has shown it before the connection is shown:
      the list then holds it twice. */
  lemma LateShowRepeats(w: World, k: nat, x: Relation)
    requires DistinctTriples(w.list) && x in w.list
    requires k in w.attempts && w.attempts[k] == Attempt(x.sourceId, x.targetId, x.relationType, true)
    requires x.relationId != OptimisticId(x.sourceId, x.targetId, x.relationType)
    ensures !Careful(w, Show(k)) && !DistinctTriples(Step(w, Show(k)).list)
  {
    var early := Optimistic(x.sourceId, x.targetId, x.relationType);
    assert SameTriple(x, early) && AttemptOf(w.attempts[k]) == early;
    StepExactly(w, Show(k));
  }

  /** The newest view in which each id is found once. */
  predicate Newest(views: seq<seq<Relation>>, view: seq<Relation>) {
    views != [] && views[|views| - 1] == view
  }

  /** A load at the newest view returns what it asks for. */
  lemma NowLoaded(w: World, view: seq<Relation>, x: Relation, q: Query)
    requires Newest(w.views, view) && ServerKeeps(view) && x in view
    requires x.relationType in QueryCodes(q) && x.sourceId in SourceIds(q)
    ensures var l := Result(w, map[], |w.views|, q); DistinctTriples(l) && x in l
  {
    var readings, now := Readings(w.views, map[], |w.views|), Readings([view], map[], 1);
    assert AllKept(now.views) && OneMoment(now, q);
    SameAnswers(readings, now, q, view);
    OneMomentAgrees(now, q);
    LoadedAgrees(now, q);
    forall r | r in Found(now, q) && r.relationId == x.relationId
      ensures r == x
    {
      MembersOfDistinct(view, r, x);
    }
    FoundLast(now, q, x);
    LoadedExactly(now, q, x);
  }

  lemma SameAnswers(a: Readings, b: Readings, q: Query, view: seq<Relation>)
    requires Newest(a.views, view) && a.visible == map[] && a.root >= |a.views|
    requires Newest(b.views, view) && b.visible == map[] && b.root >= |b.views|
    ensures Loaded(a, q) == Loaded(b, q)
  {
    SameFromSources(a, b, QueryCodes(q), SourceIds(q), view);
  }

  lemma {:induction false} SameFromSource(a: Readings, b: Readings, codes: seq<string>, id: string, view: seq<Relation>)
    requires Newest(a.views, view) && a.visible == map[] && Newest(b.views, view) && b.visible == map[]
    ensures FromSource(a, codes, id) == FromSource(b, codes, id)
  {
    if codes != [] {
      SameFromSource(a, b, codes[1..], id, view);
    }
  }

  lemma {:induction false} SameFromSources(a: Readings, b: Readings, codes: seq<string>, ids: seq<string>,
                                           view: seq<Relation>)
    requires Newest(a.views, view) && a.visible == map[] && Newest(b.views, view) && b.visible == map[]
    ensures FromSources(a, codes, ids) == FromSources(b, codes, ids)
  {
    if ids != [] {
      SameFromSource(a, b, codes, ids[0], view);
      SameFromSources(a, b, codes, ids[1..], view);
    }
  }

  lemma AnsweredHolds(w: World, k: nat, id: string)
    requires HistoryKeeps(w.history) && k in w.attempts && !w.attempts[k].made
    requires var a := w.attempts[k]; Accepts(w, Relation(id, a.code, a.sourceId, a.targetId, 1))
    ensures var a, answered := w.attempts[k], Step(w, Answer(k, id));
      Relation(id, a.code, a.sourceId, a.targetId, 1) in Server(answered) && ServerKeeps(Server(answered))
      && k in answered.attempts && answered.attempts[k] == a.(made := true)
  {
    var a := w.attempts[k];
    CreateKeeps(w, Relation(id, a.code, a.sourceId, a.targetId, 1));
    HistoryStep(w, Answer(k, id));
    LastKept(Step(w, Answer(k, id)));
  }

  lemma PublishIs(w: World, view: seq<Relation>) returns (published: World)
    ensures published == Step(w, Publish(view)) && Newest(published.views, view)
    ensures published.attempts == w.attempts && published.list == w.list
  {
    published := Step(w, Publish(view));
  }

  lemma ReloadIs(w: World, e: Event, result: seq<Relation>)
    requires e.Reload? && result == Result(w, e.visible, e.root, e.query)
    ensures Step(w, e) == w.(list := result)
  {
  }

  /** From every world with a request that the kernel would accept: its answer, the publication and a load of
      what the kernel has then, and the showing of the connection put the relation into the list twice. */
  lemma AttemptCanRepeat(w: World, k: nat, id: string, q: Query)
    returns (answered: World, published: World, loaded: World)
    requires HistoryKeeps(w.history) && k in w.attempts && !w.attempts[k].made
    requires var a := w.attempts[k];
      && Accepts(w, Relation(id, a.code, a.sourceId, a.targetId, 1)) && id != AttemptOf(a).relationId
      && a.code in QueryCodes(q) && a.sourceId in SourceIds(q)
    ensures answered == Step(w, Answer(k, id)) && published == Step(answered, Publish(Server(answered)))
    ensures loaded == Step(published, Reload(map[], |published.views|, q))
    ensures DistinctTriples(loaded.list) && !DistinctTriples(Step(loaded, Show(k)).list)
  {
    var a := w.attempts[k];
    var x := Relation(id, a.code, a.sourceId, a.targetId, 1);
    AnsweredHolds(w, k, id);
    answered := Step(w, Answer(k, id));
    published := PublishIs(answered, Server(answered));
    NowLoaded(published, Server(answered), x, q);
    loaded := Step(published, Reload(map[], |published.views|, q));
    ReloadIs(published, Reload(map[], |published.views|, q), Result(published, map[], |published.views|, q));
    LateShowRepeats(loaded, k, x);
  }

  // ---- what a merge keeps

  /** The merge shows a relation exactly when one of the two lists does. */
  ghost predicate KeepsAll(reloaded: seq<Relation>, current: seq<Relation>) {
    forall x :: HasTriple(Merged(reloaded, current), x) <==> HasTriple(reloaded, x) || HasTriple(current, x)
  }

  /** A merge loses nothing if and only if every current relation whose key was reloaded was reloaded itself. */
  lemma MergeKeepsExactly(reloaded: seq<Relation>, current: seq<Relation>)
    ensures KeepsAll(reloaded, current) <==>
      forall r :: r in current && Key(r) in Keys(reloaded) ==> HasTriple(reloaded, r)
  {
    var kept := NotKeyed(current, Keys(reloaded));
    if forall r :: r in current && Key(r) in Keys(reloaded) ==> HasTriple(reloaded, r) {
      forall x
        ensures HasTriple(Merged(reloaded, current), x) <==> HasTriple(reloaded, x) || HasTriple(current, x)
      {
        MergeHas(reloaded, current, x);
      }
    }
    if KeepsAll(reloaded, current) {
      forall r | r in current && Key(r) in Keys(reloaded)
        ensures HasTriple(reloaded, r)
      {
        assert HasTriple(current, r);
        var y :| y in Merged(reloaded, current) && SameTriple(y, r);
        assert Key(y) == Key(r);
      }
    }
  }

  lemma MergeHas(reloaded: seq<Relation>, current: seq<Relation>, x: Relation)
    requires forall r :: r in current && Key(r) in Keys(reloaded) ==> HasTriple(reloaded, r)
    ensures HasTriple(Merged(reloaded, current), x) <==> HasTriple(reloaded, x) || HasTriple(current, x)
  {
    var kept := NotKeyed(current, Keys(reloaded));
    if HasTriple(current, x) {
      var r :| r in current && SameTriple(r, x);
      if Key(r) in Keys(reloaded) {
        var y :| y in reloaded && SameTriple(y, r);
        assert SameTriple(y, x);
      } else {
        assert r in kept;
      }
    }
  }

  /** Ids whose keys tell them apart. */
  predicate Plain(r: Relation) {
    '>' !in r.sourceId && ':' !in r.targetId
  }

  function IndexOf(c: char, s: string): nat {
    if s == [] || s[0] == c then 0 else 1 + IndexOf(c, s[1..])
  }

  lemma {:induction false} FirstAt(c: char, p: string, q: string)
    requires c !in p
    ensures IndexOf(c, p + [c] + q) == |p|
  {
    if p != [] {
      assert (p + [c] + q)[1..] == p[1..] + [c] + q;
      FirstAt(c, p[1..], q);
    }
  }

  lemma SplitAtFirst(c: char, p1: string, q1: string, p2: string, q2: string)
    requires p1 + [c] + q1 == p2 + [c] + q2 && c !in p1 && c !in p2
    ensures p1 == p2 && q1 == q2
  {
    var l := p1 + [c] + q1;
    FirstAt(c, p1, q1);
    FirstAt(c, p2, q2);
    assert p1 == l[..|p1|] && p2 == l[..|p2|];
    assert q1 == l[|p1| + 1..] && q2 == l[|p2| + 1..];
  }

  lemma KeySplit(r: Relation)
    ensures Key(r) == (r.sourceId + "-") + ['>'] + (r.targetId + [':'] + r.relationType)
  {
  }

  /** Plain keys are equal only for the same source, target and type. */
  lemma PlainKeysTell(a: Relation, b: Relation)
    requires Plain(a) && Plain(b)
    ensures Key(a) == Key(b) <==> SameTriple(a, b)
  {
    if Key(a) == Key(b) {
      KeySplit(a);
      KeySplit(b);
      SplitAtFirst('>', a.sourceId + "-", a.targetId + [':'] + a.relationType,
                   b.sourceId + "-", b.targetId + [':'] + b.relationType);
      assert (a.sourceId + "-")[..|a.sourceId|] == a.sourceId;
      assert (b.sourceId + "-")[..|b.sourceId|] == b.sourceId;
      SplitAtFirst(':', a.targetId, a.relationType, b.targetId, b.relationType);
    }
  }

  /** The text of a UUID: hexadecimal digits and dashes. */
  predicate IsUuid(s: string) {
    |s| == 36 && forall i :: 0 <= i < |s| ==> s[i] == '-' || '0' <= s[i] <= '9' || 'a' <= s[i] <= 'f'
  }

  ghost predicate UuidEnds(relations: seq<Relation>) {
    forall r :: r in relations ==> IsUuid(r.sourceId) && IsUuid(r.targetId)
  }

  /** Objects have UUIDs, and so a merge loses nothing. */
  lemma UuidsMerge(reloaded: seq<Relation>, current: seq<Relation>)
    requires UuidEnds(reloaded) && UuidEnds(current)
    ensures KeepsAll(reloaded, current)
  {
    forall r | r in current && Key(r) in Keys(reloaded)
      ensures HasTriple(reloaded, r)
    {
      var y :| y in reloaded && Key(y) == Key(r);
      PlainKeysTell(y, r);
    }
    MergeKeepsExactly(reloaded, current);
  }

  /** On other strings keys can be equal for different relations. */
  lemma KeysCanCollide()
    ensures var a, b := Relation("1", "t", "a", "b->c", 1), Relation("2", "t", "a->b", "c", 1);
      Key(a) == Key(b) && !SameTriple(a, b)
  {
    var a, b := Relation("1", "t", "a", "b->c", 1), Relation("2", "t", "a->b", "c", 1);
    assert Key(a) == "a->b->c:t" && Key(b) == "a->b->c:t";
  }

  // ---- a load that has caught up

  /** A connection made at once is in the list and at the kernel. */
  lemma ConnectedHolds(w: World, x: Relation)
    requires Settled(w) && x.version == 1 && Accepts(w, x)
    requires Rejected(x.sourceId, x.targetId, x.relationType, w.list) == Accepted
    ensures var c := Connected(w, x.sourceId, x.targetId, x.relationType, x.relationId);
      Settled(c) && x in Server(c) && HasTriple(c.list, x)
  {
    var c := Connected(w, x.sourceId, x.targetId, x.relationType, x.relationId);
    ConnectedKeeps(w, x.sourceId, x.targetId, x.relationType, x.relationId);
    CreateKeeps(w, x);
    assert Server(c) == Server(Created(w, x));
    assert Optimistic(x.sourceId, x.targetId, x.relationType) in c.list;
  }

  lemma MergedOnly(reloaded: seq<Relation>, current: seq<Relation>, x: Relation)
    requires DistinctTriples(reloaded) && DistinctTriples(current) && x in reloaded
    ensures x in Merged(reloaded, current)
    ensures forall r :: r in Merged(reloaded, current) && SameTriple(r, x) ==> r == x
  {
    MergedDistinct(reloaded, current);
    OnlyOne(Merged(reloaded, current), x);
  }

  /** After a connection between two visible objects, the list shows it; and a merge with a load that has
      caught up shows the server's relation in place of the early one. */
  lemma CaughtUpReplaces(w: World, q: Query, source: ViewObject, target: ViewObject, x: Relation)
    returns (published: World)
    requires Settled(w) && source in q.objects && target in q.objects
    requires Infer(q.types, source.objectType, target.objectType).Match?
    requires var m := Infer(q.types, source.objectType, target.objectType);
      && x.relationType == m.code && x.version == 1
      && x.sourceId == FromOf(m, source, target).objectId && x.targetId == ToOf(m, source, target).objectId
    requires Rejected(x.sourceId, x.targetId, x.relationType, w.list) == Accepted && Accepts(w, x)
    ensures var c := Connected(w, x.sourceId, x.targetId, x.relationType, x.relationId);
      HasTriple(c.list, x) && published == Step(c, Publish(Server(c)))
    ensures var merged := Merged(Result(published, map[], |published.views|, q), published.list);
      x in merged && forall r :: r in merged && SameTriple(r, x) ==> r == x
  {
    var c := Connected(w, x.sourceId, x.targetId, x.relationType, x.relationId);
    ConnectedHolds(w, x);
    ConnectQueried(q, source, target, x);
    LastKept(c);
    published := PublishIs(c, Server(c));
    NowLoaded(published, Server(c), x, q);
    MergedOnly(Result(published, map[], |published.views|, q), published.list, x);
  }

  lemma ConnectQueried(q: Query, source: ViewObject, target: ViewObject, x: Relation)
    requires source in q.objects && target in q.objects
    requires Infer(q.types, source.objectType, target.objectType).Match?
    requires var m := Infer(q.types, source.objectType, target.objectType);
      x.relationType == m.code && x.sourceId == FromOf(m, source, target).objectId
    ensures x.relationType in QueryCodes(q) && x.sourceId in SourceIds(q)
  {
    var m := Infer(q.types, source.objectType, target.objectType);
    ConnectableQueried(q, source, target);
    assert q.objects[..|q.objects|] == q.objects;
    assert FromOf(m, source, target) in q.objects[..|q.objects|];
  }

  // ---- the panel

  class DiagramPanel {
    var relations: seq<Relation>

    constructor ()
      ensures relations == []
    {
      relations := [];
    }

    /** Shows the connection that the server has made: last, and the only entry under its id. */
    method ShowConnected(sourceId: string, targetId: string, code: string)
      modifies this
      ensures var x := Optimistic(sourceId, targetId, code);
        && relations != [] && relations[|relations| - 1] == x
        && (forall r :: r in relations <==> r == x || (r in old(relations) && r.relationId != x.relationId))
        && (old(DistinctTriples(relations)) ==> (DistinctTriples(relations) <==> MayShow(old(relations), x)))
    {
      var optimistic := Optimistic(sourceId, targetId, code);
      ghost var before := relations;
      relations := Without(relations, {optimistic.relationId}) + [optimistic];
      if DistinctTriples(before) {
        ShownDistinct(before, optimistic);
      }
    }

    /** Takes relations off the list, in place: the others stay, in their order. */
    method RemoveRelations(ids: set<string>)
      modifies this
      ensures forall r :: r in relations <==> r in old(relations) && r.relationId !in ids
      ensures old(DistinctTriples(relations)) ==> DistinctTriples(relations)
      ensures (forall r :: r in old(relations) ==> r.relationId !in ids) ==> relations == old(relations)
    {
      ghost var before := relations;
      if DistinctTriples(before) {
        WithoutDistinct(before, ids);
      }
      if forall r :: r in before ==> r.relationId !in ids {
        AllStay(before, ids);
      }
      if ids != {} {
        relations := Without(relations, ids);
      }
    }

    /** Merges a reload: everything reloaded, and what no reloaded relation stands for. */
    method MergeReloaded(reloaded: seq<Relation>)
      modifies this
      ensures reloaded <= relations
      ensures forall r :: r in relations <==> r in reloaded || (r in old(relations) && Key(r) !in Keys(reloaded))
      ensures old(DistinctTriples(relations)) ==> (DistinctTriples(relations) <==> DistinctTriples(reloaded))
      ensures UuidEnds(reloaded) && UuidEnds(old(relations)) ==>
        forall x :: HasTriple(relations, x) <==> HasTriple(reloaded, x) || HasTriple(old(relations), x)
    {
      ghost var before := relations;
      var keys := set r | r in reloaded :: Key(r);
      relations := reloaded + NotKeyed(relations, keys);
      if DistinctTriples(before) {
        MergedDistinct(reloaded, before);
      }
      if UuidEnds(reloaded) && UuidEnds(before) {
        UuidsMerge(reloaded, before);
      }
    }
  }

  lemma {:induction false} AllStay(relations: seq<Relation>, ids: set<string>)
    requires forall r :: r in relations ==> r.relationId !in ids
    ensures Without(relations, ids) == relations
  {
    if relations != [] {
      assert relations[0] in relations;
      AllStay(relations[1..], ids);
    }
  }
}
