/** The relations of a diagram: which one a connection makes, and which ones a reload asks for. */
module DiagramRelations {
  import opened Options

  datatype ViewObject = ViewObject(objectId: string, objectType: string)

  datatype RelationType = RelationType(id: string, code: string)

  datatype Relation = Relation(
    relationId: string, relationType: string, sourceId: string, targetId: string, version: nat)

  const BY_ENDPOINT: map<string, string> := map[
    "module->module" := "proposal_depends_on",
    "module->interface" := "proposal_interfaces_with",
    "module->requirement" := "proposal_satisfies",
    "proposal->module" := "proposal_contains_module",
    "proposal_node->module" := "proposal_contains_module",
    "system->module" := "proposal_contains_module",
    "proposal->system" := "proposal_contains_system"]

  function EndpointCode(sourceType: string, targetType: string): Option<string> {
    var key := sourceType + "->" + targetType;
    if key in BY_ENDPOINT then Some(BY_ENDPOINT[key]) else None
  }

  // ---- the relation a connection makes

  datatype Inference =
    | Match(code: string, typeId: string, reversed: bool)
    | NoMatch
    | Ambiguous

  function WithCode(types: seq<RelationType>, code: string): (r: seq<RelationType>)
    ensures forall t :: t in r <==> t in types && t.code == code
  {
    if types == [] then []
    else (if types[0].code == code then [types[0]] else []) + WithCode(types[1..], code)
  }

  function Infer(types: seq<RelationType>, sourceType: string, targetType: string): Inference {
    var forward, reverse := EndpointCode(sourceType, targetType), EndpointCode(targetType, sourceType);
    var code := if forward.Some? then forward else reverse;
    if code.None? then NoMatch
    else
      var matches := WithCode(types, code.value);
      if |matches| == 0 then NoMatch
      else if |matches| > 1 then Ambiguous
      else Match(matches[0].code, matches[0].id, forward.None?)
  }

  datatype Rejection = SelfLoop | Duplicate | Accepted

  function Rejected(sourceId: string, targetId: string, code: string, relations: seq<Relation>): Rejection {
    if sourceId == targetId then SelfLoop
    else if exists r :: r in relations && r.relationType == code && r.sourceId == sourceId && r.targetId == targetId
    then Duplicate
    else Accepted
  }

  // ---- the relation types a reload asks for

  function CodesFrom(source: ViewObject, targets: seq<ViewObject>): seq<string> {
    if targets == [] then []
    else
      var code := EndpointCode(source.objectType, targets[0].objectType);
      (if code.Some? then [code.value] else []) + CodesFrom(source, targets[1..])
  }

  function EndpointCodes(sources: seq<ViewObject>, targets: seq<ViewObject>): seq<string> {
    if sources == [] then [] else CodesFrom(sources[0], targets) + EndpointCodes(sources[1..], targets)
  }

  function Available(types: seq<RelationType>): set<string> {
    set t | t in types :: t.code
  }

  /** The first `n` codes without the empty, the repeated and the unknown ones. */
  function Usable(codes: seq<string>, available: set<string>, n: nat): (r: seq<string>)
    requires n <= |codes|
    ensures forall c :: c in r <==> c in codes[..n] && c != "" && c in available
  {
    if n == 0 then []
    else
      var c := codes[n - 1];
      assert codes[..n] == codes[..n - 1] + [c];
      Usable(codes, available, n - 1) +
        (if c != "" && c !in codes[..n - 1] && c in available then [c] else [])
  }

  function Codes(objects: seq<ViewObject>, relationType: string, types: seq<RelationType>): seq<string> {
    var all := [relationType] + EndpointCodes(objects, objects);
    Usable(all, Available(types), |all|)
  }

  lemma {:induction false} CodesFromHolds(source: ViewObject, targets: seq<ViewObject>, t: ViewObject)
    requires t in targets && EndpointCode(source.objectType, t.objectType).Some?
    ensures EndpointCode(source.objectType, t.objectType).value in CodesFrom(source, targets)
  {
    if t != targets[0] {
      CodesFromHolds(source, targets[1..], t);
    }
  }

  lemma {:induction false} EndpointCodesHold(sources: seq<ViewObject>, targets: seq<ViewObject>, s: ViewObject,
                                             t: ViewObject)
    requires s in sources && t in targets && EndpointCode(s.objectType, t.objectType).Some?
    ensures EndpointCode(s.objectType, t.objectType).value in EndpointCodes(sources, targets)
  {
    if s == sources[0] {
      CodesFromHolds(s, targets, t);
    } else {
      EndpointCodesHold(sources[1..], targets, s, t);
    }
  }

  ghost predicate StandsForSome(sources: seq<ViewObject>, targets: seq<ViewObject>, code: string) {
    exists s, t :: s in sources && t in targets && EndpointCode(s.objectType, t.objectType) == Some(code)
  }

  lemma {:induction false} CodesFromOnly(source: ViewObject, targets: seq<ViewObject>, code: string)
    requires code in CodesFrom(source, targets)
    ensures exists t :: t in targets && EndpointCode(source.objectType, t.objectType) == Some(code)
  {
    if EndpointCode(source.objectType, targets[0].objectType) != Some(code) {
      CodesFromOnly(source, targets[1..], code);
    }
  }

  lemma {:induction false} EndpointCodesOnly(sources: seq<ViewObject>, targets: seq<ViewObject>, code: string)
    requires code in EndpointCodes(sources, targets)
    ensures StandsForSome(sources, targets, code)
  {
    if code in CodesFrom(sources[0], targets) {
      CodesFromOnly(sources[0], targets, code);
    } else {
      EndpointCodesOnly(sources[1..], targets, code);
      var s, t :| s in sources[1..] && t in targets && EndpointCode(s.objectType, t.objectType) == Some(code);
      assert s in sources;
    }
  }

  /** A reload asks for a type exactly when it is known and is the diagram's own, or stands for two
      visible objects. */
  lemma CodesExactly(objects: seq<ViewObject>, relationType: string, types: seq<RelationType>, code: string)
    ensures code in Codes(objects, relationType, types) <==>
      && code != "" && code in Available(types)
      && (code == relationType || StandsForSome(objects, objects, code))
  {
    var all := [relationType] + EndpointCodes(objects, objects);
    assert all[..|all|] == all;
    if code in EndpointCodes(objects, objects) {
      EndpointCodesOnly(objects, objects, code);
    }
    if StandsForSome(objects, objects, code) {
      var s, t :| s in objects && t in objects && EndpointCode(s.objectType, t.objectType) == Some(code);
      EndpointCodesHold(objects, objects, s, t);
    }
  }

  lemma EndpointNotEmpty(s: string, t: string)
    ensures EndpointCode(s, t) != Some("")
  {
  }

  // ---- what one query of a reload returns

  function Ids(objects: seq<ViewObject>, n: nat): (r: seq<string>)
    requires n <= |objects|
    ensures forall id :: id in r <==> exists o :: o in objects[..n] && o.objectId == id
  {
    if n == 0 then []
    else
      var id, before := objects[n - 1].objectId, Ids(objects, n - 1);
      assert objects[..n] == objects[..n - 1] + [objects[n - 1]];
      assert objects[n - 1] in objects[..n];
      if id in before then before else before + [id]
  }

  /** The relations of a type that leave an object. */
  function Out(server: seq<Relation>, code: string, sourceId: string): (r: seq<Relation>)
    ensures forall x :: x in r <==> x in server && x.relationType == code && x.sourceId == sourceId
  {
    if server == [] then []
    else
      (if server[0].relationType == code && server[0].sourceId == sourceId then [server[0]] else []) +
      Out(server[1..], code, sourceId)
  }

  /** One step from the root, or two: the relations of the type within depth two. */
  predicate WithinTwo(server: seq<Relation>, code: string, rootId: string, r: Relation) {
    r.relationType == code &&
      (r.sourceId == rootId ||
       exists x :: x in server && x.relationType == code && x.sourceId == rootId && x.targetId == r.sourceId)
  }

  function OutTwo(all: seq<Relation>, server: seq<Relation>, code: string, rootId: string): (r: seq<Relation>)
    ensures forall x :: x in r <==> x in server && WithinTwo(all, code, rootId, x)
  {
    if server == [] then []
    else
      (if WithinTwo(all, code, rootId, server[0]) then [server[0]] else []) +
      OutTwo(all, server[1..], code, rootId)
  }

  /** Puts a relation in a list keyed by relation id: in place of the one with its id, or at the end. */
  function Put(relations: seq<Relation>, x: Relation): seq<Relation> {
    if relations == [] then [x]
    else if relations[0].relationId == x.relationId then [x] + relations[1..]
    else [relations[0]] + Put(relations[1..], x)
  }

  function UniqueById(relations: seq<Relation>): seq<Relation> {
    if relations == [] then [] else Put(UniqueById(relations[..|relations| - 1]), relations[|relations| - 1])
  }

  datatype Query = Query(
    relationType: string, types: seq<RelationType>, root: Option<string>, objects: seq<ViewObject>)

  function QueryCodes(q: Query): seq<string> {
    Codes(q.objects, q.relationType, q.types)
  }

  // ---- relations kept apart

  ghost predicate DistinctIds(relations: seq<Relation>) {
    forall i, j :: 0 <= i < j < |relations| ==> relations[i].relationId != relations[j].relationId
  }

  predicate SameTriple(a: Relation, b: Relation) {
    a.relationType == b.relationType && a.sourceId == b.sourceId && a.targetId == b.targetId
  }

  ghost predicate DistinctTriples(relations: seq<Relation>) {
    forall i, j :: 0 <= i < j < |relations| ==> !SameTriple(relations[i], relations[j])
  }

  /** The server: relation ids are its own, and at most one active relation joins two objects with a type. */
  ghost predicate ServerKeeps(server: seq<Relation>) {
    DistinctIds(server) && DistinctTriples(server)
  }

  lemma {:induction false} PutMembers(relations: seq<Relation>, x: Relation, r: Relation)
    requires DistinctIds(relations)
    ensures r in Put(relations, x) <==> r == x || (r in relations && r.relationId != x.relationId)
  {
    if relations != [] {
      if relations[0].relationId != x.relationId {
        PutMembers(relations[1..], x, r);
      } else if r in relations[1..] {
        var i :| 0 <= i < |relations[1..]| && relations[1..][i] == r;
        assert relations[i + 1] == r;
      }
    }
  }

  lemma {:induction false} PutDistinct(relations: seq<Relation>, x: Relation)
    requires DistinctIds(relations)
    ensures DistinctIds(Put(relations, x))
  {
    if relations != [] && relations[0].relationId != x.relationId {
      var rest := Put(relations[1..], x);
      PutDistinct(relations[1..], x);
      forall k | 0 <= k < |rest|
        ensures relations[0].relationId != rest[k].relationId
      {
        PutMembers(relations[1..], x, rest[k]);
      }
    }
  }

  /** The last state that is found under a relation id. */
  ghost predicate LastOfId(found: seq<Relation>, r: Relation) {
    exists i :: 0 <= i < |found| && found[i] == r && NoneAfter(found, i)
  }

  predicate NoneAfter(found: seq<Relation>, i: nat)
    requires i < |found|
  {
    forall j :: i < j < |found| ==> found[j].relationId != found[i].relationId
  }

  lemma LastNext(before: seq<Relation>, x: Relation, r: Relation)
    ensures LastOfId(before + [x], r) <==> r == x || (LastOfId(before, r) && r.relationId != x.relationId)
  {
    var all, n := before + [x], |before|;
    assert all[n] == x && NoneAfter(all, n);
    if LastOfId(before, r) && r.relationId != x.relationId {
      var i :| 0 <= i < n && before[i] == r && NoneAfter(before, i);
      assert all[i] == r && NoneAfter(all, i);
    }
    if LastOfId(all, r) && r != x {
      var i :| 0 <= i < |all| && all[i] == r && NoneAfter(all, i);
      assert i < n && all[n].relationId != all[i].relationId;
      forall j | i < j < n
        ensures before[j].relationId != before[i].relationId
      {
        assert all[j].relationId != all[i].relationId;
      }
      assert before[i] == r && NoneAfter(before, i);
    }
  }

  /** Keeping one entry per id keeps exactly the last state found under each. */
  lemma {:induction false} UniqueKeeps(found: seq<Relation>, r: Relation)
    ensures DistinctIds(UniqueById(found))
    ensures r in UniqueById(found) <==> LastOfId(found, r)
  {
    if found != [] {
      var n := |found| - 1;
      var before, x := found[..n], found[n];
      assert found == before + [x];
      UniqueKeeps(before, r);
      PutDistinct(UniqueById(before), x);
      PutMembers(UniqueById(before), x, r);
      LastNext(before, x, r);
    }
  }

  /** A state is the last of its id when what is found from some place on knows the id in no other state. */
  lemma {:induction false} LastInTail(a: seq<Relation>, b: seq<Relation>, r: Relation)
    requires r in b && forall x :: x in b && x.relationId == r.relationId ==> x == r
    ensures LastOfId(a + b, r)
  {
    var n := |b| - 1;
    assert a + b == (a + b[..n]) + [b[n]];
    LastNext(a + b[..n], b[n], r);
    if r != b[n] {
      assert b == b[..n] + [b[n]];
      LastInTail(a, b[..n], r);
    }
  }

  /** Some state is the last of every id that is found. */
  lemma {:induction false} SomeLast(found: seq<Relation>, r: Relation) returns (x: Relation)
    requires r in found
    ensures LastOfId(found, x) && x.relationId == r.relationId
  {
    var n := |found| - 1;
    assert found == found[..n] + [found[n]];
    x := found[n];
    if found[n].relationId != r.relationId {
      x := SomeLast(found[..n], r);
    }
    LastNext(found[..n], found[n], x);
  }

  lemma MembersOfDistinct(server: seq<Relation>, a: Relation, b: Relation)
    requires ServerKeeps(server) && a in server && b in server
    ensures a.relationId == b.relationId ==> a == b
    ensures SameTriple(a, b) ==> a == b
  {
    var i :| 0 <= i < |server| && server[i] == a;
    var j :| 0 <= j < |server| && server[j] == b;
    if i < j {
      assert !SameTriple(server[i], server[j]);
    } else if j < i {
      assert !SameTriple(server[j], server[i]);
    }
  }

  /** The object a connection's relation leaves, and the one it enters. */
  function FromOf(inference: Inference, source: ViewObject, target: ViewObject): ViewObject
    requires inference.Match?
  {
    if inference.reversed then target else source
  }

  function ToOf(inference: Inference, source: ViewObject, target: ViewObject): ViewObject
    requires inference.Match?
  {
    if inference.reversed then source else target
  }

  /** The relation type a connection picks is the one its endpoints, as oriented, stand for. */
  lemma InferredEndpoint(types: seq<RelationType>, source: ViewObject, target: ViewObject)
    requires Infer(types, source.objectType, target.objectType).Match?
    ensures var m := Infer(types, source.objectType, target.objectType);
      && EndpointCode(FromOf(m, source, target).objectType, ToOf(m, source, target).objectType) == Some(m.code)
      && exists t :: t in types && t.code == m.code && t.id == m.typeId
  {
    var forward := EndpointCode(source.objectType, target.objectType);
    var reverse := EndpointCode(target.objectType, source.objectType);
    var code := if forward.Some? then forward.value else reverse.value;
    assert WithCode(types, code)[0] in WithCode(types, code);
  }

  /** A reload asks for the type of every relation that a connection between two visible objects can make. */
  lemma ConnectableQueried(q: Query, source: ViewObject, target: ViewObject)
    requires source in q.objects && target in q.objects
    requires Infer(q.types, source.objectType, target.objectType).Match?
    ensures Infer(q.types, source.objectType, target.objectType).code in QueryCodes(q)
  {
    var m := Infer(q.types, source.objectType, target.objectType);
    var from, to := FromOf(m, source, target), ToOf(m, source, target);
    InferredEndpoint(q.types, source, target);
    EndpointNotEmpty(from.objectType, to.objectType);
    CodesExactly(q.objects, q.relationType, q.types, m.code);
  }
}
