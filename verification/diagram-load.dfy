/** Loading the relations of a diagram: many queries, each answered by the read model at its own moment. */
module DiagramLoad {
  import opened Options
  import opened DiagramRelations

  /** The read model's relations at every moment so far, and the moment at which each query is answered;
      a moment beyond the views is the last one. Nothing is assumed of the views. */
  datatype Readings = Readings(views: seq<seq<Relation>>, visible: map<(string, string), nat>, root: nat)

  function At(views: seq<seq<Relation>>, moment: nat): seq<Relation> {
    if moment < |views| then views[moment]
    else if views == [] then []
    else views[|views| - 1]
  }

  /** What answers the query for the relations of a type from a source. */
  function ViewFor(readings: Readings, code: string, sourceId: string): seq<Relation> {
    At(readings.views,
       if (code, sourceId) in readings.visible then readings.visible[(code, sourceId)] else |readings.views|)
  }

  function FromSource(readings: Readings, codes: seq<string>, sourceId: string): (r: seq<Relation>)
    ensures forall x :: x in r <==>
      x.relationType in codes && x.sourceId == sourceId && x in ViewFor(readings, x.relationType, x.sourceId)
  {
    if codes == [] then []
    else Out(ViewFor(readings, codes[0], sourceId), codes[0], sourceId) + FromSource(readings, codes[1..], sourceId)
  }

  function FromSources(readings: Readings, codes: seq<string>, sourceIds: seq<string>): (r: seq<Relation>)
    ensures forall x :: x in r <==>
      x.relationType in codes && x.sourceId in sourceIds && x in ViewFor(readings, x.relationType, x.sourceId)
  {
    if sourceIds == [] then []
    else FromSource(readings, codes, sourceIds[0]) + FromSources(readings, codes, sourceIds[1..])
  }

  function SourceIds(q: Query): seq<string> {
    Ids(q.objects, |q.objects|)
  }

  /** The relations of queried types from visible objects. */
  function Visible(readings: Readings, q: Query): seq<Relation> {
    FromSources(readings, QueryCodes(q), SourceIds(q))
  }

  /** The relations of the diagram's type within two steps of the root. */
  function FromRoot(readings: Readings, q: Query): (r: seq<Relation>)
    ensures forall x :: x in r ==> x in At(readings.views, readings.root) && x.relationType == q.relationType
  {
    if q.root.Some? && q.root.value != "" && q.relationType in QueryCodes(q) then
      var view := At(readings.views, readings.root);
      OutTwo(view, view, q.relationType, q.root.value)
    else []
  }

  /** All answers, in the order in which they are put together. */
  function Found(readings: Readings, q: Query): (r: seq<Relation>)
    ensures forall x :: x in r <==> x in Visible(readings, q) || x in FromRoot(readings, q)
  {
    Visible(readings, q) + FromRoot(readings, q)
  }

  function Loaded(readings: Readings, q: Query): seq<Relation> {
    UniqueById(Found(readings, q))
  }

  // ---- what a load returns

  /** A load returns, for each id once, the last state found: among the relations of queried types that left a
      visible object when their query was answered, and then those within two steps of the root when that was. */
  lemma LoadedExactly(readings: Readings, q: Query, r: Relation)
    ensures DistinctIds(Loaded(readings, q))
    ensures r in Loaded(readings, q) <==> LastOfId(Found(readings, q), r)
    ensures r in Visible(readings, q) <==>
      && r.relationType in QueryCodes(q) && r.sourceId in SourceIds(q)
      && r in ViewFor(readings, r.relationType, r.sourceId)
    ensures r in FromRoot(readings, q) <==>
      && q.root.Some? && q.root.value != "" && q.relationType in QueryCodes(q)
      && r in At(readings.views, readings.root)
      && WithinTwo(At(readings.views, readings.root), q.relationType, q.root.value, r)
  {
    UniqueKeeps(Found(readings, q), r);
  }

  /** No two relations are last found with the same source, target and type. */
  ghost predicate Agrees(readings: Readings, q: Query) {
    forall a, b :: LastOfId(Found(readings, q), a) && LastOfId(Found(readings, q), b) && SameTriple(a, b) ==>
      a.relationId == b.relationId
  }

  lemma OnlyOne(list: seq<Relation>, x: Relation)
    requires DistinctTriples(list) && x in list
    ensures forall r :: r in list && SameTriple(r, x) ==> r == x
  {
    var i :| 0 <= i < |list| && list[i] == x;
    forall r | r in list && SameTriple(r, x)
      ensures r == x
    {
      var j :| 0 <= j < |list| && list[j] == r;
      assert SameTriple(list[i], list[j]) && SameTriple(list[j], list[i]);
      assert i == j;
    }
  }

  /** Whatever the read model shows, a load returns at most one relation per source, target and type exactly
      when its answers agree. */
  lemma LoadedAgrees(readings: Readings, q: Query)
    ensures DistinctTriples(Loaded(readings, q)) <==> Agrees(readings, q)
  {
    var l := Loaded(readings, q);
    if Agrees(readings, q) {
      forall i, j | 0 <= i < j < |l|
        ensures !SameTriple(l[i], l[j])
      {
        LoadedExactly(readings, q, l[i]);
        LoadedExactly(readings, q, l[j]);
      }
    }
    if DistinctTriples(l) {
      forall a, b | LastOfId(Found(readings, q), a) && LastOfId(Found(readings, q), b) && SameTriple(a, b)
        ensures a.relationId == b.relationId
      {
        LoadedExactly(readings, q, a);
        LoadedExactly(readings, q, b);
        OnlyOne(l, b);
      }
    }
  }

  // ---- views that the kernel could have

  /** Every view has each id once, and one relation per source, target and type. */
  ghost predicate AllKept(views: seq<seq<Relation>>) {
    forall k :: 0 <= k < |views| ==> ServerKeeps(views[k])
  }

  lemma AtKept(views: seq<seq<Relation>>, moment: nat)
    requires AllKept(views)
    ensures ServerKeeps(At(views, moment))
  {
  }

  /** No relation that a query of a visible object found last in this state is also told of by the root query
      under another id. */
  ghost predicate RootAgrees(readings: Readings, q: Query) {
    forall a, b :: a in Visible(readings, q) && LastOfId(Found(readings, q), a) && b in FromRoot(readings, q) ==>
      (SameTriple(a, b) ==> a.relationId == b.relationId)
  }

  lemma VisibleApart(readings: Readings, q: Query, a: Relation, b: Relation)
    requires AllKept(readings.views) && a in Visible(readings, q) && b in Visible(readings, q) && SameTriple(a, b)
    ensures a == b
  {
    var view := ViewFor(readings, a.relationType, a.sourceId);
    assert a in view && b in view;
    MembersOfDistinct(view, a, b);
  }

  lemma RootApart(readings: Readings, q: Query, a: Relation, b: Relation)
    requires AllKept(readings.views) && a in FromRoot(readings, q) && b in FromRoot(readings, q)
    ensures SameTriple(a, b) || a.relationId == b.relationId ==> a == b
  {
    AtKept(readings.views, readings.root);
    MembersOfDistinct(At(readings.views, readings.root), a, b);
  }

  lemma RootIsLast(readings: Readings, q: Query, b: Relation)
    requires AllKept(readings.views) && b in FromRoot(readings, q)
    ensures LastOfId(Found(readings, q), b)
  {
    forall x | x in FromRoot(readings, q) && x.relationId == b.relationId
      ensures x == b
    {
      RootApart(readings, q, x, b);
    }
    LastInTail(Visible(readings, q), FromRoot(readings, q), b);
  }

  /** With such views, relations can only be repeated by the root query: a load returns at most one per source,
      target and type exactly when that query agrees with what the others found and nothing overwrote. */
  lemma LoadedDistinctExactly(readings: Readings, q: Query)
    requires AllKept(readings.views)
    ensures DistinctTriples(Loaded(readings, q)) <==> RootAgrees(readings, q)
  {
    LoadedAgrees(readings, q);
    if Agrees(readings, q) {
      forall a, b | a in Visible(readings, q) && b in FromRoot(readings, q) && SameTriple(a, b) &&
                    LastOfId(Found(readings, q), a)
        ensures a.relationId == b.relationId
      {
        RootIsLast(readings, q, b);
      }
    }
    if RootAgrees(readings, q) {
      forall a, b | LastOfId(Found(readings, q), a) && LastOfId(Found(readings, q), b) && SameTriple(a, b)
        ensures a.relationId == b.relationId
      {
        LastApart(readings, q, a, b);
      }
    }
  }

  lemma LastApart(readings: Readings, q: Query, a: Relation, b: Relation)
    requires AllKept(readings.views) && RootAgrees(readings, q) && SameTriple(a, b)
    requires LastOfId(Found(readings, q), a) && LastOfId(Found(readings, q), b)
    ensures a.relationId == b.relationId
  {
    if a in Visible(readings, q) && b in Visible(readings, q) {
      VisibleApart(readings, q, a, b);
    } else if a in FromRoot(readings, q) && b in FromRoot(readings, q) {
      RootApart(readings, q, a, b);
    } else {
      assert SameTriple(b, a);
    }
  }

  /** The queries of the diagram's type are answered at the moment of the root query. */
  ghost predicate OneMoment(readings: Readings, q: Query) {
    forall id :: id in SourceIds(q) ==>
      ViewFor(readings, q.relationType, id) == At(readings.views, readings.root)
  }

  lemma OneMomentAgrees(readings: Readings, q: Query)
    requires AllKept(readings.views) && OneMoment(readings, q)
    ensures Agrees(readings, q)
  {
    forall a, b | a in Visible(readings, q) && b in FromRoot(readings, q) && SameTriple(a, b)
      ensures a.relationId == b.relationId
    {
      assert a in ViewFor(readings, q.relationType, a.sourceId) && a.sourceId in SourceIds(q);
      AtKept(readings.views, readings.root);
      MembersOfDistinct(At(readings.views, readings.root), a, b);
    }
    LoadedDistinctExactly(readings, q);
    LoadedAgrees(readings, q);
  }

  // ---- queries at different moments

  lemma AskedFor(q: Query, o: ViewObject)
    requires o in q.objects && q.relationType != "" && exists t :: t in q.types && t.code == q.relationType
    ensures q.relationType in QueryCodes(q) && o.objectId in SourceIds(q)
  {
    CodesExactly(q.objects, q.relationType, q.types, q.relationType);
    assert q.objects[..|q.objects|] == q.objects;
  }

  /** A relation deleted and made again between the two queries comes back twice. */
  lemma RootCanDisagree(a: Relation, b: Relation, types: seq<RelationType>, o: ViewObject)
    requires SameTriple(a, b) && a.relationId != b.relationId && a.sourceId != "" && o.objectId == a.sourceId
    requires a.relationType != "" && exists t :: t in types && t.code == a.relationType
    ensures var q := Query(a.relationType, types, Some(a.sourceId), [o]);
      var readings := Readings([[a], [], [b]], map[(a.relationType, a.sourceId) := 0], 2);
      AllKept(readings.views) && !DistinctTriples(Loaded(readings, q))
  {
    var q := Query(a.relationType, types, Some(a.sourceId), [o]);
    var readings := Readings([[a], [], [b]], map[(a.relationType, a.sourceId) := 0], 2);
    AskedFor(q, o);
    assert ViewFor(readings, a.relationType, a.sourceId) == [a] && a in Visible(readings, q);
    assert At(readings.views, 2) == [b] && WithinTwo([b], q.relationType, a.sourceId, b);
    assert b in OutTwo([b], [b], q.relationType, a.sourceId);
    RootIsLast(readings, q, b);
    FoundLast(readings, q, a);
    LoadedAgrees(readings, q);
  }

  lemma FoundLast(readings: Readings, q: Query, a: Relation)
    requires a in Found(readings, q) && forall x :: x in Found(readings, q) && x.relationId == a.relationId ==> x == a
    ensures LastOfId(Found(readings, q), a)
  {
    assert [] + Found(readings, q) == Found(readings, q);
    LastInTail([], Found(readings, q), a);
  }

  /** An update never changes the type of a relation. */
  ghost predicate TypeKept(views: seq<seq<Relation>>, id: string, code: string) {
    forall k, x :: 0 <= k < |views| && x in views[k] ==> (x.relationId == id ==> x.relationType == code)
  }

  lemma OnlyState(readings: Readings, q: Query, stale: Relation, from: string)
    requires AllKept(readings.views) && TypeKept(readings.views, stale.relationId, stale.relationType)
    requires stale in ViewFor(readings, stale.relationType, from)
    ensures forall x :: x in FromSource(readings, QueryCodes(q), from) && x.relationId == stale.relationId ==>
      x == stale
  {
    forall x | x in FromSource(readings, QueryCodes(q), from) && x.relationId == stale.relationId
      ensures x == stale
    {
      assert x.relationType == stale.relationType;
      MembersOfDistinct(ViewFor(readings, stale.relationType, from), x, stale);
    }
  }

  /** A relation moved from one visible object to another that is asked before: when the answer about the new
      end is from after the move and the one about the old end from before it, the load returns the old state
      although it has read the new one. */
  lemma OldStateWins(readings: Readings, q: Query, stale: Relation, moved: Relation)
    requires AllKept(readings.views) && TypeKept(readings.views, stale.relationId, stale.relationType)
    requires stale.relationId == moved.relationId && stale.relationType == moved.relationType
    requires SourceIds(q) == [moved.sourceId, stale.sourceId] && moved.sourceId != stale.sourceId && q.root.None?
    requires stale.relationType in QueryCodes(q)
    requires moved in ViewFor(readings, moved.relationType, moved.sourceId)
    requires stale in ViewFor(readings, stale.relationType, stale.sourceId)
    ensures moved in Found(readings, q) && stale in Loaded(readings, q) && moved !in Loaded(readings, q)
  {
    var codes, to, from := QueryCodes(q), moved.sourceId, stale.sourceId;
    assert [to, from][1..] == [from] && [from][1..] == [];
    assert FromSources(readings, codes, [from]) == FromSource(readings, codes, from) + FromSources(readings, codes, []);
    assert Found(readings, q) == FromSource(readings, codes, to) + FromSource(readings, codes, from);
    OnlyState(readings, q, stale, from);
    LastInTail(FromSource(readings, codes, to), FromSource(readings, codes, from), stale);
    UniqueKeeps(Found(readings, q), stale);
    if LastOfId(Found(readings, q), moved) {
      OneLast(Found(readings, q), stale, moved);
    }
    UniqueKeeps(Found(readings, q), moved);
  }

  lemma OneLast(found: seq<Relation>, a: Relation, b: Relation)
    requires LastOfId(found, a) && LastOfId(found, b) && a.relationId == b.relationId
    ensures a == b
  {
    var i :| 0 <= i < |found| && found[i] == a && NoneAfter(found, i);
    var j :| 0 <= j < |found| && found[j] == b && NoneAfter(found, j);
  }

  // ---- what a connection makes is loaded

  /** As soon as the query for its source and type has caught up, a load returns every relation that a
      connection between two visible objects can make, unless a later answer has another state of it. */
  lemma ConnectedIsLoaded(readings: Readings, q: Query, source: ViewObject, target: ViewObject, r: Relation)
    requires source in q.objects && target in q.objects
    requires Infer(q.types, source.objectType, target.objectType).Match?
    requires var m := Infer(q.types, source.objectType, target.objectType);
      r.relationType == m.code && r.sourceId == FromOf(m, source, target).objectId
    requires r in ViewFor(readings, r.relationType, r.sourceId)
    ensures r in Loaded(readings, q) <==> LastOfId(Found(readings, q), r)
    ensures exists x :: x in Loaded(readings, q) && x.relationId == r.relationId
  {
    var m := Infer(q.types, source.objectType, target.objectType);
    var from := FromOf(m, source, target);
    ConnectableQueried(q, source, target);
    assert q.objects[..|q.objects|] == q.objects;
    assert from in q.objects[..|q.objects|];
    LoadedExactly(readings, q, r);
    var x := SomeLast(Found(readings, q), r);
    LoadedExactly(readings, q, x);
  }
}
