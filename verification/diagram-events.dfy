/** What each event of a diagram does to the kernel, to the connections under way and to the list. */
module DiagramEvents {
  import opened Options
  import opened DiagramRelations
  import opened DiagramLoad
  import opened DiagramList

  /** The relations that are active in the kernel now. */
  function Now(w: World): seq<Relation> {
    if w.history == [] then [] else w.history[|w.history| - 1]
  }

  /** The kernel can make this relation: under an id it never gave, between two objects, and where no active relation
      has the same ends and type. */
  ghost predicate CanMake(w: World, x: Relation) {
    && (forall k, r :: 0 <= k < |w.history| && r in w.history[k] ==> r.relationId != x.relationId)
    && x.sourceId != x.targetId
    && forall r :: r in Now(w) ==>
        r.relationType != x.relationType || r.sourceId != x.sourceId || r.targetId != x.targetId
  }

  lemma AcceptsExactly(w: World, x: Relation)
    ensures Accepts(w, x) <==> CanMake(w, x)
  {
    assert Now(w) == Server(w);
    forall r: Relation
      ensures SameTriple(r, x) <==>
        r.relationType == x.relationType && r.sourceId == x.sourceId && r.targetId == x.targetId
    {
    }
    if Accepts(w, x) {
      forall k, r | 0 <= k < |w.history| && r in w.history[k]
        ensures r.relationId != x.relationId
      {
        assert NewId(w.history, x.relationId);
      }
    }
  }

  /** A relation is made exactly when the kernel can make it, and then joins the active ones. */
  lemma CreateExactly(w: World, x: Relation)
    ensures Step(w, Create(x)) == if CanMake(w, x) then w.(history := w.history + [Now(w) + [x]]) else w
  {
    AcceptsExactly(w, x);
  }

  /** Another active relation stands where the relation with this id would go. */
  ghost predicate Taken(w: World, id: string, sourceId: string, targetId: string) {
    exists r, other :: r in Now(w) && other in Now(w) && r.relationId == id && other.relationId != id &&
      other.relationType == r.relationType && other.sourceId == sourceId && other.targetId == targetId
  }

  /** The relation at this place after the one with this id was moved. */
  predicate MovedTo(before: Relation, after: Relation, id: string, sourceId: string, targetId: string) {
    if before.relationId == id
    then after == Relation(id, before.relationType, sourceId, targetId, before.version + 1)
    else after == before
  }

  lemma MayUpdateExactly(w: World, id: string, sourceId: string, targetId: string)
    ensures MayUpdate(Server(w), id, sourceId, targetId) <==> sourceId != targetId && !Taken(w, id, sourceId, targetId)
  {
    if sourceId != targetId && !MayUpdate(Server(w), id, sourceId, targetId) {
      var r, other :| r in Now(w) && other in Now(w) && r.relationId == id && other.relationId != id &&
        SameTriple(DiagramList.Moved(r, sourceId, targetId), other);
      TripleOf(r, sourceId, targetId, other);
    }
    if Taken(w, id, sourceId, targetId) {
      var r, other :| r in Now(w) && other in Now(w) && r.relationId == id && other.relationId != id &&
        other.relationType == r.relationType && other.sourceId == sourceId && other.targetId == targetId;
      TripleOf(r, sourceId, targetId, other);
    }
  }

  lemma TripleOf(r: Relation, sourceId: string, targetId: string, other: Relation)
    ensures SameTriple(DiagramList.Moved(r, sourceId, targetId), other) <==>
      other.relationType == r.relationType && other.sourceId == sourceId && other.targetId == targetId
  {
  }

  /** A relation is given other ends exactly when they are two objects and no other active relation has them with its
      type; it keeps its id and its type, gets the next version, and nothing else changes. */
  lemma UpdateExactly(w: World, id: string, sourceId: string, targetId: string)
    ensures var after := Step(w, Update(id, sourceId, targetId));
      if sourceId == targetId || Taken(w, id, sourceId, targetId) then after == w
      else
        && after == w.(history := after.history) && |after.history| == |w.history| + 1
        && after.history[..|w.history|] == w.history
        && |Now(after)| == |Now(w)|
        && forall i :: 0 <= i < |Now(w)| ==> MovedTo(Now(w)[i], Now(after)[i], id, sourceId, targetId)
  {
    MayUpdateExactly(w, id, sourceId, targetId);
  }

  /** A deleted relation is no longer active, and all others are. */
  lemma DeleteExactly(w: World, id: string, x: Relation)
    ensures var after := Step(w, Delete(id));
      && after == w.(history := w.history + [Now(after)])
      && (x in Now(after) <==> x in Now(w) && x.relationId != id)
  {
  }

  /** A connection is asked for exactly when its number is free, it joins two objects, and the list shows no relation
      with the same ends and type. */
  lemma AskExactly(w: World, k: nat, sourceId: string, targetId: string, code: string)
    ensures Step(w, Ask(k, sourceId, targetId, code)) ==
      if k in w.attempts || sourceId == targetId ||
         exists r :: r in w.list && r.relationType == code && r.sourceId == sourceId && r.targetId == targetId
      then w else w.(attempts := w.attempts[k := Attempt(sourceId, targetId, code, false)])
  {
  }

  /** The kernel answers a request by making the relation under the id it gives, or else the request ends. */
  lemma AnswerExactly(w: World, k: nat, id: string)
    requires k in w.attempts && !w.attempts[k].made
    ensures var a := w.attempts[k];
      var x := Relation(id, a.code, a.sourceId, a.targetId, 1);
      Step(w, Answer(k, id)) ==
      if CanMake(w, x)
      then w.(history := w.history + [Now(w) + [x]],
              attempts := w.attempts[k := Attempt(a.sourceId, a.targetId, a.code, true)])
      else w.(attempts := w.attempts - {k})
  {
    var a := w.attempts[k];
    AcceptsExactly(w, Relation(id, a.code, a.sourceId, a.targetId, 1));
  }

  /** A connection that was made is shown as the last entry of the list, in place of any entry under its id; the id is
      put together from its ends and its type. */
  lemma ShowExactly(w: World, k: nat, x: Relation)
    requires k in w.attempts && w.attempts[k].made
    ensures var a, after := w.attempts[k], Step(w, Show(k));
      var id := "optimistic-rel:" + (a.sourceId + "->" + a.targetId + ":" + a.code);
      && after == w.(list := after.list, attempts := w.attempts - {k})
      && after.list != [] && after.list[|after.list| - 1] == Relation(id, a.code, a.sourceId, a.targetId, 1)
      && (x in after.list[..|after.list| - 1] <==> x in w.list && x.relationId != id)
  {
    var a := w.attempts[k];
    var entry := AttemptOf(a);
    var rest := Without(w.list, {entry.relationId});
    assert Step(w, Show(k)).list == rest + [entry];
    assert (rest + [entry])[..|rest|] == rest;
  }

  lemma SamePrefix(prefix: string, a: string, b: string)
    requires prefix + a == prefix + b
    ensures a == b
  {
    assert a == (prefix + a)[|prefix|..] && b == (prefix + b)[|prefix|..];
  }

  /** Between objects with UUIDs, connections are shown under one id exactly when they have the same ends and type, and
      never under an id that is a UUID itself. */
  lemma EntryIdsTell(a: Attempt, b: Attempt)
    requires IsUuid(a.sourceId) && IsUuid(a.targetId) && IsUuid(b.sourceId) && IsUuid(b.targetId)
    ensures AttemptOf(a).relationId == AttemptOf(b).relationId <==>
      a.sourceId == b.sourceId && a.targetId == b.targetId && a.code == b.code
    ensures !IsUuid(AttemptOf(a).relationId)
  {
    var x, y := Relation("", a.code, a.sourceId, a.targetId, 1), Relation("", b.code, b.sourceId, b.targetId, 1);
    PlainKeysTell(x, y);
    if AttemptOf(a).relationId == AttemptOf(b).relationId {
      SamePrefix("optimistic-rel:", Key(x), Key(y));
    }
    assert AttemptOf(a).relationId[0] == 'o';
  }

  /** The ids that the kernel issues are among those: groups of hexadecimal digits with dashes between them. */
  predicate Hyphenated(s: string) {
    && |s| == 36 && (forall i :: i in {8, 13, 18, 23} ==> s[i] == '-')
    && forall i :: 0 <= i < 36 && i !in {8, 13, 18, 23} ==> s[i] in "0123456789abcdef"
  }

  lemma HyphenatedUuid(s: string)
    requires Hyphenated(s)
    ensures IsUuid(s)
  {
    forall i | 0 <= i < |s|
      ensures s[i] == '-' || '0' <= s[i] <= '9' || 'a' <= s[i] <= 'f'
    {
      if i !in {8, 13, 18, 23} {
        HexDigit(s[i]);
      }
    }
  }

  lemma HexDigit(c: char)
    requires c in "0123456789abcdef"
    ensures '0' <= c <= '9' || 'a' <= c <= 'f'
  {
  }

  // ---- within two steps of the root

  /** Relations of a type, each leaving the object that the one before it enters, the first one the root. */
  ghost predicate Walk(view: seq<Relation>, code: string, from: string, walk: seq<Relation>)
    decreases |walk|
  {
    walk == [] ||
    (walk[0] in view && walk[0].relationType == code && walk[0].sourceId == from &&
     Walk(view, code, walk[0].targetId, walk[1..]))
  }

  /** A relation of the view is within two steps of the root exactly when a walk of one or two relations of the type
      ends with it. */
  lemma WithinTwoExactly(view: seq<Relation>, code: string, rootId: string, r: Relation)
    requires r in view
    ensures WithinTwo(view, code, rootId, r) <==>
      exists walk: seq<Relation> :: 1 <= |walk| <= 2 && walk[|walk| - 1] == r && Walk(view, code, rootId, walk)
  {
    if WithinTwo(view, code, rootId, r) {
      if r.sourceId == rootId {
        assert Walk(view, code, rootId, [r]);
      } else {
        var x :| x in view && x.relationType == code && x.sourceId == rootId && x.targetId == r.sourceId;
        assert [x, r][1..] == [r] && Walk(view, code, r.sourceId, [r]);
        assert Walk(view, code, rootId, [x, r]);
      }
    }
    forall walk: seq<Relation> | 1 <= |walk| <= 2 && walk[|walk| - 1] == r && Walk(view, code, rootId, walk)
      ensures WithinTwo(view, code, rootId, r)
    {
      if |walk| == 2 {
        assert Walk(view, code, walk[0].targetId, walk[1..]);
        assert walk[1..][0] == r;
      }
    }
  }

  // ---- connections made at once are runs of events

  function Spelling(acts: seq<Act>): seq<Event> {
    if acts == [] then [] else Spelled(acts[0]) + Spelling(acts[1..])
  }

  lemma {:induction false} RunJoined(w: World, a: seq<Event>, b: seq<Event>)
    ensures Run(w, a + b) == Run(Run(w, a), b)
    decreases |a|
  {
    if a == [] {
      assert a + b == b;
    } else {
      assert (a + b)[1..] == a[1..] + b;
      RunJoined(Step(w, a[0]), a[1..], b);
    }
  }

  /** A run of connections made at once is the run of their events. */
  lemma {:induction false} PerformedExactly(w: World, acts: seq<Act>)
    ensures PerformAll(w, acts) == Run(w, Spelling(acts))
    decreases |acts|
  {
    if acts != [] {
      RunJoined(w, Spelled(acts[0]), Spelling(acts[1..]));
      PerformedExactly(Perform(w, acts[0]), acts[1..]);
    }
  }
}
