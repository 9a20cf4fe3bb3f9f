/** Which relation a drawn connection makes, told by the types of its two ends. */
module DiagramInference {
  import opened Options
  import opened DiagramRelations

  // ---- the relation code of two object types

  /** From a type to a type, the code of the relation that joins them. */
  predicate Joins(source: string, target: string, code: string) {
    (source, target, code) in {
      ("module", "module", "proposal_depends_on"),
      ("module", "interface", "proposal_interfaces_with"),
      ("module", "requirement", "proposal_satisfies"),
      ("proposal", "module", "proposal_contains_module"),
      ("proposal_node", "module", "proposal_contains_module"),
      ("system", "module", "proposal_contains_module"),
      ("proposal", "system", "proposal_contains_system")}
  }

  predicate NoDash(s: string) {
    forall i :: 0 <= i < |s| ==> s[i] != '-'
  }

  /** A text with one arrow between plain names is read back in one way, whatever the names are that it is put
      together from. */
  lemma ArrowSplits(s: string, t: string, a: string, b: string)
    requires s + "->" + t == a + "->" + b && NoDash(a) && NoDash(b)
    ensures s == a && t == b
  {
    var whole := a + "->" + b;
    assert whole[|s|] == '-' && whole[|a| + 1] == '>';
    forall i | 0 <= i < |whole| && i != |a|
      ensures whole[i] != '-'
    {
      assert i > |a| + 1 ==> whole[i] == b[i - |a| - 2];
    }
    assert s == whole[..|s|] && a == whole[..|a|] && t == whole[|s| + 2..] && b == whole[|a| + 2..];
  }

  /** The types that the table names. */
  predicate Named(s: string, t: string, a: string, b: string) {
    s + "->" + t == a + "->" + b
  }

  lemma NamedPlainly(s: string, t: string, a: string, b: string)
    requires NoDash(a) && NoDash(b)
    ensures Named(s, t, a, b) <==> s == a && t == b
  {
    if Named(s, t, a, b) {
      ArrowSplits(s, t, a, b);
    }
  }

  lemma TableKeys(s: string, t: string)
    ensures s + "->" + t == "module->module" <==> s == "module" && t == "module"
    ensures s + "->" + t == "module->interface" <==> s == "module" && t == "interface"
    ensures s + "->" + t == "module->requirement" <==> s == "module" && t == "requirement"
    ensures s + "->" + t == "proposal->module" <==> s == "proposal" && t == "module"
    ensures s + "->" + t == "proposal_node->module" <==> s == "proposal_node" && t == "module"
    ensures s + "->" + t == "system->module" <==> s == "system" && t == "module"
    ensures s + "->" + t == "proposal->system" <==> s == "proposal" && t == "system"
  {
    assert "module->module" == "module" + "->" + "module";
    NamedPlainly(s, t, "module", "module");
    assert "module->interface" == "module" + "->" + "interface";
    NamedPlainly(s, t, "module", "interface");
    assert "module->requirement" == "module" + "->" + "requirement";
    NamedPlainly(s, t, "module", "requirement");
    assert "proposal->module" == "proposal" + "->" + "module";
    NamedPlainly(s, t, "proposal", "module");
    assert "proposal_node->module" == "proposal_node" + "->" + "module";
    NamedPlainly(s, t, "proposal_node", "module");
    assert "system->module" == "system" + "->" + "module";
    NamedPlainly(s, t, "system", "module");
    assert "proposal->system" == "proposal" + "->" + "system";
    NamedPlainly(s, t, "proposal", "system");
  }

  /** Two types stand for a code exactly when the table joins them; no other names can be taken for those. */
  lemma EndpointExactly(s: string, t: string, code: string)
    ensures EndpointCode(s, t) == Some(code) <==> Joins(s, t, code)
  {
    TableKeys(s, t);
  }

  // ---- the relation type of a connection

  /** The code that a connection stands for: as drawn, or turned around when the table joins it only that way. */
  ghost predicate Stands(source: string, target: string, code: string, reversed: bool) {
    if reversed then Joins(target, source, code) && forall c :: !Joins(source, target, c)
    else Joins(source, target, code)
  }

  /** The type at this place is the only one with its code. */
  ghost predicate OnlyType(types: seq<RelationType>, i: nat, code: string) {
    i < |types| && types[i].code == code && forall j :: 0 <= j < |types| && j != i ==> types[j].code != code
  }

  ghost predicate TwoTypes(types: seq<RelationType>, code: string) {
    exists i, j :: TwoAt(types, i, j, code)
  }

  predicate TwoAt(types: seq<RelationType>, i: int, j: int, code: string) {
    0 <= i < j < |types| && types[i].code == code && types[j].code == code
  }

  ghost predicate NoType(types: seq<RelationType>, code: string) {
    forall i :: 0 <= i < |types| ==> types[i].code != code
  }

  lemma {:induction false} NoneWithCode(types: seq<RelationType>, code: string)
    ensures WithCode(types, code) == [] <==> NoType(types, code)
  {
    if types != [] {
      NoneWithCode(types[1..], code);
      assert forall i :: 0 < i < |types| ==> types[i] == types[1..][i - 1];
    }
  }

  lemma {:induction false} OneWithCode(types: seq<RelationType>, code: string) returns (i: nat)
    requires |WithCode(types, code)| == 1
    ensures OnlyType(types, i, code) && types[i] == WithCode(types, code)[0]
  {
    if types[0].code == code {
      i := 0;
      NoneWithCode(types[1..], code);
      assert forall k :: 0 < k < |types| ==> types[k] == types[1..][k - 1];
    } else {
      i := OneWithCode(types[1..], code);
      i := i + 1;
      forall k | 0 <= k < |types| && k != i
        ensures types[k].code != code
      {
        assert k > 0 ==> types[k] == types[1..][k - 1];
      }
    }
  }

  lemma {:induction false} TwoWithCode(types: seq<RelationType>, code: string)
    requires |WithCode(types, code)| > 1
    ensures TwoTypes(types, code)
  {
    if types[0].code == code {
      NoneWithCode(types[1..], code);
      var j :| 0 <= j < |types[1..]| && types[1..][j].code == code;
      assert TwoAt(types, 0, j + 1, code);
    } else {
      TwoWithCode(types[1..], code);
      var i, j :| TwoAt(types[1..], i, j, code);
      assert TwoAt(types, i + 1, j + 1, code);
    }
  }

  /** What is found for a code. */
  lemma FoundExactly(types: seq<RelationType>, code: string)
    ensures |WithCode(types, code)| == 0 <==> NoType(types, code)
    ensures |WithCode(types, code)| > 1 <==> TwoTypes(types, code)
  {
    NoneWithCode(types, code);
    if |WithCode(types, code)| > 1 {
      TwoWithCode(types, code);
    } else if |WithCode(types, code)| == 1 {
      var i := OneWithCode(types, code);
    }
  }

  lemma OneCode(source: string, target: string, a: string, x: bool, b: string, y: bool)
    requires Stands(source, target, a, x) && Stands(source, target, b, y)
    ensures a == b && x == y
  {
    EndpointExactly(source, target, a);
    EndpointExactly(source, target, b);
    EndpointExactly(target, source, a);
    EndpointExactly(target, source, b);
  }

  /** The code of a connection and its direction, or that it stands for nothing. */
  lemma StandsFor(source: string, target: string) returns (code: string, reversed: bool, any: bool)
    ensures any ==> Stands(source, target, code, reversed)
    ensures !any ==> forall c, r :: !Stands(source, target, c, r)
    ensures any == (EndpointCode(source, target).Some? || EndpointCode(target, source).Some?)
    ensures any ==> reversed == EndpointCode(source, target).None?
    ensures any ==> Some(code) == if reversed then EndpointCode(target, source) else EndpointCode(source, target)
  {
    var forward, reverse := EndpointCode(source, target), EndpointCode(target, source);
    any, reversed := forward.Some? || reverse.Some?, forward.None?;
    code := if forward.Some? then forward.value else if reverse.Some? then reverse.value else "";
    forall c
      ensures Joins(source, target, c) <==> forward == Some(c)
      ensures Joins(target, source, c) <==> reverse == Some(c)
    {
      EndpointExactly(source, target, c);
      EndpointExactly(target, source, c);
    }
  }

  /** A connection makes a relation exactly when it stands for a code that one known type has, and then of this type
      and in this direction; it is ambiguous exactly when more than one type has the code. */
  lemma InferExactly(types: seq<RelationType>, source: string, target: string, code: string, reversed: bool)
    requires Stands(source, target, code, reversed)
    ensures var r := Infer(types, source, target);
      && (r == NoMatch <==> NoType(types, code))
      && (r == Ambiguous <==> TwoTypes(types, code))
      && (r.Match? <==> exists i: nat :: OnlyType(types, i, code))
      && forall i: nat :: OnlyType(types, i, code) ==> r == Match(code, types[i].id, reversed)
  {
    var c, rev, any := StandsFor(source, target);
    OneCode(source, target, code, reversed, c, rev);
    FoundExactly(types, code);
    if |WithCode(types, code)| == 1 {
      var k := OneWithCode(types, code);
      forall i: nat | OnlyType(types, i, code)
        ensures i == k
      {
      }
    }
  }

  /** A connection between types that the table joins in neither direction makes no relation. */
  lemma NothingInferred(types: seq<RelationType>, source: string, target: string)
    requires forall code :: !Joins(source, target, code) && !Joins(target, source, code)
    ensures Infer(types, source, target) == NoMatch
  {
    var c, rev, any := StandsFor(source, target);
  }

  /** A connection is let through exactly when it joins two objects and the list, with a relation of its own ends and
      type added, repeats no more ends and type than before. */
  lemma AcceptedExactly(relations: seq<Relation>, x: Relation)
    requires DistinctTriples(relations)
    ensures Rejected(x.sourceId, x.targetId, x.relationType, relations) == Accepted <==>
      x.sourceId != x.targetId && DistinctTriples(relations + [x])
  {
    var more := relations + [x];
    assert more[|relations|] == x;
    if r :| r in relations && SameTriple(r, x) {
      var i :| 0 <= i < |relations| && relations[i] == r;
      assert SameTriple(more[i], more[|relations|]);
    }
  }
}
