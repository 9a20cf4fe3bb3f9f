/** Following a typed relation path from an object, as the comparison table and the metrics do. */
module RelationPath {
  import opened Options

  datatype Element = Element(id: string, status: string, typeCode: string)

  datatype Relation = Relation(id: string, typeCode: string, sourceId: string, targetId: string, status: string)

  datatype Workspace = Workspace(objects: seq<Element>, relations: seq<Relation>)

  predicate Terminal(status: string) {
    status in {"archived", "deleted", "soft-deleted"}
  }

  // ---- one step along a relation type

  predicate Leads(r: Relation, current: seq<Element>, code: string) {
    r.status == "active" && r.typeCode == code && exists o :: o in current && o.id == r.sourceId
  }

  function TargetIds(w: Workspace, current: seq<Element>, code: string): set<string> {
    set r | r in w.relations && Leads(r, current, code) :: r.targetId
  }

  function LiveAmong(objects: seq<Element>, ids: set<string>): seq<Element> {
    if objects == [] then []
    else
      (if objects[0].id in ids && !Terminal(objects[0].status) then [objects[0]] else []) +
      LiveAmong(objects[1..], ids)
  }

  function WithId(objects: seq<Element>, id: string): seq<Element> {
    if objects == [] then []
    else (if objects[0].id == id then [objects[0]] else []) + WithId(objects[1..], id)
  }

  function Next(w: Workspace, current: seq<Element>, code: string): seq<Element> {
    LiveAmong(w.objects, TargetIds(w, current, code))
  }

  function Follow(w: Workspace, current: seq<Element>, path: seq<string>): seq<Element>
    decreases |path|
  {
    if path == [] then current else Follow(w, Next(w, current, path[0]), path[1..])
  }

  function Resolved(w: Workspace, id: string, path: seq<string>): seq<Element> {
    Follow(w, WithId(w.objects, id), path)
  }

  lemma {:induction false} FollowSnoc(w: Workspace, current: seq<Element>, path: seq<string>, code: string)
    ensures Follow(w, current, path + [code]) == Next(w, Follow(w, current, path), code)
    decreases |path|
  {
    if path == [] {
      assert (path + [code])[1..] == [];
    } else {
      assert (path + [code])[1..] == path[1..] + [code];
      FollowSnoc(w, Next(w, current, path[0]), path[1..], code);
    }
  }

  // ---- columns

  datatype Json =
    | Null
    | Flag(on: bool)
    | Number(value: real)
    | Text(text: string)
    | Items(items: seq<Json>)
    | Record(fields: map<string, Json>)

  datatype Column = Column(
    key: string, name: string, fieldCode: string, derived: bool, relationPath: Option<seq<string>>,
    unit: Option<string>)

  function Field(fields: map<string, Json>, name: string): Option<Json> {
    if name in fields then Some(fields[name]) else None
  }

  function TextOf(v: Option<Json>): Option<string> {
    if v.Some? && v.value.Text? then Some(v.value.text) else None
  }

  function TextsOnly(items: seq<Json>): seq<string> {
    if items == [] then []
    else (if items[0].Text? then [items[0].text] else []) + TextsOnly(items[1..])
  }

  function PathOf(v: Option<Json>): Option<seq<string>> {
    if v.Some? && v.value.Items? then Some(TextsOnly(v.value.items)) else None
  }

  /** A column from stored settings, or nothing when they are not a column. */
  function ReadColumn(v: Json): Option<Column> {
    if !v.Record? then None
    else
      var f := v.fields;
      var key, name, fieldCode := TextOf(Field(f, "key")), TextOf(Field(f, "label")), TextOf(Field(f, "fieldCode"));
      if key.None? || name.None? || fieldCode.None? then None
      else
        var raw := Field(f, "relationPath");
        var path := PathOf(raw);
        if path.Some? && (|path.value| != |raw.value.items| || |path.value| > 5) then None
        else Some(Column(key.value, name.value, fieldCode.value, Field(f, "derived") == Some(Flag(true)), path,
                         TextOf(Field(f, "unit"))))
  }

  function ColumnPath(c: Column): seq<string> {
    if c.relationPath.Some? then c.relationPath.value else []
  }

  method ResolveColumnObjects(w: Workspace, id: string, column: Column) returns (current: seq<Element>)
    ensures current == Resolved(w, id, ColumnPath(column))
  {
    current := WithId(w.objects, id);
    var path := ColumnPath(column);
    for i := 0 to |path|
      invariant current == Resolved(w, id, path[..i])
    {
      FollowSnoc(w, WithId(w.objects, id), path[..i], path[i]);
      assert path[..i + 1] == path[..i] + [path[i]];
      current := LiveAmong(w.objects, TargetIds(w, current, path[i]));
    }
    assert path[..|path|] == path;
  }

  // ---- metrics

  function FirstFive(items: seq<Json>): seq<Json> {
    if |items| <= 5 then items else items[..5]
  }

  predicate AllTexts(items: seq<Json>) {
    forall i :: 0 <= i < |items| ==> items[i].Text?
  }

  /** What a metric's path, of any shape, resolves to. */
  function MetricResolved(w: Workspace, id: string, path: Option<Json>): seq<Element> {
    if path.None? || !path.value.Items? then WithId(w.objects, id)
    else if AllTexts(FirstFive(path.value.items)) then Resolved(w, id, TextsOnly(FirstFive(path.value.items)))
    else []
  }

  method ResolveMetricObjects(w: Workspace, id: string, path: Option<Json>) returns (current: seq<Element>)
    ensures current == MetricResolved(w, id, path)
  {
    if path.None? || !path.value.Items? || |path.value.items| == 0 {
      return WithId(w.objects, id);
    }
    current := WithId(w.objects, id);
    var items := FirstFive(path.value.items);
    for i := 0 to |items|
      invariant AllTexts(items[..i])
      invariant current == Resolved(w, id, TextsOnly(items[..i]))
    {
      if !items[i].Text? {
        return [];
      }
      assert items[..i + 1] == items[..i] + [items[i]];
      TextsSnoc(items[..i], items[i]);
      FollowSnoc(w, WithId(w.objects, id), TextsOnly(items[..i]), items[i].text);
      current := LiveAmong(w.objects, TargetIds(w, current, items[i].text));
    }
    assert items[..|items|] == items;
  }

  lemma SnocTail(items: seq<Json>, x: Json)
    requires items != []
    ensures (items + [x])[0] == items[0] && (items + [x])[1..] == items[1..] + [x]
  {
  }

  lemma {:induction false} TextsSnoc(items: seq<Json>, x: Json)
    requires x.Text?
    ensures TextsOnly(items + [x]) == TextsOnly(items) + [x.text]
  {
    if items == [] {
      assert items + [x] == [x];
      assert TextsOnly([x]) == [x.text] + TextsOnly([]);
    } else {
      SnocTail(items, x);
      TextsSnoc(items[1..], x);
    }
  }

  lemma {:induction false} TextsCount(items: seq<Json>)
    ensures |TextsOnly(items)| <= |items|
    ensures |TextsOnly(items)| == |items| <==> AllTexts(items)
  {
    if items != [] {
      TextsCount(items[1..]);
      assert items == [items[0]] + items[1..];
      assert AllTexts(items) <==> items[0].Text? && AllTexts(items[1..]);
    }
  }

  /** For every column that can be read, the table and the metrics resolve its path to the same objects. */
  lemma ColumnAndMetricAgree(w: Workspace, id: string, v: Json)
    requires ReadColumn(v).Some?
    ensures MetricResolved(w, id, Field(v.fields, "relationPath")) == Resolved(w, id, ColumnPath(ReadColumn(v).value))
  {
    var raw := Field(v.fields, "relationPath");
    if raw.Some? && raw.value.Items? {
      TextsCount(raw.value.items);
    }
  }

  /** A path is refused as a column exactly when the metrics would cut it short or find it broken. */
  lemma RefusedPaths(items: seq<Json>, fields: map<string, Json>)
    requires TextOf(Field(fields, "key")).Some? && TextOf(Field(fields, "label")).Some?
    requires TextOf(Field(fields, "fieldCode")).Some? && Field(fields, "relationPath") == Some(Items(items))
    ensures ReadColumn(Record(fields)).Some? <==> |items| <= 5 && AllTexts(items)
  {
    TextsCount(items);
  }

  // ---- what is read as a column

  /** The stored settings hold this text under this name. */
  predicate HoldsText(fields: map<string, Json>, name: string, text: string) {
    name in fields && fields[name] == Text(text)
  }

  /** The path that is stored: at most five texts, or no list at all. */
  predicate HoldsPath(fields: map<string, Json>, path: Option<seq<string>>) {
    if "relationPath" in fields && fields["relationPath"].Items? then
      var items := fields["relationPath"].items;
      path.Some? && |path.value| == |items| <= 5 &&
      forall i :: 0 <= i < |items| ==> items[i] == Text(path.value[i])
    else path.None?
  }

  predicate HoldsUnit(fields: map<string, Json>, unit: Option<string>) {
    if "unit" in fields && fields["unit"].Text? then unit == Some(fields["unit"].text) else unit.None?
  }

  lemma {:induction false} TextsAre(items: seq<Json>, path: seq<string>)
    ensures |path| == |items| && (forall i :: 0 <= i < |items| ==> items[i] == Text(path[i])) <==>
      AllTexts(items) && path == TextsOnly(items)
  {
    TextsCount(items);
    if items != [] && path != [] {
      TextsAre(items[1..], path[1..]);
      assert path == [path[0]] + path[1..] && items == [items[0]] + items[1..];
      if |path| == |items| {
        SplitTexts(items, path);
      }
    }
  }

  lemma SplitTexts(items: seq<Json>, path: seq<string>)
    requires items != [] && path != [] && |path| == |items|
    ensures (forall i :: 0 <= i < |items| ==> items[i] == Text(path[i])) <==>
      items[0] == Text(path[0]) && forall i :: 0 <= i < |items| - 1 ==> items[1..][i] == Text(path[1..][i])
  {
    if forall i :: 0 <= i < |items| - 1 ==> items[1..][i] == Text(path[1..][i]) {
      forall i | 0 < i < |items|
        ensures items[i] == Text(path[i])
      {
        assert items[1..][i - 1] == Text(path[1..][i - 1]);
      }
    }
  }

  lemma PathRead(fields: map<string, Json>, path: Option<seq<string>>)
    ensures HoldsPath(fields, path) <==>
      var raw := Field(fields, "relationPath");
      path == PathOf(raw) && (path.Some? ==> |path.value| == |raw.value.items| && |path.value| <= 5)
  {
    if "relationPath" in fields && fields["relationPath"].Items? {
      var items := fields["relationPath"].items;
      TextsCount(items);
      if path.Some? {
        TextsAre(items, path.value);
      }
    }
  }

  /** Stored settings are read as exactly the column whose key, name and field code they hold as texts, with the path
      they hold, if that is a path at all. */
  lemma ReadExactly(v: Json, c: Column)
    ensures ReadColumn(v) == Some(c) <==>
      && v.Record?
      && HoldsText(v.fields, "key", c.key) && HoldsText(v.fields, "label", c.name)
      && HoldsText(v.fields, "fieldCode", c.fieldCode)
      && HoldsPath(v.fields, c.relationPath) && HoldsUnit(v.fields, c.unit)
      && c.derived == ("derived" in v.fields && v.fields["derived"] == Flag(true))
  {
    if v.Record? {
      PathRead(v.fields, c.relationPath);
    }
  }

  // ---- what is found

  ghost predicate HasLive(w: Workspace, id: string) {
    exists o :: o in w.objects && o.id == id && o.status !in {"archived", "deleted", "soft-deleted"}
  }

  /** A walk over active relations of the path's types, arriving each time at an object that is not terminal. */
  ghost predicate IsWalk(w: Workspace, from: string, walk: seq<Relation>, path: seq<string>, to: string)
    decreases |path|
  {
    if path == [] then walk == [] && from == to
    else
      && walk != []
      && walk[0] in w.relations
      && walk[0].status == "active" && walk[0].typeCode == path[0] && walk[0].sourceId == from
      && HasLive(w, walk[0].targetId)
      && IsWalk(w, walk[0].targetId, walk[1..], path[1..], to)
  }

  ghost predicate Reaches(w: Workspace, from: string, path: seq<string>, to: string) {
    exists walk :: IsWalk(w, from, walk, path, to)
  }

  /** An object at the end of the path: the start itself on an empty path, else not terminal. */
  ghost predicate AtEnd(w: Workspace, id: string, path: seq<string>, o: Element) {
    && (exists start :: start in w.objects && start.id == id)
    && (path != [] ==> o.status !in {"archived", "deleted", "soft-deleted"})
    && Reaches(w, id, path, o.id)
  }

  function Keep(objects: seq<Element>, chosen: set<Element>): seq<Element> {
    if objects == [] then []
    else (if objects[0] in chosen then [objects[0]] else []) + Keep(objects[1..], chosen)
  }

  lemma {:induction false} LiveMembers(objects: seq<Element>, ids: set<string>, o: Element)
    ensures o in LiveAmong(objects, ids) <==> o in objects && o.id in ids && !Terminal(o.status)
  {
    if objects != [] {
      LiveMembers(objects[1..], ids, o);
    }
  }

  lemma {:induction false} IdMembers(objects: seq<Element>, id: string, o: Element)
    ensures o in WithId(objects, id) <==> o in objects && o.id == id
  {
    if objects != [] {
      IdMembers(objects[1..], id, o);
    }
  }

  lemma {:induction false} LiveKept(objects: seq<Element>, ids: set<string>, chosen: set<Element>)
    requires forall o :: o in objects ==> (o in chosen <==> o.id in ids && !Terminal(o.status))
    ensures LiveAmong(objects, ids) == Keep(objects, chosen)
  {
    if objects != [] {
      assert objects[0] in objects;
      LiveKept(objects[1..], ids, chosen);
    }
  }

  lemma {:induction false} IdKept(objects: seq<Element>, id: string, chosen: set<Element>)
    requires forall o :: o in objects ==> (o in chosen <==> o.id == id)
    ensures WithId(objects, id) == Keep(objects, chosen)
  {
    if objects != [] {
      assert objects[0] in objects;
      IdKept(objects[1..], id, chosen);
    }
  }

  lemma ReachesStep(w: Workspace, r: Relation, path: seq<string>, to: string)
    requires path != [] && r in w.relations && r.status == "active" && r.typeCode == path[0]
    requires HasLive(w, r.targetId) && Reaches(w, r.targetId, path[1..], to)
    ensures Reaches(w, r.sourceId, path, to)
  {
    var walk :| IsWalk(w, r.targetId, walk, path[1..], to);
    assert ([r] + walk)[1..] == walk;
    assert IsWalk(w, r.sourceId, [r] + walk, path, to);
  }

  lemma ReachesFirst(w: Workspace, from: string, path: seq<string>, to: string) returns (r: Relation)
    requires path != [] && Reaches(w, from, path, to)
    ensures r in w.relations && r.status == "active" && r.typeCode == path[0] && r.sourceId == from
    ensures HasLive(w, r.targetId) && Reaches(w, r.targetId, path[1..], to)
  {
    var walk :| IsWalk(w, from, walk, path, to);
    r := walk[0];
    assert IsWalk(w, r.targetId, walk[1..], path[1..], to);
  }

  ghost predicate ReachedFrom(w: Workspace, current: seq<Element>, path: seq<string>, to: string) {
    exists c :: c in current && Reaches(w, c.id, path, to)
  }

  /** What is followed from a list is what walks reach from its members, soundness. */
  lemma {:induction false} FollowedReached(w: Workspace, current: seq<Element>, path: seq<string>, o: Element)
    requires o in Follow(w, current, path)
    ensures ReachedFrom(w, current, path, o.id)
    ensures path != [] ==> o in w.objects && o.status !in {"archived", "deleted", "soft-deleted"}
    decreases |path|
  {
    if path == [] {
      assert IsWalk(w, o.id, [], path, o.id);
    } else {
      var next := Next(w, current, path[0]);
      FollowedReached(w, next, path[1..], o);
      var c :| c in next && Reaches(w, c.id, path[1..], o.id);
      LiveMembers(w.objects, TargetIds(w, current, path[0]), c);
      var r :| r in w.relations && Leads(r, current, path[0]) && r.targetId == c.id;
      ReachesStep(w, r, path, o.id);
      if path[1..] == [] {
        LiveMembers(w.objects, TargetIds(w, current, path[0]), o);
      }
    }
  }

  /** And completeness: an object that is not terminal at the end of a walk is found. */
  lemma {:induction false} ReachedFollowed(w: Workspace, current: seq<Element>, c: Element, path: seq<string>,
                                           o: Element)
    requires path != [] && c in current && Reaches(w, c.id, path, o.id)
    requires o in w.objects && o.status !in {"archived", "deleted", "soft-deleted"}
    ensures o in Follow(w, current, path)
    decreases |path|
  {
    var r := ReachesFirst(w, c.id, path, o.id);
    assert Leads(r, current, path[0]);
    var ids := TargetIds(w, current, path[0]);
    var next := Next(w, current, path[0]);
    if path[1..] == [] {
      SameEnd(w, r.targetId, o.id);
      LiveMembers(w.objects, ids, o);
    } else {
      var d :| d in w.objects && d.id == r.targetId && !Terminal(d.status);
      LiveMembers(w.objects, ids, d);
      ReachedFollowed(w, next, d, path[1..], o);
    }
  }

  lemma SameEnd(w: Workspace, from: string, to: string)
    requires Reaches(w, from, [], to)
    ensures from == to
  {
  }

  lemma {:induction false} FollowForm(w: Workspace, current: seq<Element>, path: seq<string>)
    requires path != []
    ensures exists ids :: Follow(w, current, path) == LiveAmong(w.objects, ids)
    decreases |path|
  {
    var next := Next(w, current, path[0]);
    if path[1..] == [] {
      assert Follow(w, current, path) == LiveAmong(w.objects, TargetIds(w, current, path[0]));
    } else {
      FollowForm(w, next, path[1..]);
    }
  }

  /** Membership, both ways. */
  lemma ResolvedExactly(w: Workspace, id: string, path: seq<string>, o: Element)
    requires o in w.objects
    ensures o in Resolved(w, id, path) <==> AtEnd(w, id, path, o)
  {
    var start := WithId(w.objects, id);
    if o in Resolved(w, id, path) {
      FollowedReached(w, start, path, o);
      var c :| c in start && Reaches(w, c.id, path, o.id);
      IdMembers(w.objects, id, c);
    }
    if AtEnd(w, id, path, o) {
      var c :| c in w.objects && c.id == id;
      IdMembers(w.objects, id, c);
      if path == [] {
        SameEnd(w, id, o.id);
        IdMembers(w.objects, id, o);
      } else {
        ReachedFollowed(w, start, c, path, o);
      }
    }
  }

  /** The result is the workspace's own list with exactly the objects at the end of the path kept. */
  lemma ResolvedIs(w: Workspace, id: string, path: seq<string>)
    ensures Resolved(w, id, path) == Keep(w.objects, set o | o in w.objects && AtEnd(w, id, path, o))
  {
    var chosen := set o | o in w.objects && AtEnd(w, id, path, o);
    forall o | o in w.objects
      ensures o in chosen <==> o in Resolved(w, id, path)
    {
      ResolvedExactly(w, id, path, o);
    }
    if path == [] {
      forall o | o in w.objects
        ensures o in chosen <==> o.id == id
      {
        IdMembers(w.objects, id, o);
      }
      IdKept(w.objects, id, chosen);
    } else {
      FollowForm(w, WithId(w.objects, id), path);
      var ids :| Resolved(w, id, path) == LiveAmong(w.objects, ids);
      forall o | o in w.objects
        ensures o in chosen <==> o.id in ids && !Terminal(o.status)
      {
        LiveMembers(w.objects, ids, o);
      }
      LiveKept(w.objects, ids, chosen);
    }
  }

  lemma KeepHead(x: Element, rest: seq<Element>, chosen: set<Element>)
    ensures Keep([x] + rest, chosen) == (if x in chosen then [x] else []) + Keep(rest, chosen)
  {
    assert ([x] + rest)[1..] == rest;
  }

  lemma {:induction false} KeepJoin(a: seq<Element>, b: seq<Element>, chosen: set<Element>)
    ensures Keep(a + b, chosen) == Keep(a, chosen) + Keep(b, chosen)
  {
    if a == [] {
      assert a + b == b;
    } else {
      var rest := a[1..] + b;
      assert a + b == [a[0]] + rest;
      KeepHead(a[0], rest, chosen);
      KeepJoin(a[1..], b, chosen);
    }
  }

  /** Workspace order, no repeats: a kept object stands after exactly the kept objects before it. */
  lemma KeptAt(objects: seq<Element>, chosen: set<Element>, i: nat)
    requires i < |objects| && objects[i] in chosen
    ensures var rank := |Keep(objects[..i], chosen)|;
      rank < |Keep(objects, chosen)| && Keep(objects, chosen)[rank] == objects[i]
  {
    assert objects == objects[..i] + objects[i..];
    KeepJoin(objects[..i], objects[i..], chosen);
  }

  ghost predicate NoRepeats(objects: seq<Element>) {
    forall i, j :: 0 <= i < j < |objects| ==> objects[i] != objects[j]
  }

  lemma {:induction false} KeptOnce(objects: seq<Element>, chosen: set<Element>)
    requires NoRepeats(objects)
    ensures NoRepeats(Keep(objects, chosen))
    ensures forall o :: o in Keep(objects, chosen) <==> o in objects && o in chosen
  {
    if objects != [] {
      KeptOnce(objects[1..], chosen);
      assert objects == [objects[0]] + objects[1..];
    }
  }
}
