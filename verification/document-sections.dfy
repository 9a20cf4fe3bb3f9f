/** The sections of a document view: cached objects and the field values shown next to them. */
module DocumentSections {
  import opened Options

  datatype FieldValue = Null | Text(text: string) | Number(number: real) | Flag(flag: bool)

  datatype Status = Draft | PendingConfirm | Confirmed | Issue | ToFix | Fixed | Filed | Void | Deleted

  /** The stored state of an object. */
  datatype Content = Content(status: Status, fields: map<string, FieldValue>)

  /** An object as it was read: a version number, stored values, and the values derived at that reading. */
  datatype ViewObject = ViewObject(id: string, version: nat, content: Content, derived: map<string, FieldValue>)

  datatype Kind = TextKind | NumberKind | FlagKind

  datatype Definition = Definition(code: string, kind: Kind, readOnly: bool)

  datatype Field = Field(definition: Definition, value: Option<FieldValue>)

  datatype Section = Section(cached: ViewObject, depth: nat, fields: seq<Field>)

  function StoredIn(c: Content, code: string): Option<FieldValue> {
    if code in c.fields then Some(c.fields[code]) else None
  }

  /** The stored value of a field, or else the derived one. */
  function ViewValue(o: ViewObject, code: string): Option<FieldValue> {
    if code in o.content.fields then Some(o.content.fields[code])
    else if code in o.derived then Some(o.derived[code])
    else None
  }

  /** What the text of an editor can be turned into for a field of this kind. */
  predicate Fits(kind: Kind, value: FieldValue) {
    match kind
    case TextKind => value.Text?
    case NumberKind => value.Number?
    case FlagKind => value.Flag?
  }

  /** The view offers no editing of the object. */
  predicate Locked(status: Status) {
    status.Deleted?
  }

  /** One field set to a value. */
  function WithField(c: Content, code: string, value: FieldValue): Content {
    c.(fields := c.fields[code := value])
  }

  /** A section for an object that is loaded, with one field for each definition of its type. */
  function BuildSection(o: ViewObject, depth: nat, definitions: seq<Definition>): Section {
    Section(o, depth, seq(|definitions|, i requires 0 <= i < |definitions| =>
      Field(definitions[i], ViewValue(o, definitions[i].code))))
  }

  /** The local effect of a saved field: the value, and the version the client expects the server to have. */
  function ReplaceField(sections: seq<Section>, id: string, code: string, value: FieldValue, version: nat)
    : seq<Section>
  {
    seq(|sections|, i requires 0 <= i < |sections| =>
      if sections[i].cached.id != id then sections[i] else ReplaceFieldIn(sections[i], code, value, version))
  }

  function ReplaceFieldIn(s: Section, code: string, value: FieldValue, version: nat): Section {
    Section(s.cached.(version := version, content := WithField(s.cached.content, code, value)), s.depth,
            seq(|s.fields|, i requires 0 <= i < |s.fields| =>
              if s.fields[i].definition.code == code then s.fields[i].(value := Some(value)) else s.fields[i]))
  }

  /** Adopts a whole object that was read again: stored values only. */
  function ReplaceObject(sections: seq<Section>, id: string, o: ViewObject): seq<Section> {
    seq(|sections|, i requires 0 <= i < |sections| =>
      if sections[i].cached.id != id then sections[i] else ReplaceObjectIn(sections[i], o))
  }

  function ReplaceObjectIn(s: Section, o: ViewObject): Section {
    Section(o, s.depth, seq(|s.fields|, i requires 0 <= i < |s.fields| =>
      s.fields[i].(value := StoredIn(o.content, s.fields[i].definition.code))))
  }

  // ---- what is shown

  /** A stored value is shown; where none is stored, nothing but the derived value can be. */
  predicate Displays(o: ViewObject, f: Field) {
    var code := f.definition.code;
    if code in o.content.fields then f.value == StoredIn(o.content, code)
    else f.value == None || f.value == ViewValue(o, code)
  }

  ghost predicate Consistent(s: Section) {
    forall i :: 0 <= i < |s.fields| ==> Displays(s.cached, s.fields[i])
  }

  ghost predicate AllConsistent(sections: seq<Section>) {
    forall i :: 0 <= i < |sections| ==> Consistent(sections[i])
  }

  lemma BuiltConsistent(o: ViewObject, depth: nat, definitions: seq<Definition>)
    ensures Consistent(BuildSection(o, depth, definitions))
  {
  }

  lemma ReplaceFieldConsistent(sections: seq<Section>, id: string, code: string, value: FieldValue, version: nat)
    requires AllConsistent(sections)
    ensures AllConsistent(ReplaceField(sections, id, code, value, version))
  {
    var after := ReplaceField(sections, id, code, value, version);
    forall i | 0 <= i < |after|
      ensures Consistent(after[i])
    {
      assert Consistent(sections[i]);
    }
  }

  lemma ReplaceObjectConsistent(sections: seq<Section>, id: string, o: ViewObject)
    requires AllConsistent(sections)
    ensures AllConsistent(ReplaceObject(sections, id, o))
  {
    var after := ReplaceObject(sections, id, o);
    forall i | 0 <= i < |after|
      ensures Consistent(after[i])
    {
      assert Consistent(sections[i]);
    }
  }

  // ---- a refresh against a load

  function DefinitionsOf(s: Section): seq<Definition> {
    seq(|s.fields|, i requires 0 <= i < |s.fields| => s.fields[i].definition)
  }

  /** The field has only a derived value. */
  predicate OnlyDerived(o: ViewObject, code: string) {
    code !in o.content.fields && code in o.derived
  }

  /** A refresh shows what a load of the same object would show exactly when no shown field has only a
      derived value. */
  lemma RefreshShowsLoad(s: Section, o: ViewObject)
    ensures ReplaceObjectIn(s, o) == BuildSection(o, s.depth, DefinitionsOf(s)) <==>
      forall i :: 0 <= i < |s.fields| ==> !OnlyDerived(o, s.fields[i].definition.code)
  {
    var refreshed, built := ReplaceObjectIn(s, o), BuildSection(o, s.depth, DefinitionsOf(s));
    forall i | 0 <= i < |s.fields|
      ensures refreshed.fields[i] == built.fields[i] <==> !OnlyDerived(o, s.fields[i].definition.code)
    {
      FieldRefreshed(o, s.fields[i].definition.code);
    }
    if refreshed.fields == built.fields {
      assert refreshed == built;
    }
  }

  lemma FieldRefreshed(o: ViewObject, code: string)
    ensures StoredIn(o.content, code) == ViewValue(o, code) <==> !OnlyDerived(o, code)
  {
  }

  /** Refreshing a loaded section with the very object it shows blanks a derived value. */
  lemma RefreshBlanksDerived(o: ViewObject, d: Definition)
    requires OnlyDerived(o, d.code)
    ensures var loaded := BuildSection(o, 0, [d]);
      loaded.fields == [Field(d, Some(o.derived[d.code]))] &&
      ReplaceObjectIn(loaded, o).fields == [Field(d, None)]
  {
  }
}
