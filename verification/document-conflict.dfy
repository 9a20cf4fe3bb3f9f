/** What the server answers to a save, and how a version conflict is shown and resolved. */
module DocumentConflict {
  import opened Options
  import opened DocumentSections
  import opened DocumentProtocol
  import opened DocumentRuns

  /** The object exists and takes changes: its newest version is neither filed, nor void, nor deleted. */
  predicate Open(s: State, id: string) {
    id in s.server.history && s.server.history[id] != [] &&
    s.server.history[id][|s.server.history[id]| - 1].status !in {Filed, Void, Deleted}
  }

  function NewestNumber(s: State, id: string): nat
    requires Open(s, id)
  {
    |s.server.history[id]| - 1
  }

  function NewestContent(s: State, id: string): Content
    requires Open(s, id)
  {
    s.server.history[id][NewestNumber(s, id)]
  }

  /** A save that waits for its answer. */
  predicate Waiting(s: State, client: nat, op: nat) {
    client in s.clients && op in s.clients[client].saves && s.clients[client].saves[op].reply.None?
  }

  // ---- a save

  predicate OfKind(kind: Kind, value: FieldValue) {
    match value
    case Null => false
    case Text(_) => kind == TextKind
    case Number(_) => kind == NumberKind
    case Flag(_) => kind == FlagKind
  }

  /** A save can be started exactly for a field that is shown, may be written and belongs to an object that is not
      shown as deleted, with a value of the kind of the field; it then waits with the object that is shown. Without a
      value nothing happens. */
  lemma StartExactly(s: State, client: nat, op: nat, i: nat, f: nat, value: Option<FieldValue>)
    ensures var e := StartSave(client, op, i, f, value);
      Enabled(s, e) <==>
        && client in s.clients && op !in s.clients[client].saves && i < |s.clients[client].sections|
        && var section := s.clients[client].sections[i];
        && f < |section.fields| && !section.fields[f].definition.readOnly
        && section.cached.content.status != Deleted
        && (value.Some? ==> OfKind(section.fields[f].definition.kind, value.value))
    ensures var e := StartSave(client, op, i, f, value);
      Enabled(s, e) ==>
        var c := s.clients[client];
        if value.None? then Step(s, e) == s
        else Step(s, e) == s.(clients := s.clients[client := c.(saves := c.saves[op :=
          Save(c.sections[i].cached, c.sections[i].fields[f].definition, value.value, false, None)])])
  {
  }

  // ---- the answer

  /** A save is refused exactly when its object is missing or closed, a conflict exactly when the object is open
      and the save does not name its newest version, and accepted otherwise. Nothing else changes for the clients,
      and nothing at all on the server unless the save is accepted. */
  lemma ReplyExactly(s: State, client: nat, op: nat)
    requires Waiting(s, client, op)
    ensures Enabled(s, Serve(client, op))
    ensures var save, after := s.clients[client].saves[op], Step(s, Serve(client, op));
      && after.clients == s.clients[client := after.clients[client]]
      && after.clients[client].sections == s.clients[client].sections
      && after.clients[client].dialogs == s.clients[client].dialogs
      && after.clients[client].saves == s.clients[client].saves[op := after.clients[client].saves[op]]
      && after.clients[client].saves[op] == save.(reply := Some(
           if !Open(s, save.base.id) then Refused
           else if save.base.version != NewestNumber(s, save.base.id) then Conflict
           else Accepted))
      && (after.clients[client].saves[op].reply != Some(Accepted) ==>
          after.server == s.server && after.writes == s.writes)
  {
  }

  /** An accepted save adds one version, with its value in its field and everything else as it was; when the value
      is there already, a server that compares adds none. No other object changes. */
  lemma AcceptedExactly(s: State, client: nat, op: nat)
    requires Waiting(s, client, op)
    requires var base := s.clients[client].saves[op].base;
      Open(s, base.id) && base.version == NewestNumber(s, base.id)
    ensures var save, after := s.clients[client].saves[op], Step(s, Serve(client, op));
      var now := NewestContent(s, save.base.id);
      var same := save.definition.code in now.fields && now.fields[save.definition.code] == save.value;
      after.server == if same && !s.server.countsUnchanged then s.server else s.server.(
        history := s.server.history[save.base.id := s.server.history[save.base.id] +
          [Content(now.status, now.fields[save.definition.code := save.value])]])
  {
  }

  // ---- a conflict

  /** An open save that names a version of an open object that is not its newest one. */
  predicate Outdated(s: State, client: nat, op: nat) {
    && Waiting(s, client, op)
    && var base := s.clients[client].saves[op].base;
    Open(s, base.id) && base.version != NewestNumber(s, base.id)
  }

  /** Served and delivered, such a save becomes a conflict that is shown; nothing is written, and the view stays. */
  lemma ConflictShown(s: State, client: nat, op: nat)
    requires Outdated(s, client, op)
    ensures Possible(s, [Serve(client, op), Deliver(client, op)])
    ensures var save, t := s.clients[client].saves[op], Run(s, [Serve(client, op), Deliver(client, op)]);
      && t.server == s.server && t.writes == s.writes && client in t.clients
      && t.clients[client] == Client(s.clients[client].sections, s.clients[client].saves - {op},
                                     s.clients[client].dialogs + {(save.base.id, save.definition)})
  {
    var t := Step(s, Serve(client, op));
    ReplyExactly(s, client, op);
    Before(t, Deliver(client, op), []);
    Before(s, Serve(client, op), [Deliver(client, op)]);
    assert [Serve(client, op)] + [Deliver(client, op)] == [Serve(client, op), Deliver(client, op)];
    assert [Deliver(client, op)] + [] == [Deliver(client, op)];
    assert t.clients[client].saves - {op} == s.clients[client].saves - {op};
  }

  /** The conflict of a field is shown, and the object was read again under its newest number. */
  ghost predicate CanOverride(s: State, client: nat, op: nat, d: Definition, value: FieldValue, reading: ViewObject) {
    && client in s.clients && op !in s.clients[client].saves && (reading.id, d) in s.clients[client].dialogs
    && Open(s, reading.id) && Readable(s.server, reading) && reading.version == NewestNumber(s, reading.id)
    && Fits(d.kind, value)
  }

  function Override(client: nat, op: nat, d: Definition, value: FieldValue, reading: ViewObject): Event {
    Resolve(client, op, reading.id, d, Mine, Some(reading), Some(value))
  }

  /** The user's own value can then be sent again, and waits for its answer. */
  lemma OverrideSent(s: State, client: nat, op: nat, d: Definition, value: FieldValue, reading: ViewObject)
    requires CanOverride(s, client, op, d, value, reading)
    ensures var e := Override(client, op, d, value, reading);
      && Enabled(s, e) && Waiting(Step(s, e), client, op)
      && Step(s, e).server == s.server && Step(s, e).clients[client].sections == s.clients[client].sections
      && Step(s, e).clients[client].saves[op] == Save(reading, d, value, true, None)
  {
  }

  /** The object is open and its newest version has this value in the field. */
  predicate NewestHas(s: State, id: string, code: string, value: FieldValue) {
    Open(s, id) && code in NewestContent(s, id).fields && NewestContent(s, id).fields[code] == value
  }

  lemma AcceptedHas(s: State, client: nat, op: nat)
    requires Waiting(s, client, op)
    requires var base := s.clients[client].saves[op].base;
      Open(s, base.id) && base.version == NewestNumber(s, base.id)
    ensures var save := s.clients[client].saves[op];
      NewestHas(Step(s, Serve(client, op)), save.base.id, save.definition.code, save.value)
  {
    AcceptedExactly(s, client, op);
  }

  lemma OverrideServed(s: State, client: nat, op: nat, d: Definition, value: FieldValue, reading: ViewObject)
    requires CanOverride(s, client, op, d, value, reading)
    ensures var t := Step(s, Override(client, op, d, value, reading));
      && Enabled(t, Serve(client, op)) && Enabled(Step(t, Serve(client, op)), Deliver(client, op))
      && Step(t, Serve(client, op)).clients[client].saves[op].reply == Some(Accepted)
      && NewestHas(Step(t, Serve(client, op)), reading.id, d.code, value)
  {
    OverrideSent(s, client, op, d, value, reading);
    var t := Step(s, Override(client, op, d, value, reading));
    ReplyExactly(t, client, op);
    AcceptedHas(t, client, op);
  }

  /** The section shows the object that was read, with one version more and the user's value in the field. */
  predicate ShowsOwn(section: Section, reading: ViewObject, d: Definition, value: FieldValue) {
    && section.cached.id == reading.id && section.cached.version == reading.version + 1
    && section.cached.content == Content(reading.content.status, reading.content.fields[d.code := value])
    && forall f :: 0 <= f < |section.fields| && section.fields[f].definition.code == d.code ==>
        section.fields[f].value == Some(value)
  }

  lemma RetryDelivered(s: State, client: nat, op: nat, reading: ViewObject, d: Definition, value: FieldValue)
    requires client in s.clients && op in s.clients[client].saves
    requires s.clients[client].saves[op] == Save(reading, d, value, true, Some(Accepted))
    ensures Enabled(s, Deliver(client, op))
    ensures var t := Step(s, Deliver(client, op));
      && t.server == s.server && client in t.clients
      && op !in t.clients[client].saves && (reading.id, d) !in t.clients[client].dialogs
      && |t.clients[client].sections| == |s.clients[client].sections|
      && forall i :: 0 <= i < |s.clients[client].sections| ==>
          if s.clients[client].sections[i].cached.id == reading.id
          then ShowsOwn(t.clients[client].sections[i], reading, d, value)
          else t.clients[client].sections[i] == s.clients[client].sections[i]
  {
  }

  function Overriding(client: nat, op: nat, d: Definition, value: FieldValue, reading: ViewObject): seq<Event> {
    [Override(client, op, d, value, reading)] + ([Serve(client, op)] + [Deliver(client, op)])
  }

  /** Sent, served and delivered: the user's value is the newest one, the dialog is closed, and the view shows it. */
  lemma OverrideWins(s: State, client: nat, op: nat, d: Definition, value: FieldValue, reading: ViewObject)
    requires CanOverride(s, client, op, d, value, reading)
    ensures Possible(s, Overriding(client, op, d, value, reading))
    ensures var t := Run(s, Overriding(client, op, d, value, reading));
      && NewestHas(t, reading.id, d.code, value) && client in t.clients
      && op !in t.clients[client].saves && (reading.id, d) !in t.clients[client].dialogs
      && |t.clients[client].sections| == |s.clients[client].sections|
      && forall i :: 0 <= i < |s.clients[client].sections| && s.clients[client].sections[i].cached.id == reading.id ==>
          ShowsOwn(t.clients[client].sections[i], reading, d, value)
  {
    var e := Override(client, op, d, value, reading);
    var s1 := Step(s, e);
    OverrideSent(s, client, op, d, value, reading);
    OverrideServed(s, client, op, d, value, reading);
    ReplyExactly(s1, client, op);
    var s2 := Step(s1, Serve(client, op));
    RetryDelivered(s2, client, op, reading, d, value);
    ThreeEvents(s, e, Serve(client, op), Deliver(client, op), s1, s2);
  }

  lemma ThreeEvents(s: State, a: Event, b: Event, c: Event, s1: State, s2: State)
    requires Enabled(s, a) && s1 == Step(s, a) && Enabled(s1, b) && s2 == Step(s1, b) && Enabled(s2, c)
    ensures Possible(s, [a] + ([b] + [c])) && Run(s, [a] + ([b] + [c])) == Step(s2, c)
  {
    OneEvent(s2, c);
    Before(s1, b, [c]);
    Before(s, a, [b] + [c]);
  }

  lemma OneEvent(s: State, e: Event)
    requires Enabled(s, e)
    ensures Possible(s, [e]) && Run(s, [e]) == Step(s, e)
  {
    assert [e] + [] == [e];
    Before(s, e, []);
  }

  /** From every state with an outdated save of an open object: the conflict comes up, and when the object is then
      read under its newest number, sending the value again makes it the newest one. */
  lemma ConflictWon(s: State, client: nat, op: nat, reading: ViewObject)
    requires Outdated(s, client, op)
    requires var save := s.clients[client].saves[op];
      && Fits(save.definition.kind, save.value) && reading.id == save.base.id
      && Readable(s.server, reading) && reading.version == NewestNumber(s, reading.id)
    ensures Possible(s, [Serve(client, op), Deliver(client, op)])
    ensures var save, shown := s.clients[client].saves[op], Run(s, [Serve(client, op), Deliver(client, op)]);
      && client in shown.clients && (reading.id, save.definition) in shown.clients[client].dialogs
      && Possible(shown, Overriding(client, op, save.definition, save.value, reading))
      && NewestHas(Run(shown, Overriding(client, op, save.definition, save.value, reading)),
                   reading.id, save.definition.code, save.value)
  {
    var save := s.clients[client].saves[op];
    ConflictShown(s, client, op);
    var shown := Run(s, [Serve(client, op), Deliver(client, op)]);
    assert CanOverride(shown, client, op, save.definition, save.value, reading);
    OverrideWins(shown, client, op, save.definition, save.value, reading);
  }

  /** Giving in instead shows the object that was read, its stored values only, and writes nothing. */
  lemma CurrentShown(s: State, client: nat, op: nat, d: Definition, reading: ViewObject)
    requires Enabled(s, Resolve(client, op, reading.id, d, Choice.Current, Some(reading), None))
    ensures var t := Step(s, Resolve(client, op, reading.id, d, Choice.Current, Some(reading), None));
      && t.server == s.server && t.writes == s.writes && client in t.clients
      && t.clients[client].saves == s.clients[client].saves
      && t.clients[client].dialogs == s.clients[client].dialogs - {(reading.id, d)}
      && |t.clients[client].sections| == |s.clients[client].sections|
      && forall i :: 0 <= i < |s.clients[client].sections| ==>
          if s.clients[client].sections[i].cached.id == reading.id
          then ShowsStored(t.clients[client].sections[i], reading)
          else t.clients[client].sections[i] == s.clients[client].sections[i]
  {
  }

  predicate ShowsStored(section: Section, o: ViewObject) {
    section.cached == o && forall f :: 0 <= f < |section.fields| ==>
      var code := section.fields[f].definition.code;
      section.fields[f].value == if code in o.content.fields then Some(o.content.fields[code]) else None
  }

  // ---- a refusal

  /** The dialogs that stay when a save fails: all of them, unless it was sent from one, which closes. */
  function DialogsLeft(s: State, client: nat, op: nat): set<(string, Definition)>
    requires client in s.clients && op in s.clients[client].saves
  {
    var save := s.clients[client].saves[op];
    if save.retry then s.clients[client].dialogs - {(save.base.id, save.definition)} else s.clients[client].dialogs
  }

  /** A save whose reply is lost ends in the same way, whatever the server has done. */
  lemma LostDropped(s: State, client: nat, op: nat)
    requires Enabled(s, Lose(client, op))
    ensures var t := Step(s, Lose(client, op));
      && t.server == s.server && t.writes == s.writes && client in t.clients
      && t.clients[client] == Client(s.clients[client].sections, s.clients[client].saves - {op},
                                     DialogsLeft(s, client, op))
  {
  }

  /** A save of a missing or closed object ends without a dialog, and changes nothing on the server or in the view. */
  lemma RefusedDropped(s: State, client: nat, op: nat)
    requires Waiting(s, client, op) && !Open(s, s.clients[client].saves[op].base.id)
    ensures Possible(s, [Serve(client, op), Deliver(client, op)])
    ensures var t := Run(s, [Serve(client, op), Deliver(client, op)]);
      && t.server == s.server && t.writes == s.writes && client in t.clients
      && t.clients[client].sections == s.clients[client].sections
      && t.clients[client].saves == s.clients[client].saves - {op}
      && t.clients[client].dialogs == DialogsLeft(s, client, op)
  {
    var t := Step(s, Serve(client, op));
    ReplyExactly(s, client, op);
    OneEvent(t, Deliver(client, op));
    Before(s, Serve(client, op), [Deliver(client, op)]);
    assert [Serve(client, op)] + [Deliver(client, op)] == [Serve(client, op), Deliver(client, op)];
    assert t.clients[client].saves - {op} == s.clients[client].saves - {op};
  }
}
