/** Steps of the document protocol after which no write discards a value of its field unseen, even when
    readings mix fields of several versions. */
module DocumentFields {
  import opened Options
  import opened DocumentSections
  import opened DocumentProtocol

  /** A save of an editable field; it will count and discard nothing unseen, or not be accepted, and an
      accepted one is stored in the next version. */
  predicate Sound(s: Server, save: Save) {
    var id, version := save.base.id, save.base.version;
    && !save.definition.readOnly && Fits(save.definition.kind, save.value)
    && version < |VersionsOf(s, id)|
    && (save.reply.None? ==>
          Worth(s, save.base, save.Code(), save.value) && Gentle(s, save.base, save.Code(), save.value))
    && (save.reply == Some(Accepted) ==>
          && version + 1 < |VersionsOf(s, id)|
          && StoredIn(VersionsOf(s, id)[version + 1], save.Code()) == Some(save.value))
  }

  ghost predicate ClientInv(s: Server, c: Client) {
    && (forall i :: 0 <= i < |c.sections| ==> SectionUpToDate(s, c.sections[i]))
    && (forall op :: op in c.saves ==> Sound(s, c.saves[op]))
    && (forall d :: d in c.dialogs ==> !d.1.readOnly)
  }

  ghost predicate Inv(s: State) {
    && Sticky(s.server)
    && (forall client :: client in s.clients ==> ClientInv(s.server, s.clients[client]))
    && Safe(ShownFields, s)
  }

  // ---- a server that moves on

  lemma FieldLater(a: Server, b: Server, o: ViewObject, code: string)
    requires Grows(a, b) && o.version < |VersionsOf(a, o.id)| && FieldUpToDate(a, o, code)
    ensures FieldUpToDate(b, o, code)
  {
    if Accepts(b, o.id, o.version) {
      AcceptedBefore(a, b, o.id, o.version);
    }
  }

  lemma SectionLater(a: Server, b: Server, section: Section)
    requires Grows(a, b) && SectionUpToDate(a, section)
    ensures SectionUpToDate(b, section)
  {
    assert VersionsOf(a, section.cached.id) <= VersionsOf(b, section.cached.id);
    forall f: nat | Editable(section, f)
      ensures FieldUpToDate(b, section.cached, section.fields[f].definition.code)
    {
      FieldLater(a, b, section.cached, section.fields[f].definition.code);
    }
  }

  lemma SoundLater(a: Server, b: Server, save: Save)
    requires Grows(a, b) && Sound(a, save)
    ensures Sound(b, save)
  {
    assert VersionsOf(a, save.base.id) <= VersionsOf(b, save.base.id);
    if save.reply.None? && Accepts(b, save.base.id, save.base.version) {
      AcceptedBefore(a, b, save.base.id, save.base.version);
    }
  }

  lemma ClientInvLater(a: Server, b: Server, c: Client)
    requires Grows(a, b) && ClientInv(a, c)
    ensures ClientInv(b, c)
  {
    forall i | 0 <= i < |c.sections|
      ensures SectionUpToDate(b, c.sections[i])
    {
      SectionLater(a, b, c.sections[i]);
    }
    forall op | op in c.saves
      ensures Sound(b, c.saves[op])
    {
      SoundLater(a, b, c.saves[op]);
    }
  }

  lemma InvAfter(s: State, server: Server, client: nat, c: Client, writes: seq<Write>)
    requires Inv(s) && Grows(s.server, server) && Sticky(server) && ClientInv(server, c)
    requires forall i :: 0 <= i < |writes| ==> !Discards(writes[i])
    ensures Inv(State(server, s.clients[client := c], writes))
  {
    forall other | other in s.clients && other != client
      ensures ClientInv(server, s.clients[other])
    {
      ClientInvLater(s.server, server, s.clients[other]);
    }
  }

  lemma ClientAfter(s: State, client: nat, c: Client)
    requires Inv(s) && ClientInv(s.server, c)
    ensures Inv(WithClient(s, client, c))
  {
    InvAfter(s, s.server, client, c, s.writes);
  }

  lemma SaveAdded(s: Server, c: Client, op: nat, save: Save)
    requires ClientInv(s, c) && Sound(s, save)
    ensures ClientInv(s, WithSave(c, op, save))
  {
  }

  // ---- the server's decision

  /** An accepted save discards nothing unseen and is stored in the next version. */
  lemma AcceptedSound(s: Server, client: nat, save: Save)
    requires Sound(s, save) && save.reply.None? && Accepts(s, save.base.id, save.base.version)
    ensures var now := VersionsOf(s, save.base.id)[save.base.version];
      && Counts(s, now, save.Code(), save.value)
      && !Discards(Write(client, save.base, save.Code(), save.value, now))
      && var server := Append(s, save.base.id, WithField(now, save.Code(), save.value));
      && Grows(s, server) && Sound(server, save.(reply := Some(Accepted)))
  {
    var now := VersionsOf(s, save.base.id)[save.base.version];
    AppendGrows(s, save.base.id, WithField(now, save.Code(), save.value));
  }

  lemma AcceptKeeps(s: State, client: nat, op: nat)
    requires Inv(s) && Enabled(s, Serve(client, op)) && s.clients[client].saves[op].reply.None?
    requires var base := s.clients[client].saves[op].base; Accepts(s.server, base.id, base.version)
    ensures Inv(Decide(s, client, op))
  {
    var c := s.clients[client];
    var save := c.saves[op];
    assert ClientInv(s.server, c);
    AcceptedSound(s.server, client, save);
    var now := VersionsOf(s.server, save.base.id)[save.base.version];
    var server := Append(s.server, save.base.id, WithField(now, save.Code(), save.value));
    StepSticky(s, Serve(client, op));
    ClientInvLater(s.server, server, c);
    SaveAdded(server, c, op, save.(reply := Some(Accepted)));
    InvAfter(s, server, client, WithSave(c, op, save.(reply := Some(Accepted))),
             s.writes + [Write(client, save.base, save.Code(), save.value, now)]);
  }

  lemma RepliedKeeps(s: State, client: nat, op: nat, reply: Reply)
    requires Inv(s) && Enabled(s, Serve(client, op)) && reply != Accepted
    ensures Inv(Replied(s, client, op, reply))
  {
    var c := s.clients[client];
    assert ClientInv(s.server, c) && Sound(s.server, c.saves[op]);
    SaveAdded(s.server, c, op, c.saves[op].(reply := Some(reply)));
    ClientAfter(s, client, WithSave(c, op, c.saves[op].(reply := Some(reply))));
  }

  lemma ServeKeeps(s: State, client: nat, op: nat)
    requires Inv(s) && Enabled(s, Serve(client, op))
    ensures Inv(Decide(s, client, op))
  {
    var save := s.clients[client].saves[op];
    if save.reply.None? {
      if Accepts(s.server, save.base.id, save.base.version) {
        AcceptKeeps(s, client, op);
      } else {
        RepliedKeeps(s, client, op, Refused);
        RepliedKeeps(s, client, op, Conflict);
      }
    }
  }

  // ---- replies

  /** What becomes of a section when an accepted save is applied to it. */
  function Applied(section: Section, save: Save): Section {
    if save.retry then ReplaceObjectIn(section, Adopted(save))
    else ReplaceFieldIn(section, save.Code(), save.value, save.base.version + 1)
  }

  /** A section that shows the reply is as the server has it exactly when its other fields are. */
  lemma AppliedExact(s: Server, section: Section, save: Save)
    requires section.cached.id == save.base.id && Sound(s, save) && save.reply == Some(Accepted)
    ensures SectionUpToDate(s, Applied(section, save)) <==>
      (Accepts(s, save.base.id, save.base.version + 1) ==>
       SectionApplies(VersionsOf(s, save.base.id)[save.base.version + 1], section, save))
  {
    var after := Applied(section, save);
    if Accepts(s, save.base.id, save.base.version + 1) {
      var now := VersionsOf(s, save.base.id)[save.base.version + 1];
      forall f: nat | f < |section.fields|
        ensures (Editable(after, f) ==> FieldUpToDate(s, after.cached, after.fields[f].definition.code)) <==>
          FieldApplies(now, section, f, save)
      {
        assert after.fields[f].definition == section.fields[f].definition;
      }
    }
  }

  lemma ReceivedUpToDate(s: Server, c: Client, op: nat)
    requires ClientInv(s, c) && op in c.saves && c.saves[op].reply == Some(Accepted)
    ensures (forall i :: 0 <= i < |c.sections| ==> SectionUpToDate(s, Receive(c, op).sections[i])) <==>
      FieldsApply(s, c, c.saves[op])
  {
    var save, sections := c.saves[op], Receive(c, op).sections;
    forall i | 0 <= i < |c.sections|
      ensures SectionUpToDate(s, sections[i]) <==>
        (c.sections[i].cached.id == save.base.id && Accepts(s, save.base.id, save.base.version + 1) ==>
         SectionApplies(VersionsOf(s, save.base.id)[save.base.version + 1], c.sections[i], save))
    {
      if c.sections[i].cached.id == save.base.id {
        AppliedExact(s, c.sections[i], save);
        assert sections[i] == Applied(c.sections[i], save);
      } else {
        assert sections[i] == c.sections[i];
      }
    }
  }

  lemma ReceiveKeeps(s: Server, c: Client, op: nat)
    requires ClientInv(s, c) && op in c.saves && c.saves[op].reply.Some?
    requires c.saves[op].reply == Some(Accepted) ==> FieldsApply(s, c, c.saves[op])
    ensures ClientInv(s, Receive(c, op))
  {
    assert Sound(s, c.saves[op]);
    if c.saves[op].reply.value == Accepted {
      ReceivedUpToDate(s, c, op);
    }
  }

  lemma AnswerKeeps(s: Server, c: Client, op: nat, latest: ViewObject, d: Definition, choice: Choice,
                    coerced: Option<FieldValue>)
    requires ClientInv(s, c) && !d.readOnly && latest.version < |VersionsOf(s, latest.id)|
    requires choice == Current ==> MayShow(s, c, latest)
    requires choice == Mine && coerced.Some? ==>
      Gentle(s, latest, d.code, coerced.value) && Worth(s, latest, d.code, coerced.value) && Fits(d.kind, coerced.value)
    ensures ClientInv(s, Answer(c, op, latest, d, choice, coerced))
  {
    match choice
    case Current =>
      var sections := ReplaceObject(c.sections, latest.id, latest);
      forall i | 0 <= i < |sections|
        ensures SectionUpToDate(s, sections[i])
      {
        assert SectionUpToDate(s, c.sections[i]);
      }
    case Mine =>
      if coerced.Some? {
        SaveAdded(s, c, op, Save(latest, d, coerced.value, true, None));
      }
  }

  // ---- every careful step keeps the invariant

  lemma StartSaveKeeps(s: State, client: nat, op: nat, section: nat, field: nat, value: FieldValue)
    requires Inv(s) && Enabled(s, StartSave(client, op, section, field, Some(value)))
    requires Careful(ShownFields, s, StartSave(client, op, section, field, Some(value)))
    ensures Inv(Step(s, StartSave(client, op, section, field, Some(value))))
  {
    var c := s.clients[client];
    var save := StartedSave(c.sections[section], field, value);
    assert ClientInv(s.server, c) && SectionUpToDate(s.server, c.sections[section]);
    assert FieldUpToDate(s.server, save.base, save.Code());
    SaveAdded(s.server, c, op, save);
    ClientAfter(s, client, WithSave(c, op, save));
  }

  lemma ResolveKeeps(s: State, e: Event)
    requires Inv(s) && e.Resolve? && Enabled(s, e) && Careful(ShownFields, s, e)
    ensures Inv(Step(s, e))
  {
    var c := s.clients[e.client];
    assert ClientInv(s.server, c) && !e.definition.readOnly;
    if e.reading.Some? {
      AnswerKeeps(s.server, c, e.op, e.reading.value, e.definition, e.choice, e.coerced);
    }
    ClientAfter(s, e.client, Step(s, e).clients[e.client]);
  }

  lemma OthersKeep(s: State, e: Event)
    requires Inv(s) && Enabled(s, e) && (e.Create? || e.OtherField? || e.OtherStatus?)
    ensures Inv(Step(s, e))
  {
    StepGrows(s, e);
    StepSticky(s, e);
    forall client | client in s.clients
      ensures ClientInv(Step(s, e).server, s.clients[client])
    {
      ClientInvLater(s.server, Step(s, e).server, s.clients[client]);
    }
  }

  /** Every careful step keeps the invariant, with any readings the read model can show. */
  lemma StepKeeps(s: State, e: Event)
    requires Inv(s) && Enabled(s, e) && Careful(ShownFields, s, e)
    ensures Inv(Step(s, e))
  {
    match e
    case Load(client, items) =>
      assert ClientInv(s.server, s.clients[client]);
      ClientAfter(s, client, s.clients[client].(sections := Built(items)));
    case StartSave(client, op, section, field, coerced) =>
      if coerced.Some? {
        StartSaveKeeps(s, client, op, section, field, coerced.value);
      }
    case Serve(client, op) => ServeKeeps(s, client, op);
    case Refuse(client, op) => RepliedKeeps(s, client, op, Refused);
    case Deliver(client, op) =>
      ReceiveKeeps(s.server, s.clients[client], op);
      ClientAfter(s, client, Receive(s.clients[client], op));
    case Lose(client, op) =>
      assert ClientInv(s.server, s.clients[client]);
      ClientAfter(s, client, Failed(s.clients[client], op));
    case Resolve(_, _, _, _, _, _, _) => ResolveKeeps(s, e);
    case Dismiss(client, _, _) =>
      assert ClientInv(s.server, s.clients[client]);
      ClientAfter(s, client, Step(s, e).clients[client]);
    case _ => OthersKeep(s, e);
  }
}
