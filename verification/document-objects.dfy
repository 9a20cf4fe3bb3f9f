/** Steps of the document protocol that keep whole objects as the server had them. */
module DocumentObjects {
  import opened Options
  import opened DocumentSections
  import opened DocumentProtocol

  /** A save of an editable field; it will count or not be accepted, and an accepted one is the next version. */
  predicate Sound(s: Server, save: Save) {
    && !save.definition.readOnly && Fits(save.definition.kind, save.value)
    && UpToDate(s, save.base)
    && (save.reply.None? ==> Worth(s, save.base, save.Code(), save.value))
    && (save.reply == Some(Accepted) ==> Historical(s, Adopted(save)))
  }

  ghost predicate ClientInv(s: Server, c: Client) {
    && Faithful(s, c)
    && (forall op :: op in c.saves ==> Sound(s, c.saves[op]))
    && (forall d :: d in c.dialogs ==> !d.1.readOnly)
  }

  ghost predicate Inv(s: State) {
    && Sticky(s.server)
    && (forall client :: client in s.clients ==> ClientInv(s.server, s.clients[client]))
    && (forall i :: 0 <= i < |s.writes| ==> Seen(s.writes[i]))
  }

  lemma InvSafe(s: State)
    requires Inv(s)
    ensures Safe(WholeObjects, s)
  {
    forall client | client in s.clients
      ensures Faithful(s.server, s.clients[client])
    {
      assert ClientInv(s.server, s.clients[client]);
    }
  }

  // ---- a server that moves on

  lemma UpToDateLater(a: Server, b: Server, o: ViewObject)
    requires Grows(a, b) && UpToDate(a, o)
    ensures UpToDate(b, o)
  {
    assert VersionsOf(a, o.id) <= VersionsOf(b, o.id);
    if Accepts(b, o.id, o.version) {
      AcceptedBefore(a, b, o.id, o.version);
    }
  }

  lemma SoundLater(a: Server, b: Server, save: Save)
    requires Grows(a, b) && Sound(a, save)
    ensures Sound(b, save)
  {
    UpToDateLater(a, b, save.base);
    if save.reply.None? && Accepts(b, save.base.id, save.base.version) {
      AcceptedBefore(a, b, save.base.id, save.base.version);
    }
    if save.reply == Some(Accepted) {
      HistoricalLater(a, b, Adopted(save));
    }
  }

  lemma ClientInvLater(a: Server, b: Server, c: Client)
    requires Grows(a, b) && ClientInv(a, c)
    ensures ClientInv(b, c)
  {
    forall i | 0 <= i < |c.sections|
      ensures Historical(b, c.sections[i].cached)
    {
      HistoricalLater(a, b, c.sections[i].cached);
    }
    forall op | op in c.saves
      ensures Sound(b, c.saves[op])
    {
      SoundLater(a, b, c.saves[op]);
    }
  }

  /** When the server moves on and one client changes, the others keep their invariant. */
  lemma InvAfter(s: State, server: Server, client: nat, c: Client, writes: seq<Write>)
    requires Inv(s) && Grows(s.server, server) && Sticky(server) && ClientInv(server, c)
    requires forall i :: 0 <= i < |writes| ==> Seen(writes[i])
    ensures Inv(State(server, s.clients[client := c], writes))
  {
    forall other | other in s.clients && other != client
      ensures ClientInv(server, s.clients[other])
    {
      ClientInvLater(s.server, server, s.clients[other]);
    }
  }

  lemma ClientAfter(s: State, client: nat, c: Client)
    requires Inv(s) && ClientInv(s.server, c)
    ensures Inv(WithClient(s, client, c))
  {
    InvAfter(s, s.server, client, c, s.writes);
  }

  lemma SaveAdded(s: Server, c: Client, op: nat, save: Save)
    requires ClientInv(s, c) && Sound(s, save)
    ensures ClientInv(s, WithSave(c, op, save))
  {
  }

  // ---- the server's decision

  /** An accepted save replaced what its writer had read, and the writer will adopt the next version. */
  lemma AcceptedSound(s: Server, save: Save)
    requires Sound(s, save) && save.reply.None? && Accepts(s, save.base.id, save.base.version)
    ensures var now := VersionsOf(s, save.base.id)[save.base.version];
      && now == save.base.content && Counts(s, now, save.Code(), save.value)
      && var server := Append(s, save.base.id, WithField(now, save.Code(), save.value));
      && Grows(s, server) && Sound(server, save.(reply := Some(Accepted)))
  {
    var next := WithField(save.base.content, save.Code(), save.value);
    AppendGrows(s, save.base.id, next);
    UpToDateLater(s, Append(s, save.base.id, next), save.base);
  }

  lemma AcceptKeeps(s: State, client: nat, op: nat)
    requires Inv(s) && Enabled(s, Serve(client, op)) && s.clients[client].saves[op].reply.None?
    requires var base := s.clients[client].saves[op].base; Accepts(s.server, base.id, base.version)
    ensures Inv(Decide(s, client, op))
  {
    var c := s.clients[client];
    var save := c.saves[op];
    assert ClientInv(s.server, c);
    AcceptedSound(s.server, save);
    var server := Append(s.server, save.base.id, WithField(save.base.content, save.Code(), save.value));
    StepSticky(s, Serve(client, op));
    ClientInvLater(s.server, server, c);
    SaveAdded(server, c, op, save.(reply := Some(Accepted)));
    InvAfter(s, server, client, WithSave(c, op, save.(reply := Some(Accepted))),
             s.writes + [Write(client, save.base, save.Code(), save.value, save.base.content)]);
  }

  lemma RepliedKeeps(s: State, client: nat, op: nat, reply: Reply)
    requires Inv(s) && Enabled(s, Serve(client, op)) && reply != Accepted
    ensures Inv(Replied(s, client, op, reply))
  {
    var c := s.clients[client];
    assert ClientInv(s.server, c) && Sound(s.server, c.saves[op]);
    SaveAdded(s.server, c, op, c.saves[op].(reply := Some(reply)));
    ClientAfter(s, client, WithSave(c, op, c.saves[op].(reply := Some(reply))));
  }

  lemma ServeKeeps(s: State, client: nat, op: nat)
    requires Inv(s) && Enabled(s, Serve(client, op))
    ensures Inv(Decide(s, client, op))
  {
    var save := s.clients[client].saves[op];
    if save.reply.None? {
      if Accepts(s.server, save.base.id, save.base.version) {
        AcceptKeeps(s, client, op);
      } else {
        RepliedKeeps(s, client, op, Refused);
        RepliedKeeps(s, client, op, Conflict);
      }
    }
  }

  // ---- replies

  lemma WithFieldAgree(a: Content, b: Content, code: string, value: FieldValue)
    ensures WithField(a, code, value) == WithField(b, code, value) <==> AgreeOutside(a, b, code)
  {
    var x, y := WithField(a, code, value), WithField(b, code, value);
    assert x.fields - {code} == a.fields - {code} && y.fields - {code} == b.fields - {code};
    if AgreeOutside(a, b, code) {
      assert x.fields == (a.fields - {code})[code := value] && y.fields == (b.fields - {code})[code := value];
    }
  }

  /** Applying an accepted save to a section leaves a state the server had exactly when the section still
      shows what the save started from, outside the saved field. */
  lemma ReplyExact(s: Server, section: Section, save: Save)
    requires section.cached.id == save.base.id && Historical(s, Adopted(save))
    ensures var after := ReplaceFieldIn(section, save.Code(), save.value, save.base.version + 1);
      Historical(s, after.cached) <==> AgreeOutside(section.cached.content, save.base.content, save.Code())
  {
    WithFieldAgree(section.cached.content, save.base.content, save.Code(), save.value);
  }

  /** After an accepted save is applied, the client is faithful exactly when it might apply it. */
  lemma AppliedExact(s: Server, c: Client, save: Save)
    requires Faithful(s, c) && Historical(s, Adopted(save))
    ensures var sections := ReplaceField(c.sections, save.base.id, save.Code(), save.value, save.base.version + 1);
      (forall i :: 0 <= i < |sections| ==> Historical(s, sections[i].cached)) <==> MayApply(c, save)
  {
    var sections := ReplaceField(c.sections, save.base.id, save.Code(), save.value, save.base.version + 1);
    forall i | 0 <= i < |sections|
      ensures Historical(s, sections[i].cached) <==>
        (c.sections[i].cached.id == save.base.id ==>
         AgreeOutside(c.sections[i].cached.content, save.base.content, save.Code()))
    {
      if c.sections[i].cached.id == save.base.id {
        ReplyExact(s, c.sections[i], save);
      }
    }
  }

  lemma ReplacedFaithful(s: Server, c: Client, o: ViewObject)
    requires Faithful(s, c) && (ShownAt(c, o.id) ==> Historical(s, o))
    ensures Faithful(s, c.(sections := ReplaceObject(c.sections, o.id, o)))
  {
    ReplaceObjectConsistent(c.sections, o.id, o);
  }

  lemma ReceiveKeeps(s: Server, c: Client, op: nat)
    requires ClientInv(s, c) && op in c.saves && c.saves[op].reply.Some?
    requires c.saves[op].reply == Some(Accepted) && !c.saves[op].retry ==> MayApply(c, c.saves[op])
    ensures ClientInv(s, Receive(c, op))
  {
    var save := c.saves[op];
    assert Sound(s, save);
    if save.reply.value == Accepted {
      if save.retry {
        ReplacedFaithful(s, c, Adopted(save));
      } else {
        ReplaceFieldConsistent(c.sections, save.base.id, save.Code(), save.value, save.base.version + 1);
        AppliedExact(s, c, save);
      }
    }
  }

  lemma AnswerKeeps(s: Server, c: Client, op: nat, latest: ViewObject, d: Definition, choice: Choice,
                    coerced: Option<FieldValue>)
    requires ClientInv(s, c) && !d.readOnly
    requires choice == Current && ShownAt(c, latest.id) ==> Historical(s, latest)
    requires choice == Mine && coerced.Some? ==>
      UpToDate(s, latest) && Worth(s, latest, d.code, coerced.value) && Fits(d.kind, coerced.value)
    ensures ClientInv(s, Answer(c, op, latest, d, choice, coerced))
  {
    match choice
    case Current => ReplacedFaithful(s, c, latest);
    case Mine =>
      if coerced.Some? {
        SaveAdded(s, c, op, Save(latest, d, coerced.value, true, None));
      }
  }

  lemma LoadKeeps(s: Server, c: Client, items: seq<Item>)
    requires ClientInv(s, c) && forall i :: 0 <= i < |items| ==> Historical(s, items[i].read)
    ensures ClientInv(s, c.(sections := Built(items)))
  {
    forall i | 0 <= i < |items|
      ensures Consistent(Built(items)[i])
    {
      BuiltConsistent(items[i].read, items[i].depth, items[i].definitions);
    }
  }

  // ---- every careful step keeps the invariant

  lemma StartSaveKeeps(s: State, client: nat, op: nat, section: nat, field: nat, value: FieldValue)
    requires Inv(s) && Enabled(s, StartSave(client, op, section, field, Some(value)))
    requires Careful(WholeObjects, s, StartSave(client, op, section, field, Some(value)))
    ensures Inv(Step(s, StartSave(client, op, section, field, Some(value))))
  {
    var c := s.clients[client];
    var save := StartedSave(c.sections[section], field, value);
    assert ClientInv(s.server, c) && Historical(s.server, c.sections[section].cached);
    SaveAdded(s.server, c, op, save);
    ClientAfter(s, client, WithSave(c, op, save));
  }

  lemma ResolveKeeps(s: State, e: Event)
    requires Inv(s) && e.Resolve? && Enabled(s, e) && Careful(WholeObjects, s, e)
    ensures Inv(Step(s, e))
  {
    var c := s.clients[e.client];
    assert ClientInv(s.server, c) && !e.definition.readOnly;
    if e.reading.Some? {
      AnswerKeeps(s.server, c, e.op, e.reading.value, e.definition, e.choice, e.coerced);
    }
    ClientAfter(s, e.client, Step(s, e).clients[e.client]);
  }

  lemma OthersKeep(s: State, e: Event)
    requires Inv(s) && Enabled(s, e) && (e.Create? || e.OtherField? || e.OtherStatus?)
    ensures Inv(Step(s, e))
  {
    StepGrows(s, e);
    StepSticky(s, e);
    forall client | client in s.clients
      ensures ClientInv(Step(s, e).server, s.clients[client])
    {
      ClientInvLater(s.server, Step(s, e).server, s.clients[client]);
    }
  }

  /** Every careful step keeps the invariant, whatever else is outstanding and however far reads lag. */
  lemma StepKeeps(s: State, e: Event)
    requires Inv(s) && Enabled(s, e) && Careful(WholeObjects, s, e)
    ensures Inv(Step(s, e))
  {
    match e
    case Load(client, items) =>
      LoadKeeps(s.server, s.clients[client], items);
      ClientAfter(s, client, s.clients[client].(sections := Built(items)));
    case StartSave(client, op, section, field, coerced) =>
      if coerced.Some? {
        StartSaveKeeps(s, client, op, section, field, coerced.value);
      }
    case Serve(client, op) => ServeKeeps(s, client, op);
    case Refuse(client, op) => RepliedKeeps(s, client, op, Refused);
    case Deliver(client, op) =>
      ReceiveKeeps(s.server, s.clients[client], op);
      ClientAfter(s, client, Receive(s.clients[client], op));
    case Lose(client, op) =>
      assert ClientInv(s.server, s.clients[client]);
      ClientAfter(s, client, Failed(s.clients[client], op));
    case Resolve(_, _, _, _, _, _, _) => ResolveKeeps(s, e);
    case Dismiss(client, _, _) =>
      assert ClientInv(s.server, s.clients[client]);
      ClientAfter(s, client, Step(s, e).clients[client]);
    case _ => OthersKeep(s, e);
  }
}
