/** Whole runs of the document protocol: what careful steps guarantee, and what every other step leads to. */
module DocumentRuns {
  import opened Options
  import opened DocumentSections
  import opened DocumentProtocol
  import Objects = DocumentObjects
  import Fields = DocumentFields

  /** Nothing is loaded and nothing was written yet. */
  ghost predicate Starts(s: State) {
    && s.writes == [] && Sticky(s.server)
    && forall client :: client in s.clients ==> s.clients[client] == Client([], map[], {})
  }

  /** The events can happen one after the other. */
  ghost predicate Possible(s: State, events: seq<Event>)
    decreases |events|
  {
    events == [] || (Enabled(s, events[0]) && Possible(Step(s, events[0]), events[1..]))
  }

  ghost function Run(s: State, events: seq<Event>): State
    requires Possible(s, events)
    decreases |events|
  {
    if events == [] then s else Run(Step(s, events[0]), events[1..])
  }

  ghost predicate AllCareful(care: Care, s: State, events: seq<Event>)
    requires Possible(s, events)
    decreases |events|
  {
    events == [] || (Careful(care, s, events[0]) && AllCareful(care, Step(s, events[0]), events[1..]))
  }

  ghost predicate Inv(care: Care, s: State) {
    match care
    case WholeObjects => Objects.Inv(s)
    case ShownFields => Fields.Inv(s)
  }

  lemma InvSafe(care: Care, s: State)
    requires Inv(care, s)
    ensures Safe(care, s)
  {
    if care.WholeObjects? {
      Objects.InvSafe(s);
    }
  }

  lemma {:induction false} RunKeeps(care: Care, s: State, events: seq<Event>)
    requires Inv(care, s) && Possible(s, events) && AllCareful(care, s, events)
    ensures Inv(care, Run(s, events))
    decreases |events|
  {
    if events != [] {
      match care {
        case WholeObjects => Objects.StepKeeps(s, events[0]);
        case ShownFields => Fields.StepKeeps(s, events[0]);
      }
      RunKeeps(care, Step(s, events[0]), events[1..]);
    }
  }

  /** In every run that is careful about whole objects, with any number of clients and of operations
      outstanding, every cached object is one the server had, and every stored write replaced exactly what
      its writer had read. In every run that is careful about shown fields, no write discards a value unseen. */
  lemma RunSafe(care: Care, s: State, events: seq<Event>)
    requires Starts(s) && Possible(s, events) && AllCareful(care, s, events)
    ensures Safe(care, Run(s, events))
  {
    RunKeeps(care, s, events);
    InvSafe(care, Run(s, events));
  }

  // ---- an outdated version number

  lemma {:induction false} RunGrows(s: State, events: seq<Event>)
    requires Possible(s, events)
    ensures Grows(s.server, Run(s, events).server)
    decreases |events|
  {
    if events != [] {
      var t := Step(s, events[0]);
      StepGrows(s, events[0]);
      RunGrows(t, events[1..]);
      forall id
        ensures VersionsOf(s.server, id) <= VersionsOf(Run(s, events).server, id)
      {
        assert VersionsOf(s.server, id) <= VersionsOf(t.server, id) <= VersionsOf(Run(s, events).server, id);
      }
    }
  }

  /** A reading whose number is older than its fields can only lead to conflicts: whatever happens, a save that
      names the number is never accepted, and gets a conflict for as long as the object is open. */
  lemma OldNumberRefused(s: State, events: seq<Event>, client: nat, op: nat, id: string, version: nat)
    requires Possible(s, events) && version + 1 < |VersionsOf(s.server, id)|
    requires var t := Run(s, events);
      && Enabled(t, Serve(client, op)) && t.clients[client].saves[op].reply.None?
      && t.clients[client].saves[op].base.id == id && t.clients[client].saves[op].base.version == version
    ensures var t := Run(s, events);
      var after := Step(t, Serve(client, op));
      && after.server == t.server && after.writes == t.writes && VersionsOf(t.server, id) != []
      && after.clients[client].saves[op].reply ==
          if VersionsOf(t.server, id)[|VersionsOf(t.server, id)| - 1].status in {Filed, Void, Deleted}
          then Some(Refused) else Some(Conflict)
  {
    RunGrows(s, events);
    assert VersionsOf(s.server, id) <= VersionsOf(Run(s, events).server, id);
  }

  // ---- runs built step by step

  /** From `s`, these careful events lead to `t`. */
  ghost predicate Leads(care: Care, s: State, events: seq<Event>, t: State) {
    Possible(s, events) && AllCareful(care, s, events) && Run(s, events) == t
  }

  lemma Before(s: State, e: Event, rest: seq<Event>)
    requires Enabled(s, e) && Possible(Step(s, e), rest)
    ensures Possible(s, [e] + rest) && Run(s, [e] + rest) == Run(Step(s, e), rest)
  {
    assert ([e] + rest)[1..] == rest;
  }

  lemma LeadsFirst(care: Care, s: State, e: Event, rest: seq<Event>, t: State)
    requires Enabled(s, e) && Careful(care, s, e) && Leads(care, Step(s, e), rest, t)
    ensures Leads(care, s, [e] + rest, t)
  {
    Before(s, e, rest);
    assert ([e] + rest)[1..] == rest;
  }

  lemma LeadsOne(care: Care, s: State, e: Event)
    requires Enabled(s, e) && Careful(care, s, e)
    ensures Leads(care, s, [e], Step(s, e))
  {
    assert [e] == [e] + [];
    LeadsFirst(care, s, e, [], Step(s, e));
  }

  lemma {:induction false} After(s: State, events: seq<Event>, e: Event)
    requires Possible(s, events) && Enabled(Run(s, events), e)
    ensures Possible(s, events + [e]) && Run(s, events + [e]) == Step(Run(s, events), e)
    decreases |events|
  {
    if events == [] {
      assert [] + [e] == [e] + [];
      Before(s, e, []);
    } else {
      After(Step(s, events[0]), events[1..], e);
      Before(s, events[0], events[1..] + [e]);
      assert [events[0]] + (events[1..] + [e]) == events + [e];
    }
  }

  /** The last write of the run discards a value that its writer had not read. */
  ghost predicate EndsDiscarding(s: State, events: seq<Event>) {
    && Possible(s, events)
    && var writes := Run(s, events).writes;
    writes != [] && Discards(writes[|writes| - 1])
  }

  /** A possible run of careful steps that ends unsafely. */
  ghost predicate GoesWrong(care: Care, s: State, events: seq<Event>) {
    Possible(s, events) && AllCareful(care, s, events) && !Safe(care, Run(s, events))
  }

  ghost predicate LosesWrite(care: Care, s: State, events: seq<Event>) {
    EndsDiscarding(s, events) && AllCareful(care, s, events)
  }

  lemma LosingGoesWrong(care: Care, s: State, events: seq<Event>)
    requires LosesWrite(care, s, events)
    ensures GoesWrong(care, s, events)
  {
    var writes := Run(s, events).writes;
    assert Discards(writes[|writes| - 1]) && !Seen(writes[|writes| - 1]);
  }

  /** The event happens here, carefully, and leads to `t`. */
  ghost predicate Goes(care: Care, s: State, e: Event, t: State) {
    Enabled(s, e) && Careful(care, s, e) && t == Step(s, e)
  }

  lemma LosesFirst(care: Care, s: State, e: Event, t: State, rest: seq<Event>)
    requires Goes(care, s, e, t) && LosesWrite(care, t, rest)
    ensures LosesWrite(care, s, [e] + rest)
  {
    LeadsFirst(care, s, e, rest, Run(t, rest));
  }

  // ---- a shown field that the server would wrongly take for seen

  /** A value of the kind that is not the given one. */
  function Another(kind: Kind, value: Option<FieldValue>): (r: FieldValue)
    ensures Fits(kind, r) && Some(r) != value
  {
    match kind
    case TextKind => if value == Some(Text("")) then Text("1") else Text("")
    case NumberKind => if value == Some(Number(0.0)) then Number(1.0) else Number(0.0)
    case FlagKind => if value == Some(Flag(false)) then Flag(true) else Flag(false)
  }

  /** The field is offered for editing, the server would accept a save, and it has another value there. */
  predicate Misread(s: State, client: nat, i: nat, f: nat) {
    && client in s.clients && i < |s.clients[client].sections|
    && var section := s.clients[client].sections[i];
    && Editable(section, f)
    && Accepts(s.server, section.cached.id, section.cached.version)
    && !FieldUpToDate(s.server, section.cached, section.fields[f].definition.code)
  }

  function Overwriting(s: State, client: nat, op: nat, i: nat, f: nat): seq<Event>
    requires Misread(s, client, i, f)
  {
    var section := s.clients[client].sections[i];
    var d, now := section.fields[f].definition, VersionsOf(s.server, section.cached.id)[section.cached.version];
    [StartSave(client, op, i, f, Some(Another(d.kind, StoredIn(now, d.code))))] + [Serve(client, op)]
  }

  /** Saving such a field discards the value that the server has. */
  lemma MisreadLosesWrite(care: Care, s: State, client: nat, op: nat, i: nat, f: nat)
    requires Misread(s, client, i, f) && op !in s.clients[client].saves
    ensures LosesWrite(care, s, Overwriting(s, client, op, i, f))
  {
    var section := s.clients[client].sections[i];
    var d, now := section.fields[f].definition, VersionsOf(s.server, section.cached.id)[section.cached.version];
    var start := StartSave(client, op, i, f, Some(Another(d.kind, StoredIn(now, d.code))));
    var t := Step(s, start);
    DiscardsExactly(t, client, op);
    LeadsOne(care, t, Serve(client, op));
    LosesFirst(care, s, start, t, [Serve(client, op)]);
  }

  lemma {:induction false} FreeNumber(numbers: set<nat>) returns (n: nat)
    ensures forall k :: k in numbers ==> k < n
  {
    n := 0;
    if numbers != {} {
      var k :| k in numbers;
      var m := FreeNumber(numbers - {k});
      n := if m > k then m else k + 1;
      forall j | j in numbers
        ensures j < n
      {
        assert j == k || j in numbers - {k};
      }
    }
  }

  lemma MisreadGoesWrong(care: Care, s: State, client: nat, i: nat, f: nat)
    requires Misread(s, client, i, f)
    ensures exists rest :: GoesWrong(care, s, rest)
  {
    var op := FreeNumber(s.clients[client].saves.Keys);
    MisreadLosesWrite(care, s, client, op, i, f);
    LosingGoesWrong(care, s, Overwriting(s, client, op, i, f));
  }

  /** A section that is not as the server has it shows a field of that kind. */
  lemma SectionMisread(s: State, client: nat, i: nat)
    requires client in s.clients && i < |s.clients[client].sections|
    requires var section := s.clients[client].sections[i];
      section.cached.version < |VersionsOf(s.server, section.cached.id)| && !SectionUpToDate(s.server, section)
    ensures exists f: nat :: Misread(s, client, i, f)
  {
    var section := s.clients[client].sections[i];
    var f: nat :| Editable(section, f) && !FieldUpToDate(s.server, section.cached, section.fields[f].definition.code);
    assert Misread(s, client, i, f);
  }

  lemma SectionGoesWrong(care: Care, s: State, client: nat, i: nat)
    requires client in s.clients && i < |s.clients[client].sections|
    requires var section := s.clients[client].sections[i];
      section.cached.version < |VersionsOf(s.server, section.cached.id)| && !SectionUpToDate(s.server, section)
    ensures exists rest :: GoesWrong(care, s, rest)
  {
    SectionMisread(s, client, i);
    var f: nat :| Misread(s, client, i, f);
    MisreadGoesWrong(care, s, client, i, f);
  }

  // ---- a save that the server accepts without a new version

  function Sole(o: ViewObject, d: Definition): seq<Item> {
    [Item(o, 0, [d])]
  }

  /** An open save that the server would accept and not count. */
  predicate Idle(s: State, client: nat, op: nat) {
    && client in s.clients && op in s.clients[client].saves
    && var save := s.clients[client].saves[op];
    && save.reply.None? && !save.definition.readOnly && Fits(save.definition.kind, save.value)
    && !Locked(save.base.content.status)
    && Accepts(s.server, save.base.id, save.base.version)
    && !Counts(s.server, VersionsOf(s.server, save.base.id)[save.base.version], save.Code(), save.value)
  }

  function NowObject(s: State, id: string, version: nat): ViewObject
    requires version < |VersionsOf(s.server, id)|
  {
    ViewObject(id, version, VersionsOf(s.server, id)[version], map[])
  }

  /** The client shows one field, with one version more than the server has, and the server's value. */
  predicate Ahead(s: State, client: nat, op: nat, id: string, d: Definition, value: FieldValue) {
    && client in s.clients && op !in s.clients[client].saves && |s.clients[client].sections| == 1
    && var section := s.clients[client].sections[0];
    && section.cached.id == id && Editable(section, 0) && section.fields[0].definition == d
    && StoredIn(section.cached.content, d.code) == Some(value)
    && section.cached.version > 0 && Accepts(s.server, id, section.cached.version - 1)
    && !Counts(s.server, VersionsOf(s.server, id)[section.cached.version - 1], d.code, value)
  }

  /** The server says yes and adds no version, and the object is loaded again before the reply arrives. */
  lemma IdleLoaded(care: Care, s: State, client: nat, op: nat) returns (s1: State, t: State)
    requires Idle(s, client, op)
    ensures var save := s.clients[client].saves[op];
      var now := NowObject(s, save.base.id, save.base.version);
      && Goes(care, s, Serve(client, op), s1) && Goes(care, s1, Load(client, Sole(now, save.definition)), t)
      && t.server == s.server && client in t.clients
      && t.clients[client].saves == s.clients[client].saves[op := save.(reply := Some(Accepted))]
      && t.clients[client].sections == Built(Sole(now, save.definition))
  {
    var save := s.clients[client].saves[op];
    var now := NowObject(s, save.base.id, save.base.version);
    s1 := Step(s, Serve(client, op));
    HistoricalReadable(s1.server, now);
    assert Built(Sole(now, save.definition))[0].cached == now;
    t := Step(s1, Load(client, Sole(now, save.definition)));
  }

  lemma DeliveredAhead(care: Care, t: State, client: nat, op: nat, save: Save, now: ViewObject)
    requires client in t.clients && op in t.clients[client].saves && t.clients[client].saves[op] == save
    requires save.reply == Some(Accepted) && !save.definition.readOnly && !Locked(save.base.content.status)
    requires now.id == save.base.id && now.version == save.base.version && Historical(t.server, now)
    requires Accepts(t.server, now.id, now.version) && !Counts(t.server, now.content, save.Code(), save.value)
    requires t.clients[client].sections == Built(Sole(now, save.definition))
    requires care.WholeObjects? && !save.retry ==> save.base.content == now.content
    ensures Enabled(t, Deliver(client, op)) && Careful(care, t, Deliver(client, op))
    ensures var after := Step(t, Deliver(client, op));
      && after.server == t.server
      && Ahead(after, client, op, now.id, save.definition, save.value)
  {
    var c := t.clients[client];
    assert c.sections[0].cached == now && c.sections[0].fields[0].definition == save.definition;
  }

  function OtherOf(s: State, id: string, d: Definition, value: FieldValue): Event {
    OtherField(id, d.code, Another(d.kind, Some(value)))
  }

  /** Another user writes the field and so takes the version that the client shows. */
  lemma AheadMisreads(care: Care, s: State, client: nat, op: nat, id: string, d: Definition, value: FieldValue)
    requires Ahead(s, client, op, id, d, value)
    ensures var e := OtherOf(s, id, d, value);
      && Enabled(s, e) && Careful(care, s, e)
      && Misread(Step(s, e), client, 0, 0) && Step(s, e).clients == s.clients
  {
    var e, n := OtherOf(s, id, d, value), s.clients[client].sections[0].cached.version;
    var versions := VersionsOf(s.server, id);
    var next := WithField(versions[|versions| - 1], d.code, Another(d.kind, Some(value)));
    assert VersionsOf(Step(s, e).server, id) == versions + [next];
  }

  /** From every state with such a save, careful steps lead to a write that discards a value unseen. */
  lemma IdleLosesWrite(care: Care, s: State, client: nat, op: nat) returns (events: seq<Event>)
    requires Idle(s, client, op)
    requires var save := s.clients[client].saves[op];
      care.WholeObjects? && !save.retry ==> save.base.content == VersionsOf(s.server, save.base.id)[save.base.version]
    ensures LosesWrite(care, s, events)
  {
    var save := s.clients[client].saves[op];
    var now := NowObject(s, save.base.id, save.base.version);
    var s1, t := IdleLoaded(care, s, client, op);
    DeliveredAhead(care, t, client, op, save.(reply := Some(Accepted)), now);
    var after := Step(t, Deliver(client, op));
    var last := AheadLosesWrite(care, after, client, op, now.id, save.definition, save.value);
    events := [Deliver(client, op)] + last;
    LosesFirst(care, t, Deliver(client, op), after, last);
    LosesFirst(care, s1, Load(client, Sole(now, save.definition)), t, events);
    events := [Load(client, Sole(now, save.definition))] + events;
    LosesFirst(care, s, Serve(client, op), s1, events);
    events := [Serve(client, op)] + events;
  }

  lemma AheadLosesWrite(care: Care, s: State, client: nat, op: nat, id: string, d: Definition, value: FieldValue)
    returns (events: seq<Event>)
    requires Ahead(s, client, op, id, d, value)
    ensures LosesWrite(care, s, events)
  {
    AheadMisreads(care, s, client, op, id, d, value);
    var other := OtherOf(s, id, d, value);
    var t := Step(s, other);
    MisreadLosesWrite(care, t, client, op, 0, 0);
    events := [other] + Overwriting(t, client, op, 0, 0);
    LosesFirst(care, s, other, t, Overwriting(t, client, op, 0, 0));
  }

  // ---- every step that is not careful can go wrong

  lemma IdleGoesWrong(care: Care, s: State, client: nat, c: Client, op: nat, save: Save)
    requires client in s.clients && Idle(WithClient(s, client, WithSave(c, op, save)), client, op)
    requires care.WholeObjects? && !save.retry ==>
      save.base.content == VersionsOf(s.server, save.base.id)[save.base.version]
    ensures exists rest :: GoesWrong(care, WithClient(s, client, WithSave(c, op, save)), rest)
  {
    var t := WithClient(s, client, WithSave(c, op, save));
    var events := IdleLosesWrite(care, t, client, op);
    LosingGoesWrong(care, t, events);
  }

  lemma StartGoesWrong(care: Care, s: State, client: nat, op: nat, section: nat, field: nat, value: FieldValue)
    requires Inv(care, s) && Enabled(s, StartSave(client, op, section, field, Some(value)))
    requires !Careful(care, s, StartSave(client, op, section, field, Some(value)))
    ensures exists rest :: GoesWrong(care, Step(s, StartSave(client, op, section, field, Some(value))), rest)
  {
    var c := s.clients[client];
    if care.WholeObjects? {
      assert Objects.ClientInv(s.server, c) && Historical(s.server, c.sections[section].cached);
    }
    var save := StartedSave(c.sections[section], field, value);
    IdleGoesWrong(care, s, client, c, op, save);
    assert Step(s, StartSave(client, op, section, field, Some(value))) == WithClient(s, client, WithSave(c, op, save));
  }

  /** Served at once, a retry of a reading that is not up to date is a write unseen. */
  lemma ServedGoesWrong(care: Care, s: State, client: nat, op: nat)
    requires client in s.clients && op in s.clients[client].saves && s.clients[client].saves[op].reply.None?
    requires var save := s.clients[client].saves[op];
      && save.base.version < |VersionsOf(s.server, save.base.id)|
      && Worth(s.server, save.base, save.Code(), save.value)
      && !(if care.WholeObjects? then UpToDate(s.server, save.base)
           else Gentle(s.server, save.base, save.Code(), save.value))
    ensures GoesWrong(care, s, [Serve(client, op)])
  {
    DiscardsExactly(s, client, op);
    UnseenExactly(s, client, op);
    LeadsOne(care, s, Serve(client, op));
    var after := Step(s, Serve(client, op));
    assert if care.WholeObjects? then !Seen(after.writes[|after.writes| - 1])
           else Discards(after.writes[|after.writes| - 1]);
  }

  lemma MineGoesWrong(care: Care, s: State, e: Event)
    requires Inv(care, s) && Enabled(s, e) && !Careful(care, s, e)
    requires e.Resolve? && e.choice == Mine && e.reading.Some? && e.coerced.Some?
    ensures exists rest :: GoesWrong(care, Step(s, e), rest)
  {
    var c, reading := s.clients[e.client], e.reading.value;
    var save := Save(reading, e.definition, e.coerced.value, true, None);
    assert Step(s, e) == WithClient(s, e.client, WithSave(c, e.op, save));
    if Worth(s.server, reading, e.definition.code, e.coerced.value) {
      ServedGoesWrong(care, Step(s, e), e.client, e.op);
    } else {
      OpenReading(s.server, reading);
      if care.WholeObjects? {
        assert Objects.ClientInv(s.server, c);
      } else {
        assert Fields.ClientInv(s.server, c);
      }
      IdleGoesWrong(care, s, e.client, c, e.op, save);
    }
  }

  /** Showing what the server never had is unsafe at once. */
  lemma UnfaithfulGoesWrong(s: State, client: nat)
    requires client in s.clients && !Faithful(s.server, s.clients[client])
    ensures exists rest :: GoesWrong(WholeObjects, s, rest)
  {
    assert GoesWrong(WholeObjects, s, []);
  }

  lemma ShowingGoesWrong(care: Care, s: State, e: Event)
    requires Inv(care, s) && Enabled(s, e) && !Careful(care, s, e)
    requires e.Load? || (e.Resolve? && e.choice == DocumentProtocol.Current && e.reading.Some?)
    ensures exists rest :: GoesWrong(care, Step(s, e), rest)
  {
    var t := Step(s, e);
    if care.WholeObjects? {
      assert !Faithful(t.server, t.clients[e.client]) by {
        if e.Load? {
          var i :| 0 <= i < |e.items| && !Historical(s.server, e.items[i].read);
          assert t.clients[e.client].sections[i].cached == e.items[i].read;
        } else {
          var i :| 0 <= i < |s.clients[e.client].sections| && s.clients[e.client].sections[i].cached.id == e.id;
          assert t.clients[e.client].sections[i].cached == e.reading.value;
        }
      }
      UnfaithfulGoesWrong(t, e.client);
    } else if e.Load? {
      var i :| 0 <= i < |e.items| && !SectionUpToDate(s.server, Built(e.items)[i]);
      SectionGoesWrong(care, t, e.client, i);
    } else {
      var c := s.clients[e.client];
      var i :| 0 <= i < |c.sections| && c.sections[i].cached.id == e.id &&
        !SectionUpToDate(s.server, ReplaceObjectIn(c.sections[i], e.reading.value));
      assert t.clients[e.client].sections[i] == ReplaceObjectIn(c.sections[i], e.reading.value);
      SectionGoesWrong(care, t, e.client, i);
    }
  }

  lemma DeliveryGoesWrong(care: Care, s: State, client: nat, op: nat)
    requires Inv(care, s) && Enabled(s, Deliver(client, op)) && !Careful(care, s, Deliver(client, op))
    ensures exists rest :: GoesWrong(care, Step(s, Deliver(client, op)), rest)
  {
    var c, t := s.clients[client], Step(s, Deliver(client, op));
    if care.WholeObjects? {
      UnfaithfulAfter(s.server, c, op);
      UnfaithfulGoesWrong(t, client);
    } else {
      var i := MisreadAfter(s.server, c, op);
      SectionGoesWrong(care, t, client, i);
    }
  }

  lemma UnfaithfulAfter(s: Server, c: Client, op: nat)
    requires Objects.ClientInv(s, c) && op in c.saves && c.saves[op].reply == Some(Accepted)
    requires !c.saves[op].retry && !MayApply(c, c.saves[op])
    ensures !Faithful(s, Receive(c, op))
  {
    assert Objects.Sound(s, c.saves[op]);
    Objects.AppliedExact(s, c, c.saves[op]);
  }

  lemma MisreadAfter(s: Server, c: Client, op: nat) returns (i: nat)
    requires Fields.ClientInv(s, c) && op in c.saves && c.saves[op].reply == Some(Accepted)
    requires !FieldsApply(s, c, c.saves[op])
    ensures i < |Receive(c, op).sections|
    ensures var section := Receive(c, op).sections[i];
      section.cached.version < |VersionsOf(s, section.cached.id)| && !SectionUpToDate(s, section)
  {
    assert Fields.Sound(s, c.saves[op]);
    Fields.ReceivedUpToDate(s, c, op);
    i :| 0 <= i < |c.sections| && !SectionUpToDate(s, Receive(c, op).sections[i]);
    assert SectionUpToDate(s, c.sections[i]);
  }

  lemma CarelessGoesWrong(care: Care, s: State, e: Event)
    requires Inv(care, s) && Enabled(s, e) && !Careful(care, s, e)
    ensures exists rest :: GoesWrong(care, Step(s, e), rest)
  {
    match e
    case Load(_, _) => ShowingGoesWrong(care, s, e);
    case StartSave(client, op, section, field, Some(value)) =>
      StartGoesWrong(care, s, client, op, section, field, value);
    case Resolve(_, _, _, _, Current, Some(_), _) => ShowingGoesWrong(care, s, e);
    case Resolve(_, _, _, _, Mine, Some(_), Some(_)) => MineGoesWrong(care, s, e);
    case Deliver(client, op) => DeliveryGoesWrong(care, s, client, op);
    case _ =>
  }

  /** A step is careful exactly when no careful steps after it can end unsafely: about whole objects, and
      also about shown fields alone. */
  lemma CarefulExactly(care: Care, s: State, e: Event)
    requires Inv(care, s) && Enabled(s, e)
    ensures Careful(care, s, e) <==> forall rest :: !GoesWrong(care, Step(s, e), rest)
  {
    if Careful(care, s, e) {
      match care {
        case WholeObjects => Objects.StepKeeps(s, e);
        case ShownFields => Fields.StepKeeps(s, e);
      }
      forall rest
        ensures !GoesWrong(care, Step(s, e), rest)
      {
        if Possible(Step(s, e), rest) && AllCareful(care, Step(s, e), rest) {
          RunKeeps(care, Step(s, e), rest);
          InvSafe(care, Run(Step(s, e), rest));
        }
      }
    } else {
      CarelessGoesWrong(care, s, e);
    }
  }

  // ---- a version number that is newer than the fields

  /** From every state: an object read with the newest number and an older value of a field is loaded, the
      field is saved, and the newest value is discarded unseen. */
  lemma NewNumberLosesWrite(s: State, client: nat, o: ViewObject, d: Definition) returns (events: seq<Event>)
    requires client in s.clients && Readable(s.server, o) && Accepts(s.server, o.id, o.version)
    requires !d.readOnly && !Locked(o.content.status) && !FieldUpToDate(s.server, o, d.code)
    ensures EndsDiscarding(s, events) && |events| == 3 && events[0] == Load(client, Sole(o, d))
  {
    var load := Load(client, Sole(o, d));
    var t := Step(s, load);
    assert t.clients[client].sections[0] == BuildSection(o, 0, [d]);
    assert Misread(t, client, 0, 0);
    var op := FreeNumber(t.clients[client].saves.Keys);
    MisreadLosesWrite(ShownFields, t, client, op, 0, 0);
    events := [load] + Overwriting(t, client, op, 0, 0);
    Before(s, load, Overwriting(t, client, op, 0, 0));
  }
}
