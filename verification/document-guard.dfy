/** The document protocol when a client has one operation per object at a time and reads snapshots. */
module DocumentGuard {
  import opened Options
  import opened DocumentSections
  import opened DocumentProtocol
  import opened DocumentRuns
  import Objects = DocumentObjects

  // ---- one operation per object at a time

  ghost predicate DistinctItems(items: seq<Item>) {
    forall i, j :: 0 <= i < j < |items| ==> items[i].read.id != items[j].read.id
  }

  predicate NoSaveOf(c: Client, id: string) {
    forall op :: op in c.saves ==> c.saves[op].base.id != id
  }

  /** An operation starts only when none of the same client is outstanding on the object. */
  ghost predicate OneAtATime(s: State, e: Event)
    requires Enabled(s, e)
  {
    match e
    case Load(client, items) => s.clients[client].saves == map[] && DistinctItems(items)
    case StartSave(client, _, section, _, _) =>
      NoSaveOf(s.clients[client], s.clients[client].sections[section].cached.id)
    case Resolve(client, _, id, _, _, _, _) => NoSaveOf(s.clients[client], id)
    case _ => true
  }

  /** Every reading is a snapshot: an object as the server had it at the version it names. */
  ghost predicate Snapshots(s: State, e: Event)
    requires Enabled(s, e)
  {
    match e
    case Load(_, items) => forall i :: 0 <= i < |items| ==> Historical(s.server, items[i].read)
    case Resolve(_, _, _, _, _, Some(reading), _) => Historical(s.server, reading)
    case _ => true
  }

  /** The value handed in differs from the one in the object the save starts from, or the server does not look. */
  ghost predicate Changing(s: State, e: Event)
    requires Enabled(s, e)
  {
    match e
    case StartSave(client, _, section, field, Some(value)) =>
      var shown := s.clients[client].sections[section];
      Counts(s.server, shown.cached.content, shown.fields[field].definition.code, value)
    case Resolve(_, _, _, d, Mine, Some(reading), Some(value)) => Counts(s.server, reading.content, d.code, value)
    case _ => true
  }

  ghost predicate DistinctSections(c: Client) {
    forall i, j :: 0 <= i < j < |c.sections| ==> c.sections[i].cached.id != c.sections[j].cached.id
  }

  ghost predicate DistinctSaves(c: Client) {
    forall a, b :: a in c.saves && b in c.saves && a != b ==> c.saves[a].base.id != c.saves[b].base.id
  }

  /** Every outstanding first save may still be applied. */
  ghost predicate Applicable(c: Client) {
    forall op :: op in c.saves && !c.saves[op].retry ==> MayApply(c, c.saves[op])
  }

  ghost predicate Tied(c: Client) {
    DistinctSections(c) && DistinctSaves(c) && Applicable(c)
  }

  ghost predicate AllTied(s: State) {
    forall client :: client in s.clients ==> Tied(s.clients[client])
  }

  lemma StartTied(c: Client, op: nat, save: Save)
    requires Tied(c) && NoSaveOf(c, save.base.id) && op !in c.saves && (save.retry || MayApply(c, save))
    ensures Tied(WithSave(c, op, save))
  {
    var c' := WithSave(c, op, save);
    forall other | other in c'.saves && !c'.saves[other].retry
      ensures MayApply(c', c'.saves[other])
    {
      assert other != op ==> MayApply(c, c.saves[other]);
    }
  }

  lemma OwnSection(c: Client, section: nat, field: nat, value: FieldValue)
    requires DistinctSections(c) && section < |c.sections| && field < |c.sections[section].fields|
    ensures MayApply(c, StartedSave(c.sections[section], field, value))
  {
  }

  /** Changing the sections of one object leaves the saves of all others applicable. */
  lemma OtherSections(c: Client, sections: seq<Section>, id: string, op: nat)
    requires DistinctSections(c) && Applicable(c) && |sections| == |c.sections|
    requires forall i :: 0 <= i < |sections| ==> sections[i].cached.id == c.sections[i].cached.id
    requires forall i :: 0 <= i < |sections| && sections[i].cached.id != id ==> sections[i] == c.sections[i]
    requires forall other :: other in c.saves && other != op ==> c.saves[other].base.id != id
    ensures var c' := c.(sections := sections, saves := c.saves - {op});
      DistinctSections(c') && Applicable(c')
  {
    var c' := c.(sections := sections, saves := c.saves - {op});
    forall other | other in c'.saves && !c'.saves[other].retry
      ensures MayApply(c', c'.saves[other])
    {
      assert MayApply(c, c.saves[other]);
    }
  }

  lemma ReceiveTied(c: Client, op: nat)
    requires Tied(c) && op in c.saves && c.saves[op].reply.Some?
    ensures Tied(Receive(c, op))
  {
    OtherSections(c, Receive(c, op).sections, c.saves[op].base.id, op);
  }

  lemma RefreshTied(c: Client, o: ViewObject, op: nat)
    requires Tied(c) && NoSaveOf(c, o.id) && op !in c.saves
    ensures Tied(c.(sections := ReplaceObject(c.sections, o.id, o)))
  {
    OtherSections(c, ReplaceObject(c.sections, o.id, o), o.id, op);
    assert c.saves - {op} == c.saves;
  }

  lemma LoadTied(c: Client, items: seq<Item>)
    requires c.saves == map[] && DistinctItems(items)
    ensures Tied(c.(sections := Built(items)))
  {
  }

  /** A reply, or a refusal, changes no section and no base. */
  lemma RepliedTied(c: Client, op: nat, reply: Reply)
    requires Tied(c) && op in c.saves
    ensures Tied(WithSave(c, op, c.saves[op].(reply := Some(reply))))
  {
    var c' := WithSave(c, op, c.saves[op].(reply := Some(reply)));
    forall other | other in c'.saves && !c'.saves[other].retry
      ensures MayApply(c', c'.saves[other])
    {
      assert MayApply(c, c.saves[other]);
    }
  }

  lemma LostTied(c: Client, op: nat, dialogs: set<(string, Definition)>)
    requires Tied(c)
    ensures Tied(c.(saves := c.saves - {op}, dialogs := dialogs))
  {
    var c' := c.(saves := c.saves - {op}, dialogs := dialogs);
    forall other | other in c'.saves && !c'.saves[other].retry
      ensures MayApply(c', c'.saves[other])
    {
      assert MayApply(c, c.saves[other]);
    }
  }

  lemma DialogsTied(c: Client, dialogs: set<(string, Definition)>)
    requires Tied(c)
    ensures Tied(c.(dialogs := dialogs))
  {
    forall op | op in c.saves && !c.saves[op].retry
      ensures MayApply(c.(dialogs := dialogs), c.saves[op])
    {
      assert MayApply(c, c.saves[op]);
    }
  }

  lemma ResolveTied(s: State, e: Event)
    requires AllTied(s) && e.Resolve? && Enabled(s, e) && OneAtATime(s, e)
    ensures Tied(Step(s, e).clients[e.client])
  {
    var c, dialogs := s.clients[e.client], s.clients[e.client].dialogs - {(e.id, e.definition)};
    if e.reading.None? {
      DialogsTied(c, dialogs);
    } else {
      match e.choice
      case Current =>
        RefreshTied(c, e.reading.value, e.op);
        DialogsTied(c.(sections := ReplaceObject(c.sections, e.id, e.reading.value)), dialogs);
      case Mine =>
        if e.coerced.None? {
          DialogsTied(c, dialogs);
        } else {
          StartTied(c, e.op, Save(e.reading.value, e.definition, e.coerced.value, true, None));
        }
    }
  }

  lemma StartSaveTied(s: State, e: Event)
    requires AllTied(s) && e.StartSave? && Enabled(s, e) && OneAtATime(s, e)
    ensures Tied(Step(s, e).clients[e.client])
  {
    if e.coerced.Some? {
      var c := s.clients[e.client];
      OwnSection(c, e.section, e.field, e.coerced.value);
      StartTied(c, e.op, StartedSave(c.sections[e.section], e.field, e.coerced.value));
    }
  }

  lemma ServeTied(s: State, client: nat, op: nat)
    requires AllTied(s) && Enabled(s, Serve(client, op))
    ensures client in Decide(s, client, op).clients && Tied(Decide(s, client, op).clients[client])
  {
    RepliedTied(s.clients[client], op, Accepted);
    RepliedTied(s.clients[client], op, Conflict);
    RepliedTied(s.clients[client], op, Refused);
  }

  /** The client an event is about stays tied. */
  lemma ClientTied(s: State, e: Event, client: nat)
    requires AllTied(s) && Enabled(s, e) && OneAtATime(s, e) && client in Step(s, e).clients
    ensures client in s.clients && Tied(Step(s, e).clients[client])
  {
    match e
    case Load(_, items) => LoadTied(s.clients[e.client], items);
    case StartSave(_, _, _, _, _) => StartSaveTied(s, e);
    case Serve(_, op) => ServeTied(s, e.client, op);
    case Refuse(_, op) => RepliedTied(s.clients[e.client], op, Refused);
    case Deliver(_, op) => ReceiveTied(s.clients[e.client], op);
    case Lose(_, op) => LostTied(s.clients[e.client], op, Failed(s.clients[e.client], op).dialogs);
    case Resolve(_, _, _, _, _, _, _) => ResolveTied(s, e);
    case Dismiss(_, _, _) => DialogsTied(s.clients[e.client], Step(s, e).clients[e.client].dialogs);
    case _ =>
  }

  /** With one operation per object at a time and readings that are snapshots, a step that hands in a changed
      value is careful. */
  lemma GuardedCareful(s: State, e: Event)
    requires Objects.Inv(s) && AllTied(s) && Enabled(s, e) && Snapshots(s, e) && Changing(s, e)
    ensures Careful(WholeObjects, s, e)
  {
    match e
    case StartSave(client, _, section, _, Some(_)) =>
      assert Objects.ClientInv(s.server, s.clients[client]);
      assert Historical(s.server, s.clients[client].sections[section].cached);
    case Deliver(client, op) =>
      assert Tied(s.clients[client]);
      assert !s.clients[client].saves[op].retry ==> MayApply(s.clients[client], s.clients[client].saves[op]);
    case _ =>
  }

  ghost predicate AllGuarded(s: State, events: seq<Event>)
    requires Possible(s, events)
    decreases |events|
  {
    events == [] ||
    (OneAtATime(s, events[0]) && Snapshots(s, events[0]) && Changing(s, events[0])
     && AllGuarded(Step(s, events[0]), events[1..]))
  }

  lemma {:induction false} GuardedRunCareful(s: State, events: seq<Event>)
    requires Objects.Inv(s) && AllTied(s) && Possible(s, events) && AllGuarded(s, events)
    ensures AllCareful(WholeObjects, s, events)
    decreases |events|
  {
    if events != [] {
      GuardedCareful(s, events[0]);
      Objects.StepKeeps(s, events[0]);
      forall client | client in Step(s, events[0]).clients
        ensures Tied(Step(s, events[0]).clients[client])
      {
        ClientTied(s, events[0], client);
      }
      GuardedRunCareful(Step(s, events[0]), events[1..]);
    }
  }

  /** With one operation per client and object at a time, readings that are snapshots, and saves that hand in a
      changed value (any value, when the server counts every write), every run is safe. */
  lemma GuardedRunSafe(s: State, events: seq<Event>)
    requires Starts(s) && Possible(s, events) && AllGuarded(s, events)
    ensures Safe(WholeObjects, Run(s, events))
  {
    GuardedRunCareful(s, events);
    RunSafe(WholeObjects, s, events);
  }
}
