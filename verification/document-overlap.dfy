/** Runs of the document protocol in which two operations of one client on one object overlap, or a save
    changes nothing. */
module DocumentOverlap {
  import opened Options
  import opened DocumentSections
  import opened DocumentProtocol
  import opened DocumentRuns
  import Objects = DocumentObjects

  /** In any state: an accepted save is on its way, the object is read again at any version, and the reply comes.
      The view then shows a state the server had exactly when the reading agrees with the save's start outside
      the saved field. */
  lemma ReplyOntoOther(s: State, client: nat, op: nat, item: Item)
    requires Objects.Inv(s) && Enabled(s, Load(client, [item])) && Historical(s.server, item.read)
    requires op in s.clients[client].saves && s.clients[client].saves[op].reply == Some(Accepted)
    requires !s.clients[client].saves[op].retry && item.read.id == s.clients[client].saves[op].base.id
    ensures var t, save := Step(s, Load(client, [item])), s.clients[client].saves[op];
      && Faithful(t.server, t.clients[client]) && Enabled(t, Deliver(client, op))
      && (Faithful(t.server, Step(t, Deliver(client, op)).clients[client]) <==>
          AgreeOutside(item.read.content, save.base.content, save.Code()))
  {
    var t, save := Step(s, Load(client, [item])), s.clients[client].saves[op];
    Objects.StepKeeps(s, Load(client, [item]));
    assert Objects.ClientInv(t.server, t.clients[client]) && Objects.Sound(t.server, save);
    DeliveredOnto(t.server, t.clients[client], op, item.read);
  }

  lemma DeliveredOnto(s: Server, c: Client, op: nat, latest: ViewObject)
    requires op in c.saves && c.saves[op].reply == Some(Accepted) && !c.saves[op].retry
    requires Faithful(s, c) && Historical(s, Adopted(c.saves[op]))
    requires |c.sections| == 1 && c.sections[0].cached == latest && latest.id == c.saves[op].base.id
    ensures Faithful(s, Receive(c, op)) <==>
      AgreeOutside(latest.content, c.saves[op].base.content, c.saves[op].Code())
  {
    var save := c.saves[op];
    ReplaceFieldConsistent(c.sections, save.base.id, save.Code(), save.value, save.base.version + 1);
    Objects.AppliedExact(s, c, save);
    assert MayApply(c, save) <==> AgreeOutside(c.sections[0].cached.content, save.base.content, save.Code());
  }

  /** An open object at its newest version, and a free number for a save of this client. */
  ghost predicate Fresh(s: State, client: nat, op: nat, o: ViewObject) {
    && client in s.clients && op !in s.clients[client].saves
    && Historical(s.server, o) && Accepts(s.server, o.id, o.version)
  }

  /** Two fields of one type that can be edited. */
  predicate TwoFields(d: Definition, other: Definition) {
    d.code != other.code && !d.readOnly && !other.readOnly
  }

  function Both(o: ViewObject, d: Definition, other: Definition): seq<Item> {
    [Item(o, 0, [d, other])]
  }

  /** From `s`, these events lead to `t`. */
  ghost predicate Reaches(s: State, events: seq<Event>, t: State) {
    Possible(s, events) && Run(s, events) == t
  }

  lemma ReachesFirst(s: State, e: Event, t: State, rest: seq<Event>, end: State)
    requires Enabled(s, e) && t == Step(s, e) && Reaches(t, rest, end)
    ensures Reaches(s, [e] + rest, end)
  {
    Before(s, e, rest);
  }

  /** The object is loaded, one of its fields is saved, and the server accepts. */
  lemma SavedByServer(s: State, client: nat, op: nat, o: ViewObject, d: Definition, other: Definition,
                      value: FieldValue)
    returns (s1: State, s2: State, s3: State)
    requires Fresh(s, client, op, o) && TwoFields(d, other)
    requires Fits(d.kind, value) && Counts(s.server, o.content, d.code, value)
    ensures Enabled(s, Load(client, Both(o, d, other))) && s1 == Step(s, Load(client, Both(o, d, other)))
    ensures var start := StartSave(client, op, 0, 0, Some(value)); Enabled(s1, start) && s2 == Step(s1, start)
    ensures Enabled(s2, Serve(client, op)) && s3 == Step(s2, Serve(client, op))
    ensures client in s3.clients && s3.clients[client].saves ==
      s.clients[client].saves[op := Save(o, d, value, false, Some(Accepted))]
    ensures VersionsOf(s3.server, o.id) == VersionsOf(s.server, o.id) + [WithField(o.content, d.code, value)]
  {
    HistoricalReadable(s.server, o);
    s1 := Step(s, Load(client, Both(o, d, other)));
    assert s1.clients[client].sections[0] == BuildSection(o, 0, [d, other]);
    s2 := Step(s1, StartSave(client, op, 0, 0, Some(value)));
    s3 := Step(s2, Serve(client, op));
  }

  lemma ReachesSaved(s: State, client: nat, op: nat, o: ViewObject, d: Definition, other: Definition, value: FieldValue,
                     s1: State, s2: State, s3: State, rest: seq<Event>, end: State)
    requires Enabled(s, Load(client, Both(o, d, other))) && s1 == Step(s, Load(client, Both(o, d, other)))
    requires var start := StartSave(client, op, 0, 0, Some(value)); Enabled(s1, start) && s2 == Step(s1, start)
    requires Enabled(s2, Serve(client, op)) && s3 == Step(s2, Serve(client, op))
    requires Reaches(s3, rest, end)
    ensures exists events :: Reaches(s, events, end)
  {
    ReachesFirst(s2, Serve(client, op), s3, rest, end);
    ReachesFirst(s1, StartSave(client, op, 0, 0, Some(value)), s2, [Serve(client, op)] + rest, end);
    ReachesFirst(s, Load(client, Both(o, d, other)), s1,
                 [StartSave(client, op, 0, 0, Some(value))] + ([Serve(client, op)] + rest), end);
  }

  /** Another user writes the other field, and the object is read again before the reply comes. */
  lemma OtherAndLoaded(s: State, client: nat, op: nat, o: ViewObject, d: Definition, other: Definition,
                       value: FieldValue)
    returns (t: State, events: seq<Event>)
    requires client in s.clients && op in s.clients[client].saves && TwoFields(d, other)
    requires s.clients[client].saves[op] == Save(o, d, value, false, Some(Accepted))
    requires var versions := VersionsOf(s.server, o.id);
      && |versions| == o.version + 2 && versions[o.version + 1] == WithField(o.content, d.code, value)
      && !Closed(o.content.status)
    ensures Reaches(s, events, t) && Enabled(t, Deliver(client, op))
    ensures client in t.clients && !Faithful(t.server, Step(t, Deliver(client, op)).clients[client])
  {
    var next := WithField(o.content, d.code, value);
    var w := Another(other.kind, StoredIn(o.content, other.code));
    var e1 := OtherField(o.id, other.code, w);
    var s1 := Step(s, e1);
    assert VersionsOf(s1.server, o.id) == VersionsOf(s.server, o.id) + [WithField(next, other.code, w)];
    var latest := ViewObject(o.id, o.version + 2, WithField(next, other.code, w), map[]);
    HistoricalReadable(s1.server, latest);
    var e2 := Load(client, Both(latest, d, other));
    t := Step(s1, e2);
    assert t.clients[client].sections[0].cached == latest;
    events := [e1] + ([e2] + []);
    assert Reaches(t, [], t);
    ReachesFirst(s1, e2, t, [], t);
    ReachesFirst(s, e1, s1, [e2] + [], t);
    Overlapped(t.server, t.clients[client], op, o, other.code, w);
  }

  lemma Overlapped(s: Server, c: Client, op: nat, o: ViewObject, code: string, w: FieldValue)
    requires op in c.saves && c.saves[op].base == o && c.saves[op].reply == Some(Accepted) && !c.saves[op].retry
    requires code != c.saves[op].Code() && Some(w) != StoredIn(o.content, code)
    requires |c.sections| == 1 && c.sections[0].cached.id == o.id
    requires StoredIn(c.sections[0].cached.content, code) == Some(w)
    requires Historical(s, Adopted(c.saves[op]))
    ensures !Faithful(s, Receive(c, op))
  {
    var after := Receive(c, op).sections[0].cached;
    assert after.version == o.version + 1 && StoredIn(after.content, code) == Some(w);
    assert StoredIn(VersionsOf(s, o.id)[o.version + 1], code) == StoredIn(o.content, code);
  }

  /** From every state with an object that is up to date: saving one of its fields while another user writes
      another field and the object is read again leads to a view of a state the server never had. */
  lemma OverlapGoesWrong(s: State, client: nat, op: nat, o: ViewObject, d: Definition, other: Definition,
                         value: FieldValue)
    requires Fresh(s, client, op, o) && TwoFields(d, other)
    requires Fits(d.kind, value) && Counts(s.server, o.content, d.code, value)
    ensures exists events, t :: Reaches(s, events, t) && client in t.clients && !Faithful(t.server, t.clients[client])
  {
    var s1, s2, s3 := SavedByServer(s, client, op, o, d, other, value);
    var t, events := OtherAndLoaded(s3, client, op, o, d, other, value);
    After(s3, events, Deliver(client, op));
    var all, end := events + [Deliver(client, op)], Step(t, Deliver(client, op));
    ReachesSaved(s, client, op, o, d, other, value, s1, s2, s3, all, end);
  }

  /** An old version is read again before the reply comes, which gives it the newest number. */
  lemma StaleMisreads(s: State, client: nat, op: nat, o: ViewObject, d: Definition, other: Definition,
                      value: FieldValue,
                      stale: ViewObject)
    returns (t: State, events: seq<Event>)
    requires client in s.clients && op in s.clients[client].saves && TwoFields(d, other)
    requires s.clients[client].saves[op] == Save(o, d, value, false, Some(Accepted))
    requires var versions := VersionsOf(s.server, o.id);
      && |versions| == o.version + 2 && versions[o.version + 1] == WithField(o.content, d.code, value)
      && !Closed(o.content.status)
    requires Historical(s.server, stale) && stale.id == o.id && !Locked(stale.content.status)
    requires StoredIn(stale.content, other.code) != StoredIn(o.content, other.code)
    ensures Reaches(s, events, t) && Misread(t, client, 0, 1) && op !in t.clients[client].saves
  {
    HistoricalReadable(s.server, stale);
    var e1, e2 := Load(client, Both(stale, d, other)), Deliver(client, op);
    var s1 := Step(s, e1);
    assert s1.clients[client].sections[0] == BuildSection(stale, 0, [d, other]);
    t := Step(s1, e2);
    assert t.clients[client].sections[0].fields[1].definition == other;
    events := [e1] + ([e2] + []);
    assert Reaches(t, [], t);
    ReachesFirst(s1, e2, t, [], t);
    ReachesFirst(s, e1, s1, [e2] + [], t);
  }

  /** From every state with an object that is up to date: a field is saved, the object is read again at an old
      version before the reply comes, and the next save of another field discards its newest value unseen.
      Every reading is a snapshot. */
  lemma StaleReadLosesWrite(s: State, client: nat, op: nat, o: ViewObject, d: Definition, other: Definition,
                            value: FieldValue, stale: ViewObject)
    requires Fresh(s, client, op, o) && TwoFields(d, other)
    requires Fits(d.kind, value) && Counts(s.server, o.content, d.code, value)
    requires Historical(s.server, stale) && stale.id == o.id && !Locked(stale.content.status)
    requires StoredIn(stale.content, other.code) != StoredIn(o.content, other.code)
    ensures exists events :: EndsDiscarding(s, events)
  {
    var s1, s2, s3 := SavedByServer(s, client, op, o, d, other, value);
    assert VersionsOf(s.server, o.id) <= VersionsOf(s3.server, o.id);
    var t, events := StaleMisreads(s3, client, op, o, d, other, value, stale);
    MisreadLosesWrite(ShownFields, t, client, op, 0, 1);
    ReachesThen(s3, events, t, Overwriting(t, client, op, 0, 1));
    var rest := events + Overwriting(t, client, op, 0, 1);
    ReachesSaved(s, client, op, o, d, other, value, s1, s2, s3, rest, Run(s3, rest));
    var all :| Reaches(s, all, Run(s3, rest));
    assert EndsDiscarding(s, all);
  }

  lemma {:induction false} ReachesThen(s: State, events: seq<Event>, t: State, rest: seq<Event>)
    requires Reaches(s, events, t) && Possible(t, rest)
    ensures Reaches(s, events + rest, Run(t, rest))
    decreases |events|
  {
    if events == [] {
      assert [] + rest == rest;
    } else {
      var next := Step(s, events[0]);
      ReachesThen(next, events[1..], t, rest);
      ReachesFirst(s, events[0], next, events[1..] + rest, Run(t, rest));
      assert [events[0]] + (events[1..] + rest) == events + rest;
    }
  }

  /** When the server does not count unchanged values, saving a field as it is leads to a write that discards
      a value unseen, from every state with an object that is up to date. */
  lemma UnchangedSaveLosesWrite(s: State, client: nat, op: nat, o: ViewObject, d: Definition)
    requires Fresh(s, client, op, o) && !s.server.countsUnchanged && !d.readOnly
    requires d.code in o.content.fields && Fits(d.kind, o.content.fields[d.code])
    ensures exists events :: EndsDiscarding(s, events)
  {
    var load, start := Load(client, Sole(o, d)), StartSave(client, op, 0, 0, StoredIn(o.content, d.code));
    HistoricalReadable(s.server, o);
    var s1 := Step(s, load);
    assert s1.clients[client].sections[0] == BuildSection(o, 0, [d]);
    var s2 := Step(s1, start);
    assert Idle(s2, client, op);
    var rest := IdleLosesWrite(WholeObjects, s2, client, op);
    Before(s1, start, rest);
    Before(s, load, [start] + rest);
    assert EndsDiscarding(s, [load] + ([start] + rest));
  }
}
