/** Document clients edit objects under optimistic locking against one server, and read them from a read
    model whose version numbers and fields are updated apart from each other. A client may have any number
    of operations outstanding. */
module DocumentProtocol {
  import opened Options
  import opened DocumentSections

  /** `history[id][v]` is the content of an object at version `v`. `countsUnchanged` tells whether the
      server adds a version even for a write that leaves the value as it is. */
  datatype Server = Server(history: map<string, seq<Content>>, countsUnchanged: bool)

  /** A write that the server stored as a new version, with the object the writer started from. */
  datatype Write = Write(client: nat, base: ViewObject, code: string, value: FieldValue, overwritten: Content)

  datatype Reply = Accepted | Conflict | Refused

  /** An outstanding save; `retry` marks one that follows a conflict with a re-read object. */
  datatype Save = Save(base: ViewObject, definition: Definition, value: FieldValue, retry: bool, reply: Option<Reply>) {
    function Code(): string {
      definition.code
    }
  }

  /** `saves` holds the outstanding saves by number, `dialogs` the fields whose conflict is shown. */
  datatype Client = Client(sections: seq<Section>, saves: map<nat, Save>, dialogs: set<(string, Definition)>)

  datatype State = State(server: Server, clients: map<nat, Client>, writes: seq<Write>)

  datatype Choice = Mine | Current

  /** An object that is loaded, with its place in the document and the fields of its type. */
  datatype Item = Item(read: ViewObject, depth: nat, definitions: seq<Definition>)

  datatype Event =
    | Load(client: nat, items: seq<Item>)
    | StartSave(client: nat, op: nat, section: nat, field: nat, coerced: Option<FieldValue>)
    | Serve(client: nat, op: nat)
    | Refuse(client: nat, op: nat)
    | Deliver(client: nat, op: nat)
    | Lose(client: nat, op: nat)
    | Resolve(client: nat, op: nat, id: string, definition: Definition, choice: Choice, reading: Option<ViewObject>,
              coerced: Option<FieldValue>)
    | Dismiss(client: nat, id: string, definition: Definition)
    | Create(id: string, content: Content)
    | OtherField(id: string, code: string, value: FieldValue)
    | OtherStatus(id: string, status: Status)

  // ---- the server

  function VersionsOf(s: Server, id: string): seq<Content> {
    if id in s.history then s.history[id] else []
  }

  /** The version is the newest one of the object. */
  predicate Newest(s: Server, id: string, version: nat) {
    version + 1 == |VersionsOf(s, id)|
  }

  /** No field of the object can be changed any more. */
  predicate Closed(status: Status) {
    status.Filed? || status.Void? || status.Deleted?
  }

  /** A save that names this version would be accepted now. */
  predicate Accepts(s: Server, id: string, version: nat) {
    Newest(s, id, version) && !Closed(VersionsOf(s, id)[version].status)
  }

  /** The write changes the value, or the server does not look. */
  predicate Counts(s: Server, now: Content, code: string, value: FieldValue) {
    s.countsUnchanged || StoredIn(now, code) != Some(value)
  }

  function Append(s: Server, id: string, c: Content): Server {
    s.(history := s.history[id := VersionsOf(s, id) + [c]])
  }

  // ---- readings

  /** An object as the server had it at some version. */
  predicate Historical(s: Server, o: ViewObject) {
    o.version < |VersionsOf(s, o.id)| && VersionsOf(s, o.id)[o.version] == o.content
  }

  ghost predicate HadField(s: Server, id: string, code: string, value: FieldValue) {
    exists v :: 0 <= v < |VersionsOf(s, id)| && StoredIn(VersionsOf(s, id)[v], code) == Some(value)
  }

  /** An object as the read model may show it: a number the server has given, and a status and fields that
      the object has had, each at a version of its own. */
  ghost predicate Readable(s: Server, o: ViewObject) {
    && o.version < |VersionsOf(s, o.id)|
    && (exists v :: 0 <= v < |VersionsOf(s, o.id)| && VersionsOf(s, o.id)[v].status == o.content.status)
    && forall code :: code in o.content.fields ==> HadField(s, o.id, code, o.content.fields[code])
  }

  lemma HistoricalReadable(s: Server, o: ViewObject)
    requires Historical(s, o)
    ensures Readable(s, o)
  {
    forall code | code in o.content.fields
      ensures HadField(s, o.id, code, o.content.fields[code])
    {
      assert StoredIn(VersionsOf(s, o.id)[o.version], code) == Some(o.content.fields[code]);
    }
  }

  // ---- the steps

  function WithSave(c: Client, op: nat, save: Save): Client {
    c.(saves := c.saves[op := save])
  }

  function WithClient(s: State, client: nat, c: Client): State {
    s.(clients := s.clients[client := c])
  }

  function Replied(s: State, client: nat, op: nat, reply: Reply): State
    requires client in s.clients && op in s.clients[client].saves
  {
    var c := s.clients[client];
    WithClient(s, client, WithSave(c, op, c.saves[op].(reply := Some(reply))))
  }

  /** The server decides a save: refused when the object is closed, a conflict unless it names the newest
      version, and otherwise a new version if the write counts. */
  function Decide(s: State, client: nat, op: nat): State
    requires client in s.clients && op in s.clients[client].saves
  {
    var save := s.clients[client].saves[op];
    var versions := VersionsOf(s.server, save.base.id);
    if save.reply.Some? then s
    else if versions == [] || Closed(versions[|versions| - 1].status) then Replied(s, client, op, Refused)
    else if !Newest(s.server, save.base.id, save.base.version) then Replied(s, client, op, Conflict)
    else
      var now := versions[save.base.version];
      var answered := Replied(s, client, op, Accepted);
      if Counts(s.server, now, save.Code(), save.value) then
        answered.(server := Append(s.server, save.base.id, WithField(now, save.Code(), save.value)),
                  writes := s.writes + [Write(client, save.base, save.Code(), save.value, now)])
      else answered
  }

  /** The object a client believes the server has after its save. */
  function Adopted(save: Save): ViewObject {
    save.base.(version := save.base.version + 1, content := WithField(save.base.content, save.Code(), save.value))
  }

  /** A save that failed ends; a retry closes its dialog. */
  function Failed(c: Client, op: nat): Client
    requires op in c.saves
  {
    var save := c.saves[op];
    c.(saves := c.saves - {op},
       dialogs := if save.retry then c.dialogs - {(save.base.id, save.definition)} else c.dialogs)
  }

  function Receive(c: Client, op: nat): Client
    requires op in c.saves && c.saves[op].reply.Some?
  {
    var save := c.saves[op];
    var id := save.base.id;
    match save.reply.value
    case Refused => Failed(c, op)
    case Conflict => c.(saves := c.saves - {op}, dialogs := c.dialogs + {(id, save.definition)})
    case Accepted =>
      var sections :=
        if save.retry then ReplaceObject(c.sections, id, Adopted(save))
        else ReplaceField(c.sections, id, save.Code(), save.value, save.base.version + 1);
      c.(sections := sections, saves := c.saves - {op}, dialogs := c.dialogs - {(id, save.definition)})
  }

  function Answer(c: Client, op: nat, latest: ViewObject, d: Definition, choice: Choice,
                  coerced: Option<FieldValue>): Client {
    match choice
    case Current =>
      c.(sections := ReplaceObject(c.sections, latest.id, latest), dialogs := c.dialogs - {(latest.id, d)})
    case Mine =>
      if coerced.None? then c.(dialogs := c.dialogs - {(latest.id, d)})
      else WithSave(c, op, Save(latest, d, coerced.value, true, None))
  }

  function Built(items: seq<Item>): seq<Section> {
    seq(|items|, i requires 0 <= i < |items| => BuildSection(items[i].read, items[i].depth, items[i].definitions))
  }

  /** The field is shown with an editor. */
  predicate Editable(section: Section, field: nat) {
    field < |section.fields| && !section.fields[field].definition.readOnly && !Locked(section.cached.content.status)
  }

  /** What an event needs to happen at all; nothing keeps a client from starting a second operation. */
  ghost predicate Enabled(s: State, e: Event) {
    match e
    case Load(client, items) =>
      client in s.clients && forall i :: 0 <= i < |items| ==> Readable(s.server, items[i].read)
    case StartSave(client, op, section, field, coerced) =>
      && client in s.clients && section < |s.clients[client].sections| && op !in s.clients[client].saves
      && Editable(s.clients[client].sections[section], field)
      && (coerced.Some? ==> Fits(s.clients[client].sections[section].fields[field].definition.kind, coerced.value))
    case Serve(client, op) => client in s.clients && op in s.clients[client].saves
    case Refuse(client, op) =>
      client in s.clients && op in s.clients[client].saves && s.clients[client].saves[op].reply.None?
    case Deliver(client, op) =>
      client in s.clients && op in s.clients[client].saves && s.clients[client].saves[op].reply.Some?
    case Lose(client, op) => client in s.clients && op in s.clients[client].saves
    case Resolve(client, op, id, definition, _, reading, coerced) =>
      && client in s.clients && (id, definition) in s.clients[client].dialogs && op !in s.clients[client].saves
      && (reading.Some? ==> reading.value.id == id && Readable(s.server, reading.value))
      && (coerced.Some? ==> Fits(definition.kind, coerced.value))
    case Dismiss(client, _, _) => client in s.clients
    case Create(id, _) => VersionsOf(s.server, id) == []
    case OtherField(id, code, value) =>
      var versions := VersionsOf(s.server, id);
      && versions != [] && !Closed(versions[|versions| - 1].status)
      && Counts(s.server, versions[|versions| - 1], code, value)
    case OtherStatus(id, status) =>
      var versions := VersionsOf(s.server, id);
      versions != [] && (Closed(versions[|versions| - 1].status) ==> Closed(status))
  }

  ghost function Step(s: State, e: Event): State
    requires Enabled(s, e)
  {
    match e
    case Load(client, items) => WithClient(s, client, s.clients[client].(sections := Built(items)))
    case StartSave(client, op, section, field, coerced) =>
      var c := s.clients[client];
      if coerced.None? then s
      else WithClient(s, client, WithSave(c, op, StartedSave(c.sections[section], field, coerced.value)))
    case Serve(client, op) => Decide(s, client, op)
    case Refuse(client, op) => Replied(s, client, op, Refused)
    case Deliver(client, op) => WithClient(s, client, Receive(s.clients[client], op))
    case Lose(client, op) => WithClient(s, client, Failed(s.clients[client], op))
    case Resolve(client, op, id, definition, choice, reading, coerced) =>
      var c := s.clients[client];
      if reading.None? then WithClient(s, client, c.(dialogs := c.dialogs - {(id, definition)}))
      else WithClient(s, client, Answer(c, op, reading.value, definition, choice, coerced))
    case Dismiss(client, id, definition) =>
      WithClient(s, client, s.clients[client].(dialogs := s.clients[client].dialogs - {(id, definition)}))
    case Create(id, content) => s.(server := Append(s.server, id, content))
    case OtherField(id, code, value) =>
      var versions := VersionsOf(s.server, id);
      s.(server := Append(s.server, id, WithField(versions[|versions| - 1], code, value)))
    case OtherStatus(id, status) =>
      var versions := VersionsOf(s.server, id);
      s.(server := Append(s.server, id, versions[|versions| - 1].(status := status)))
  }

  function StartedSave(section: Section, field: nat, value: FieldValue): Save
    requires field < |section.fields|
  {
    Save(section.cached, section.fields[field].definition, value, false, None)
  }

  // ---- what can go wrong

  /** Every cached object is one the server once had, and the view shows its stored values. */
  ghost predicate Faithful(s: Server, c: Client) {
    && AllConsistent(c.sections)
    && forall i :: 0 <= i < |c.sections| ==> Historical(s, c.sections[i].cached)
  }

  /** The write replaced exactly the content its writer had read. */
  predicate Seen(w: Write) {
    w.base.content == w.overwritten
  }

  /** The write replaced a value of its field that its writer had not read. */
  predicate Discards(w: Write) {
    && StoredIn(w.base.content, w.code) != StoredIn(w.overwritten, w.code)
    && StoredIn(w.overwritten, w.code) != Some(w.value)
  }

  /** What is asked of a run: that views and writes deal with whole objects as the server had them, or only
      that no write discards a value of its field unseen. */
  datatype Care = WholeObjects | ShownFields

  ghost predicate Safe(care: Care, s: State) {
    match care
    case WholeObjects =>
      && (forall client :: client in s.clients ==> Faithful(s.server, s.clients[client]))
      && (forall i :: 0 <= i < |s.writes| ==> Seen(s.writes[i]))
    case ShownFields => forall i :: 0 <= i < |s.writes| ==> !Discards(s.writes[i])
  }

  // ---- careful steps

  /** If the server would accept a save of this object, it has the content that was read. */
  predicate UpToDate(s: Server, o: ViewObject) {
    o.version < |VersionsOf(s, o.id)| && (Accepts(s, o.id, o.version) ==> VersionsOf(s, o.id)[o.version] == o.content)
  }

  /** The same for one field. */
  predicate FieldUpToDate(s: Server, o: ViewObject, code: string) {
    Accepts(s, o.id, o.version) ==> StoredIn(VersionsOf(s, o.id)[o.version], code) == StoredIn(o.content, code)
  }

  /** The same for every field that the section offers for editing. */
  ghost predicate SectionUpToDate(s: Server, section: Section) {
    && section.cached.version < |VersionsOf(s, section.cached.id)|
    && forall f: nat :: Editable(section, f) ==> FieldUpToDate(s, section.cached, section.fields[f].definition.code)
  }

  /** If the server would accept a save of this value, the write would count. */
  predicate Worth(s: Server, o: ViewObject, code: string, value: FieldValue) {
    Accepts(s, o.id, o.version) ==> Counts(s, VersionsOf(s, o.id)[o.version], code, value)
  }

  /** If the server would accept a save of this value, it would discard nothing unseen. */
  predicate Gentle(s: Server, o: ViewObject, code: string, value: FieldValue) {
    Accepts(s, o.id, o.version) ==>
      var now := StoredIn(VersionsOf(s, o.id)[o.version], code);
      now == Some(value) || now == StoredIn(o.content, code)
  }

  /** The two contents agree on everything but one field. */
  predicate AgreeOutside(a: Content, b: Content, code: string) {
    a.status == b.status && a.fields - {code} == b.fields - {code}
  }

  /** The client may apply the reply: each section of the object still shows what the save started from,
      outside the saved field. */
  predicate MayApply(c: Client, save: Save) {
    forall i :: 0 <= i < |c.sections| && c.sections[i].cached.id == save.base.id ==>
      AgreeOutside(c.sections[i].cached.content, save.base.content, save.Code())
  }

  /** If the version that the reply brings is the newest, the other fields that a section offers for editing
      are as the server has them; a retry replaces them by what was read for it. */
  ghost predicate FieldsApply(s: Server, c: Client, save: Save) {
    var id, version := save.base.id, save.base.version + 1;
    Accepts(s, id, version) ==>
      forall i :: 0 <= i < |c.sections| && c.sections[i].cached.id == id ==>
        SectionApplies(VersionsOf(s, id)[version], c.sections[i], save)
  }

  predicate SectionApplies(now: Content, section: Section, save: Save) {
    forall f :: 0 <= f < |section.fields| ==> FieldApplies(now, section, f, save)
  }

  predicate FieldApplies(now: Content, section: Section, f: nat, save: Save)
    requires f < |section.fields|
  {
    var code := section.fields[f].definition.code;
    var brought := if save.retry then save.base.content else section.cached.content;
    code == save.Code() || section.fields[f].definition.readOnly || Locked(brought.status) ||
    StoredIn(brought, code) == StoredIn(now, code)
  }

  /** The sections of the object show fields as the server has them once they show this reading. */
  ghost predicate MayShow(s: Server, c: Client, latest: ViewObject) {
    forall i :: 0 <= i < |c.sections| && c.sections[i].cached.id == latest.id ==>
      SectionUpToDate(s, ReplaceObjectIn(c.sections[i], latest))
  }

  predicate ShownAt(c: Client, id: string) {
    exists i :: 0 <= i < |c.sections| && c.sections[i].cached.id == id
  }

  /** A reading that is shown is one the server once had, or has the fields that the server would take for
      seen; a save is started for a value that counts; and a reply is applied to the object it is about. */
  ghost predicate Careful(care: Care, s: State, e: Event)
    requires Enabled(s, e)
  {
    match e
    case Load(_, items) =>
      forall i :: 0 <= i < |items| ==>
        if care.WholeObjects? then Historical(s.server, items[i].read) else SectionUpToDate(s.server, Built(items)[i])
    case StartSave(client, _, section, field, Some(value)) =>
      var shown := s.clients[client].sections[section];
      Worth(s.server, shown.cached, shown.fields[field].definition.code, value)
    case Resolve(client, _, id, definition, Current, Some(reading), _) =>
      if care.WholeObjects? then ShownAt(s.clients[client], id) ==> Historical(s.server, reading)
      else MayShow(s.server, s.clients[client], reading)
    case Resolve(_, _, id, definition, Mine, Some(reading), Some(value)) =>
      && Worth(s.server, reading, definition.code, value)
      && if care.WholeObjects? then UpToDate(s.server, reading) else Gentle(s.server, reading, definition.code, value)
    case Deliver(client, op) =>
      var save := s.clients[client].saves[op];
      save.reply == Some(Accepted) ==>
        if care.WholeObjects? then save.retry || MayApply(s.clients[client], save)
        else FieldsApply(s.server, s.clients[client], save)
    case _ => true
  }

  // ---- one decision of the server

  /** Serving a save discards a value unseen exactly when the save names the newest version, the value there
      is not the one that was read, and it is not the one that is saved. */
  lemma DiscardsExactly(s: State, client: nat, op: nat)
    requires Enabled(s, Serve(client, op)) && s.clients[client].saves[op].reply.None?
    ensures var save, after := s.clients[client].saves[op], Decide(s, client, op);
      (after.writes != s.writes && Discards(after.writes[|after.writes| - 1])) <==>
      && Accepts(s.server, save.base.id, save.base.version)
      && var now := StoredIn(VersionsOf(s.server, save.base.id)[save.base.version], save.Code());
      now != StoredIn(save.base.content, save.Code()) && now != Some(save.value)
  {
    var save, after := s.clients[client].saves[op], Decide(s, client, op);
    if after.writes != s.writes {
      assert after.writes[|after.writes| - 1].base == save.base;
    }
  }

  /** Serving a save replaces a content its writer had not read exactly when the save names the newest
      version, the content there is not the one that was read, and the write counts. */
  lemma UnseenExactly(s: State, client: nat, op: nat)
    requires Enabled(s, Serve(client, op)) && s.clients[client].saves[op].reply.None?
    ensures var save, after := s.clients[client].saves[op], Decide(s, client, op);
      (after.writes != s.writes && !Seen(after.writes[|after.writes| - 1])) <==>
      && Accepts(s.server, save.base.id, save.base.version)
      && var now := VersionsOf(s.server, save.base.id)[save.base.version];
      now != save.base.content && Counts(s.server, now, save.Code(), save.value)
  {
    var save, after := s.clients[client].saves[op], Decide(s, client, op);
    if after.writes != s.writes {
      assert after.writes[|after.writes| - 1].base == save.base;
    }
  }

  /** Once the server said yes, the object the client adopts is one the server has exactly when the write
      counted. */
  lemma AdoptionExact(s: State, client: nat, op: nat)
    requires Enabled(s, Serve(client, op)) && s.clients[client].saves[op].reply.None?
    requires var base := s.clients[client].saves[op].base;
      Historical(s.server, base) && Accepts(s.server, base.id, base.version)
    ensures var save := s.clients[client].saves[op];
      Historical(Decide(s, client, op).server, Adopted(save)) <==>
      Counts(s.server, save.base.content, save.Code(), save.value)
  {
  }

  // ---- growing histories

  ghost predicate Grows(a: Server, b: Server) {
    && a.countsUnchanged == b.countsUnchanged
    && forall id :: VersionsOf(a, id) <= VersionsOf(b, id)
  }

  lemma AppendGrows(s: Server, id: string, c: Content)
    ensures Grows(s, Append(s, id, c))
    ensures VersionsOf(Append(s, id, c), id) == VersionsOf(s, id) + [c]
  {
  }

  lemma StepGrows(s: State, e: Event)
    requires Enabled(s, e)
    ensures Grows(s.server, Step(s, e).server)
  {
  }

  lemma HistoricalLater(a: Server, b: Server, o: ViewObject)
    requires Grows(a, b) && Historical(a, o)
    ensures Historical(b, o)
  {
    assert VersionsOf(a, o.id) <= VersionsOf(b, o.id);
  }

  /** A version that is accepted later and existed before was the newest then, with the same content. */
  lemma AcceptedBefore(a: Server, b: Server, id: string, version: nat)
    requires Grows(a, b) && version < |VersionsOf(a, id)| && Accepts(b, id, version)
    ensures Accepts(a, id, version) && VersionsOf(a, id)[version] == VersionsOf(b, id)[version]
  {
    assert VersionsOf(a, id) <= VersionsOf(b, id);
  }

  // ---- closed objects stay closed

  ghost predicate Sticky(s: Server) {
    forall id, i, j :: 0 <= i < j < |VersionsOf(s, id)| && Closed(VersionsOf(s, id)[i].status) ==>
      Closed(VersionsOf(s, id)[j].status)
  }

  lemma AppendSticky(s: Server, id: string, c: Content)
    requires Sticky(s)
    requires var versions := VersionsOf(s, id);
      versions != [] && Closed(versions[|versions| - 1].status) ==> Closed(c.status)
    ensures Sticky(Append(s, id, c))
  {
    var after := Append(s, id, c);
    forall other, i, j | 0 <= i < j < |VersionsOf(after, other)| && Closed(VersionsOf(after, other)[i].status)
      ensures Closed(VersionsOf(after, other)[j].status)
    {
      var versions := VersionsOf(s, id);
      assert VersionsOf(after, other) == if other == id then versions + [c] else VersionsOf(s, other);
      if other == id && j == |versions| {
        assert versions[i] == (versions + [c])[i];
        assert i < |versions| - 1 ==> Closed(VersionsOf(s, id)[|versions| - 1].status);
      }
    }
  }

  lemma StepSticky(s: State, e: Event)
    requires Enabled(s, e) && Sticky(s.server)
    ensures Sticky(Step(s, e).server)
  {
    match e
    case Serve(client, op) =>
      var save := s.clients[client].saves[op];
      var versions := VersionsOf(s.server, save.base.id);
      if versions != [] {
        AppendSticky(s.server, save.base.id, WithField(versions[|versions| - 1], save.Code(), save.value));
      }
    case Create(id, content) => AppendSticky(s.server, id, content);
    case OtherField(id, code, value) =>
      var versions := VersionsOf(s.server, id);
      AppendSticky(s.server, id, WithField(versions[|versions| - 1], code, value));
    case OtherStatus(id, status) =>
      var versions := VersionsOf(s.server, id);
      AppendSticky(s.server, id, versions[|versions| - 1].(status := status));
    case _ =>
  }

  /** While an object is open, every reading of it says so. */
  lemma OpenReading(s: Server, o: ViewObject)
    requires Sticky(s) && Readable(s, o) && Accepts(s, o.id, o.version)
    ensures !Closed(o.content.status)
  {
    var v :| 0 <= v < |VersionsOf(s, o.id)| && VersionsOf(s, o.id)[v].status == o.content.status;
    assert v < o.version ==> !Closed(VersionsOf(s, o.id)[v].status);
  }
}
