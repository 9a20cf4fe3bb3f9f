/** The component registry: pushed updates race with sibling fetches and with logic evaluations. */
module Registry {
  import opened Options

  /** `logic` is the installed class; `jsSeq` numbers the evaluations that were started. */
  datatype Entry = Entry(
    html: string, logic: Option<string>, jsStreaming: bool, htmlStreaming: bool, ver: nat,
    fetched: bool, jsSeq: nat, logicError: Option<string>, props: string, preview: string)

  const FRESH: Entry := Entry("", None, false, false, 0, false, 0, None, "", "")

  datatype Kind = Html | Js | Props

  /** A parsed component file; an empty string stands for a missing part. */
  datatype Parsed = Parsed(template: string, js: string, props: string, preview: string)

  datatype Outcome = Class(cls: string) | NotAClass(message: string) | Throws(message: string)

  /** A logic evaluation that has started and not ended. */
  datatype Evaluation = Evaluation(name: string, number: nat, fromFetch: bool)

  /** `started` lists the sibling fetches issued, `pending` those not completed. */
  datatype State = State(
    entries: map<string, Entry>, pageStreaming: bool,
    started: seq<string>, pending: set<string>, running: set<Evaluation>)

  const INITIAL: State := State(map[], false, [], {}, {})

  datatype Event =
    | EnsureFetched(name: string)
    | FetchDone(name: string, parsed: Option<Parsed>)
    | Push(name: string, kind: Kind, content: string, preview: string, streaming: bool)
    | Adopt(name: string, part: Parsed)
    | MarkFetched(name: string)
    | SetProps(name: string)
    | EvalDone(run: Evaluation, outcome: Outcome)

  // ---- one event at a time

  /** The entry of a name; an unknown name has a fresh one. */
  function Get(s: State, name: string): Entry {
    if name in s.entries then s.entries[name] else FRESH
  }

  function Put(s: State, name: string, e: Entry): State {
    s.(entries := s.entries[name := e])
  }

  function Bump(s: State, name: string): State {
    Put(s, name, Get(s, name).(ver := Get(s, name).ver + 1))
  }

  function UpdateHtml(s: State, name: string, html: string): State {
    Bump(Put(s, name, Get(s, name).(html := html)), name)
  }

  /** Starts an evaluation; its result arrives with `EvalDone`. */
  function UpdateJs(s: State, name: string, fromFetch: bool): State {
    var n := Get(s, name).jsSeq + 1;
    Put(s, name, Get(s, name).(jsSeq := n)).(running := s.running + {Evaluation(name, n, fromFetch)})
  }

  /** Only the newest evaluation of a name may change its entry. */
  function EndEvaluation(s: State, run: Evaluation, outcome: Outcome): State {
    var rest := s.(running := s.running - {run});
    var e := Get(s, run.name);
    if run.name !in s.entries || e.jsSeq != run.number then rest
    else
      var updated :=
        match outcome
        case Class(cls) => e.(logicError := None, logic := Some(cls))
        case NotAClass(message) => e.(logicError := Some(message))
        case Throws(message) => e.(logicError := Some(message));
      Bump(Put(rest, run.name, updated), run.name)
  }

  predicate Streams(e: Entry) {
    e.htmlStreaming || e.jsStreaming
  }

  predicate SomeStreams(entries: map<string, Entry>) {
    exists n :: n in entries && Streams(entries[n])
  }

  /** An entry with new streaming flags, the page flag that follows from it, and a new version. */
  function Flagged(s: State, name: string, e: Entry): State {
    var flagged := Put(s, name, e);
    Bump(flagged.(pageStreaming := SomeStreams(flagged.entries)), name)
  }

  function SetStreaming(s: State, name: string, kind: Kind, on: bool): State {
    Flagged(s, name, if kind.Html? then Get(s, name).(htmlStreaming := on) else Get(s, name).(jsStreaming := on))
  }

  function AdoptMeta(s: State, name: string, p: Parsed): State {
    var e := Get(s, name);
    Put(s, name, e.(props := if p.props != "" then p.props else e.props,
                    preview := if p.preview != "" then p.preview else e.preview))
  }

  /** A completed fetch fills only what no push has provided yet. */
  function CompleteFetch(s: State, name: string, p: Parsed): State {
    var s1 := AdoptMeta(s, name, p);
    var s2 := if p.template != "" && Get(s1, name).html == "" then UpdateHtml(s1, name, p.template) else s1;
    if p.js != "" && Get(s2, name).logic.None? then UpdateJs(s2, name, true) else s2
  }

  function EndFetch(s: State, name: string, parsed: Option<Parsed>): State {
    var rest := s.(pending := s.pending - {name});
    if parsed.None? then rest else CompleteFetch(rest, name, parsed.value)
  }

  /** A streaming push also claims the name, so that no fetch is started for it. */
  function Claim(s: State, name: string, streaming: bool): State {
    if streaming then Put(s, name, Get(s, name).(fetched := true)) else s
  }

  function PushHtml(s: State, name: string, content: string, streaming: bool): State {
    UpdateHtml(SetStreaming(Claim(s, name, streaming), name, Html, streaming), name, content)
  }

  function PushJs(s: State, name: string, streaming: bool): State {
    var flagged := SetStreaming(Claim(s, name, streaming), name, Js, streaming);
    if streaming then flagged else UpdateJs(flagged, name, false)
  }

  function PushProps(s: State, name: string, content: string, preview: string, streaming: bool): State {
    var claimed := Claim(s, name, streaming);
    Bump(Put(claimed, name, Get(claimed, name).(props := content, preview := preview)), name)
  }

  function AdoptParsed(s: State, name: string, p: Parsed): State {
    var s1 := AdoptMeta(s, name, p);
    var s2 := if p.template != "" then UpdateHtml(s1, name, p.template) else s1;
    if p.js != "" then UpdateJs(s2, name, false) else s2
  }

  /** An event that cannot happen (no such fetch or evaluation) changes nothing. */
  function Step(s: State, e: Event): State {
    match e
    case EnsureFetched(name) =>
      var r := Get(s, name);
      if r.fetched then Put(s, name, r)
      else Put(s, name, r.(fetched := true)).(started := s.started + [name], pending := s.pending + {name})
    case FetchDone(name, parsed) => if name in s.pending then EndFetch(s, name, parsed) else s
    case Push(name, Html, content, _, streaming) => PushHtml(s, name, content, streaming)
    case Push(name, Js, _, _, streaming) => PushJs(s, name, streaming)
    case Push(name, Props, content, preview, streaming) => PushProps(s, name, content, preview, streaming)
    case Adopt(name, part) => AdoptParsed(s, name, part)
    case MarkFetched(name) => Put(s, name, Get(s, name).(fetched := true))
    case SetProps(name) => Bump(Put(s, name, Get(s, name)), name)
    case EvalDone(run, outcome) => if run in s.running then EndEvaluation(s, run, outcome) else s
  }

  function Run(events: seq<Event>): State {
    if events == [] then INITIAL
    else Step(Run(events[..|events| - 1]), events[|events| - 1])
  }

  // ---- what every event keeps

  ghost predicate Distinct(names: seq<string>) {
    forall i, j :: 0 <= i < j < |names| ==> names[i] != names[j]
  }

  ghost predicate FetchedOnce(s: State) {
    && Distinct(s.started)
    && (forall name :: name in s.started ==> Get(s, name).fetched)
    && (forall name :: name in s.pending ==> name in s.started)
  }

  /** The newest evaluation of a name, when a fetch started it, finds no class to replace. */
  ghost predicate FetchEvaluationsFill(s: State) {
    forall run :: run in s.running ==>
      && run.number <= Get(s, run.name).jsSeq
      && (run.fromFetch && run.number == Get(s, run.name).jsSeq ==> Get(s, run.name).logic.None?)
  }

  ghost predicate EvaluationsNumbered(s: State) {
    forall a, b :: a in s.running && b in s.running && a.name == b.name && a.number == b.number ==> a == b
  }

  ghost predicate FlagTells(s: State) {
    s.pageStreaming == SomeStreams(s.entries)
  }

  ghost predicate Inv(s: State) {
    FetchedOnce(s) && FetchEvaluationsFill(s) && EvaluationsNumbered(s) && FlagTells(s)
  }

  /** What every mounted component shows of its entry; the root of the page also shows property defaults. */
  ghost predicate SameBody(a: Entry, b: Entry) {
    && a.html == b.html && a.logic == b.logic && a.logicError == b.logicError
    && a.htmlStreaming == b.htmlStreaming && a.jsStreaming == b.jsStreaming
  }

  /** Versions only grow, and they grow whenever the template, the logic or a streaming flag changes. */
  ghost predicate Advances(a: Entry, b: Entry) {
    && a.ver <= b.ver
    && a.jsSeq <= b.jsSeq
    && (a.fetched ==> b.fetched)
    && (a.ver == b.ver ==> SameBody(a, b))
  }

  ghost predicate Evolves(s: State, s': State) {
    && s.entries.Keys <= s'.entries.Keys
    && forall name :: Advances(Get(s, name), Get(s', name))
  }

  lemma Compose(s: State, s1: State, s2: State)
    requires Evolves(s, s1) && Evolves(s1, s2)
    ensures Evolves(s, s2)
  {
    forall name
      ensures Advances(Get(s, name), Get(s2, name))
    {
      assert Advances(Get(s, name), Get(s1, name)) && Advances(Get(s1, name), Get(s2, name));
    }
  }

  /** Replacing one entry by a later one and bumping it moves the state forward. */
  lemma BumpEvolves(s: State, name: string, e: Entry)
    requires Get(s, name).ver == e.ver && Get(s, name).jsSeq == e.jsSeq && (Get(s, name).fetched ==> e.fetched)
    ensures Evolves(s, Bump(Put(s, name, e), name))
  {
  }

  /** The parts of the invariant that an operation leaves alone when it only moves entries forward. */
  lemma EvolvingKeepsFetches(s: State, s': State)
    requires FetchedOnce(s) && Evolves(s, s')
    requires s'.started == s.started && s'.pending <= s.pending
    ensures FetchedOnce(s')
  {
    forall name | name in s'.started
      ensures Get(s', name).fetched
    {
      assert Advances(Get(s, name), Get(s', name));
    }
  }

  /** Leaves every streaming flag as it is. */
  ghost predicate SameFlags(s: State, s': State) {
    s'.pageStreaming == s.pageStreaming && forall name :: Streams(Get(s', name)) == Streams(Get(s, name))
  }

  lemma SameFlagsTell(s: State, s': State)
    requires FlagTells(s) && SameFlags(s, s')
    ensures FlagTells(s')
  {
    if n :| n in s.entries && Streams(s.entries[n]) {
      assert Streams(Get(s', n));
    }
    if n :| n in s'.entries && Streams(s'.entries[n]) {
      assert Streams(Get(s, n));
    }
  }

  /** Leaves evaluations, classes and their numbering alone. */
  ghost predicate SameLogic(s: State, s': State) {
    && s'.running == s.running
    && forall name :: Get(s', name).logic == Get(s, name).logic && Get(s', name).jsSeq == Get(s, name).jsSeq
  }

  lemma SameLogicFills(s: State, s': State)
    requires FetchEvaluationsFill(s) && EvaluationsNumbered(s) && SameLogic(s, s')
    ensures FetchEvaluationsFill(s') && EvaluationsNumbered(s')
  {
    forall run | run in s'.running
      ensures run.number <= Get(s', run.name).jsSeq
      ensures run.fromFetch && run.number == Get(s', run.name).jsSeq ==> Get(s', run.name).logic.None?
    {
      assert Get(s', run.name).logic == Get(s, run.name).logic;
    }
  }

  // ---- the operations one by one

  lemma UpdateHtmlKeeps(s: State, name: string, html: string)
    requires Inv(s)
    ensures Inv(UpdateHtml(s, name, html)) && Evolves(s, UpdateHtml(s, name, html))
  {
    var s' := UpdateHtml(s, name, html);
    BumpEvolves(s, name, Get(s, name).(html := html));
    EvolvingKeepsFetches(s, s');
    SameFlagsTell(s, s');
    SameLogicFills(s, s');
  }

  lemma UpdateJsKeeps(s: State, name: string, fromFetch: bool)
    requires Inv(s) && (fromFetch ==> Get(s, name).logic.None?)
    ensures Inv(UpdateJs(s, name, fromFetch)) && Evolves(s, UpdateJs(s, name, fromFetch))
  {
    var s' := UpdateJs(s, name, fromFetch);
    EvolvingKeepsFetches(s, s');
    SameFlagsTell(s, s');
  }

  lemma EndEvaluationKeeps(s: State, run: Evaluation, outcome: Outcome)
    requires Inv(s) && run in s.running
    ensures Inv(EndEvaluation(s, run, outcome)) && Evolves(s, EndEvaluation(s, run, outcome))
  {
    var s' := EndEvaluation(s, run, outcome);
    EvolvingKeepsFetches(s, s');
    SameFlagsTell(s, s');
    forall other | other in s'.running
      ensures other.number <= Get(s', other.name).jsSeq
      ensures other.fromFetch && other.number == Get(s', other.name).jsSeq ==> Get(s', other.name).logic.None?
    {
      assert other.name == run.name && other.number == run.number ==> other == run;
    }
  }

  lemma SetStreamingKeeps(s: State, name: string, kind: Kind, on: bool)
    requires Inv(s)
    ensures Inv(SetStreaming(s, name, kind, on)) && Evolves(s, SetStreaming(s, name, kind, on))
  {
    var e := if kind.Html? then Get(s, name).(htmlStreaming := on) else Get(s, name).(jsStreaming := on);
    FlagKeeps(s, name, e);
  }

  lemma FlagKeeps(s: State, name: string, e: Entry)
    requires Inv(s) && e == Get(s, name).(htmlStreaming := e.htmlStreaming, jsStreaming := e.jsStreaming)
    ensures Inv(Flagged(s, name, e)) && Evolves(s, Flagged(s, name, e))
  {
    var s' := Flagged(s, name, e);
    FlaggedEvolves(s, name, e);
    EvolvingKeepsFetches(s, s');
    SameLogicFills(s, s');
    FlaggedTells(s, name, e);
  }

  lemma FlaggedEvolves(s: State, name: string, e: Entry)
    requires e == Get(s, name).(htmlStreaming := e.htmlStreaming, jsStreaming := e.jsStreaming)
    ensures Evolves(s, Flagged(s, name, e)) && SameLogic(s, Flagged(s, name, e))
  {
    BumpEvolves(s, name, e);
    assert Flagged(s, name, e).entries == Bump(Put(s, name, e), name).entries;
  }

  lemma FlaggedTells(s: State, name: string, e: Entry)
    ensures FlagTells(Flagged(s, name, e))
  {
    var flagged := Put(s, name, e).(pageStreaming := SomeStreams(Put(s, name, e).entries));
    SameFlagsTell(flagged, Bump(flagged, name));
  }

  /** Changing only what components do not show: the fetch mark and the metadata. */
  lemma QuietPutKeeps(s: State, name: string, e: Entry)
    requires Inv(s)
    requires SameBody(Get(s, name), e) && e.ver >= Get(s, name).ver && e.jsSeq == Get(s, name).jsSeq
    requires Get(s, name).fetched ==> e.fetched
    ensures Inv(Put(s, name, e)) && Evolves(s, Put(s, name, e))
  {
    var s' := Put(s, name, e);
    EvolvingKeepsFetches(s, s');
    SameFlagsTell(s, s');
    SameLogicFills(s, s');
  }

  lemma CompleteFetchKeeps(s: State, name: string, p: Parsed)
    requires Inv(s)
    ensures Inv(CompleteFetch(s, name, p)) && Evolves(s, CompleteFetch(s, name, p))
  {
    var s1 := AdoptMeta(s, name, p);
    QuietPutKeeps(s, name, Get(s1, name));
    var s2 := if p.template != "" && Get(s1, name).html == "" then UpdateHtml(s1, name, p.template) else s1;
    if p.template != "" && Get(s1, name).html == "" {
      UpdateHtmlKeeps(s1, name, p.template);
      Compose(s, s1, s2);
    }
    if p.js != "" && Get(s2, name).logic.None? {
      UpdateJsKeeps(s2, name, true);
      Compose(s, s2, CompleteFetch(s, name, p));
    }
  }

  lemma AdoptParsedKeeps(s: State, name: string, p: Parsed)
    requires Inv(s)
    ensures Inv(AdoptParsed(s, name, p)) && Evolves(s, AdoptParsed(s, name, p))
  {
    var s1 := AdoptMeta(s, name, p);
    QuietPutKeeps(s, name, Get(s1, name));
    var s2 := if p.template != "" then UpdateHtml(s1, name, p.template) else s1;
    if p.template != "" {
      UpdateHtmlKeeps(s1, name, p.template);
      Compose(s, s1, s2);
    }
    if p.js != "" {
      UpdateJsKeeps(s2, name, false);
      Compose(s, s2, AdoptParsed(s, name, p));
    }
  }

  lemma ClaimKeeps(s: State, name: string, streaming: bool)
    requires Inv(s)
    ensures Inv(Claim(s, name, streaming)) && Evolves(s, Claim(s, name, streaming))
  {
    if streaming {
      QuietPutKeeps(s, name, Get(s, name).(fetched := true));
    }
  }

  lemma PushHtmlKeeps(s: State, name: string, content: string, streaming: bool)
    requires Inv(s)
    ensures Inv(PushHtml(s, name, content, streaming)) && Evolves(s, PushHtml(s, name, content, streaming))
  {
    var s1 := Claim(s, name, streaming);
    var s2 := SetStreaming(s1, name, Html, streaming);
    ClaimKeeps(s, name, streaming);
    SetStreamingKeeps(s1, name, Html, streaming);
    UpdateHtmlKeeps(s2, name, content);
    Compose(s, s1, s2);
    Compose(s, s2, UpdateHtml(s2, name, content));
  }

  lemma PushJsKeeps(s: State, name: string, streaming: bool)
    requires Inv(s)
    ensures Inv(PushJs(s, name, streaming)) && Evolves(s, PushJs(s, name, streaming))
  {
    var s1 := Claim(s, name, streaming);
    var s2 := SetStreaming(s1, name, Js, streaming);
    ClaimKeeps(s, name, streaming);
    SetStreamingKeeps(s1, name, Js, streaming);
    Compose(s, s1, s2);
    if !streaming {
      UpdateJsKeeps(s2, name, false);
      Compose(s, s2, UpdateJs(s2, name, false));
    }
  }

  lemma BumpIsPut(s: State, name: string, e: Entry)
    ensures Bump(Put(s, name, e), name) == Put(s, name, e.(ver := e.ver + 1))
  {
    assert Bump(Put(s, name, e), name).entries == s.entries[name := e.(ver := e.ver + 1)];
  }

  /** Replacing an entry by one that shows the same logic, and bumping it. */
  lemma QuietBumpKeeps(s: State, name: string, e: Entry)
    requires Inv(s)
    requires SameBody(Get(s, name), e) && e.ver >= Get(s, name).ver && e.jsSeq == Get(s, name).jsSeq
    requires Get(s, name).fetched ==> e.fetched
    ensures Inv(Bump(Put(s, name, e), name)) && Evolves(s, Bump(Put(s, name, e), name))
  {
    QuietPutKeeps(s, name, e.(ver := e.ver + 1));
    BumpIsPut(s, name, e);
  }

  lemma PushPropsKeeps(s: State, name: string, content: string, preview: string, streaming: bool)
    requires Inv(s)
    ensures var s' := PushProps(s, name, content, preview, streaming); Inv(s') && Evolves(s, s')
  {
    var s1 := Claim(s, name, streaming);
    var e := Get(s1, name).(props := content, preview := preview);
    ClaimKeeps(s, name, streaming);
    QuietBumpKeeps(s1, name, e);
    Compose(s, s1, Bump(Put(s1, name, e), name));
  }

  lemma EndFetchKeeps(s: State, name: string, parsed: Option<Parsed>)
    requires Inv(s)
    ensures Inv(EndFetch(s, name, parsed)) && Evolves(s, EndFetch(s, name, parsed))
  {
    var rest := s.(pending := s.pending - {name});
    SameFlagsTell(s, rest);
    SameLogicFills(s, rest);
    if parsed.Some? {
      CompleteFetchKeeps(rest, name, parsed.value);
      Compose(s, rest, CompleteFetch(rest, name, parsed.value));
    }
  }

  lemma SetPropsKeeps(s: State, name: string)
    requires Inv(s)
    ensures Inv(Step(s, SetProps(name))) && Evolves(s, Step(s, SetProps(name)))
  {
    QuietBumpKeeps(s, name, Get(s, name));
  }

  lemma EnsureFetchedKeeps(s: State, name: string)
    requires Inv(s)
    ensures Inv(Step(s, EnsureFetched(name))) && Evolves(s, Step(s, EnsureFetched(name)))
  {
    var s' := Step(s, EnsureFetched(name));
    var e := Get(s, name).(fetched := true);
    QuietPutKeeps(s, name, e);
    assert s'.entries == Put(s, name, e).entries;
    SameLogicFills(s, s');
    SameFlagsTell(s, s');
  }

  /** Every event keeps the invariant, and moves every entry forward. */
  lemma StepKeeps(s: State, e: Event)
    requires Inv(s)
    ensures Inv(Step(s, e)) && Evolves(s, Step(s, e))
  {
    match e
    case EnsureFetched(name) => EnsureFetchedKeeps(s, name);
    case FetchDone(name, parsed) => EndFetchKeeps(s, name, parsed);
    case Push(name, Html, content, _, streaming) => PushHtmlKeeps(s, name, content, streaming);
    case Push(name, Js, _, _, streaming) => PushJsKeeps(s, name, streaming);
    case Push(name, Props, content, preview, streaming) => PushPropsKeeps(s, name, content, preview, streaming);
    case Adopt(name, part) => AdoptParsedKeeps(s, name, part);
    case MarkFetched(name) => QuietPutKeeps(s, name, Get(s, name).(fetched := true));
    case SetProps(name) => SetPropsKeeps(s, name);
    case EvalDone(run, outcome) =>
      if run in s.running {
        EndEvaluationKeeps(s, run, outcome);
      }
  }

  // ---- whole runs

  lemma {:induction false} RunKeeps(events: seq<Event>)
    ensures Inv(Run(events))
  {
    if events != [] {
      RunKeeps(events[..|events| - 1]);
      StepKeeps(Run(events[..|events| - 1]), events[|events| - 1]);
    }
  }

  /** In every run: a name is fetched at most once, and the page flag tells whether some entry streams. */
  lemma RunSafe(events: seq<Event>)
    ensures Distinct(Run(events).started)
    ensures Run(events).pageStreaming <==>
      exists name :: name in Run(events).entries && Streams(Run(events).entries[name])
  {
    RunKeeps(events);
  }

  /** In every run a version never falls, and stays the same only while template, logic and flags stay the same. */
  lemma {:induction false} RunAdvances(events: seq<Event>, k: nat)
    requires k <= |events|
    ensures Evolves(Run(events[..k]), Run(events))
    decreases |events| - k
  {
    if k == |events| {
      assert events[..k] == events;
    } else {
      var head := events[..k + 1];
      assert head[..|head| - 1] == events[..k];
      RunKeeps(events[..k]);
      StepKeeps(Run(events[..k]), events[k]);
      RunAdvances(events, k + 1);
      Compose(Run(events[..k]), Run(head), Run(events));
    }
  }

  /** What a completing fetch may do to one entry. */
  lemma EndFetchFills(s: State, fetched: string, parsed: Option<Parsed>, name: string)
    ensures var a, b := Get(s, name), Get(EndFetch(s, fetched, parsed), name);
      && b.logic == a.logic
      && (b.html == a.html || (a.html == "" && fetched == name && parsed.Some? && b.html == parsed.value.template))
  {
    if parsed.Some? {
      var rest := s.(pending := s.pending - {fetched});
      var p := parsed.value;
      var adopted := AdoptMeta(rest, fetched, p);
      AdoptedKeeps(rest, fetched, p, name);
      var filled := if p.template != "" && Get(adopted, fetched).html == ""
                    then UpdateHtml(adopted, fetched, p.template) else adopted;
      TemplateSet(adopted, fetched, p.template, name);
      EvaluationStarts(filled, fetched, name);
    }
  }

  lemma AdoptedKeeps(s: State, adopted: string, p: Parsed, name: string)
    ensures var a, b := Get(s, name), Get(AdoptMeta(s, adopted, p), name); b.logic == a.logic && b.html == a.html
  {
  }

  lemma TemplateSet(s: State, target: string, html: string, name: string)
    ensures var a, b := Get(s, name), Get(UpdateHtml(s, target, html), name);
      b.logic == a.logic && b.html == if target == name then html else a.html
  {
  }

  lemma EvaluationStarts(s: State, started: string, name: string)
    ensures var a, b := Get(s, name), Get(UpdateJs(s, started, true), name); b.logic == a.logic && b.html == a.html
  {
  }

  /** In every run, a completing fetch and the evaluation it starts replace nothing that is there. */
  lemma FetchReplacesNothing(events: seq<Event>, e: Event, name: string)
    requires e.FetchDone? || (e.EvalDone? && e.run.fromFetch)
    ensures var before, after := Get(Run(events), name), Get(Run(events + [e]), name);
      && (before.html != "" ==> after.html == before.html)
      && (before.logic.Some? ==> after.logic == before.logic)
  {
    var s := Run(events);
    assert (events + [e])[..|events|] == events;
    RunKeeps(events);
    if e.FetchDone? {
      EndFetchFills(s, e.name, e.parsed, name);
    }
  }

  /** The latest template that a push or an adopted file set for a name. */
  function LatestTemplate(events: seq<Event>, name: string): Option<string> {
    if events == [] then None
    else
      var e := events[|events| - 1];
      if e.Push? && e.name == name && e.kind.Html? then Some(e.content)
      else if e.Adopt? && e.name == name && e.part.template != "" then Some(e.part.template)
      else LatestTemplate(events[..|events| - 1], name)
  }

  ghost predicate FetchedTemplate(events: seq<Event>, name: string, html: string) {
    exists i :: 0 <= i < |events| && events[i].FetchDone? && events[i].name == name &&
      events[i].parsed.Some? && events[i].parsed.value.template == html
  }

  /** Whenever the fetch completes, the latest non-empty template that was pushed is the one shown;
      a fetched template shows only where there is none. */
  lemma {:induction false} PushedTemplateWins(events: seq<Event>, name: string)
    ensures var shown, latest := Get(Run(events), name).html, LatestTemplate(events, name);
      if latest.Some? && latest.value != "" then shown == latest.value
      else shown == "" || FetchedTemplate(events, name, shown)
  {
    if events != [] {
      var n := |events| - 1;
      var before, e := events[..n], events[n];
      PushedTemplateWins(before, name);
      TemplateStep(Run(before), e, name);
      var shown := Get(Run(before), name).html;
      if FetchedTemplate(before, name, shown) {
        var i :| 0 <= i < |before| && before[i].FetchDone? && before[i].name == name &&
                 before[i].parsed.Some? && before[i].parsed.value.template == shown;
        assert events[i] == before[i];
        assert FetchedTemplate(events, name, shown);
      }
    }
  }

  ghost predicate KeepsTemplates(s: State, s': State) {
    forall name :: Get(s', name).html == Get(s, name).html
  }

  lemma PushTemplate(s: State, e: Event, name: string)
    requires e.Push?
    ensures Get(Step(s, e), name).html == if e.name == name && e.kind.Html? then e.content else Get(s, name).html
  {
    var claimed := Claim(s, e.name, e.streaming);
    assert KeepsTemplates(s, claimed);
    FlagTemplates(claimed, e.name, e.kind, e.streaming);
    var flagged := SetStreaming(claimed, e.name, e.kind, e.streaming);
    match e.kind
    case Html => TemplateSet(flagged, e.name, e.content, name);
    case Js => assert Get(UpdateJs(flagged, e.name, false), name).html == Get(flagged, name).html;
    case Props =>
  }

  lemma FlagTemplates(s: State, name: string, kind: Kind, on: bool)
    ensures KeepsTemplates(s, SetStreaming(s, name, kind, on))
  {
  }

  lemma AdoptTemplate(s: State, adopted: string, part: Parsed, name: string)
    ensures Get(AdoptParsed(s, adopted, part), name).html ==
      if adopted == name && part.template != "" then part.template else Get(s, name).html
  {
    assert KeepsTemplates(s, AdoptMeta(s, adopted, part));
  }

  /** How one event changes the template of a name. */
  lemma TemplateStep(s: State, e: Event, name: string)
    ensures var before, after := Get(s, name).html, Get(Step(s, e), name).html;
      if e.Push? && e.name == name && e.kind.Html? then after == e.content
      else if e.Adopt? && e.name == name && e.part.template != "" then after == e.part.template
      else after == before ||
           (before == "" && e.FetchDone? && e.name == name && e.parsed.Some? && e.parsed.value.template == after)
  {
    match e
    case Push(_, _, _, _, _) => PushTemplate(s, e, name);
    case Adopt(adopted, part) => AdoptTemplate(s, adopted, part, name);
    case FetchDone(fetched, parsed) => EndFetchFills(s, fetched, parsed, name);
    case _ => assert KeepsTemplates(s, Step(s, e));
  }
}
