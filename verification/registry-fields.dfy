/** What one event does to each field of an entry, and what a history of events tells of the fields. */
module RegistryFields {
  import opened Options
  import opened Registry

  // ---- one event, in one piece

  /** Whether the event is about this name. */
  predicate Concerns(e: Event, name: string) {
    match e
    case EvalDone(run, _) => run.name == name
    case _ => e.name == name
  }

  /** What an event leaves of the entry that it is about, field by field. */
  function After(s: State, e: Event, a: Entry): Entry {
    match e
    case EnsureFetched(_) => a.(fetched := true)
    case MarkFetched(_) => a.(fetched := true)
    case SetProps(_) => a.(ver := a.ver + 1)
    case Push(_, Html, content, _, streaming) =>
      a.(html := content, htmlStreaming := streaming, fetched := a.fetched || streaming, ver := a.ver + 2)
    case Push(_, Js, _, _, streaming) =>
      a.(jsStreaming := streaming, fetched := a.fetched || streaming, ver := a.ver + 1,
         jsSeq := if streaming then a.jsSeq else a.jsSeq + 1)
    case Push(_, Props, content, preview, streaming) =>
      a.(props := content, preview := preview, fetched := a.fetched || streaming, ver := a.ver + 1)
    case Adopt(_, p) => Taken(a, p, p.template != "", p.js != "")
    case FetchDone(name, Some(p)) =>
      if name in s.pending then Taken(a, p, p.template != "" && a.html == "", p.js != "" && a.logic.None?) else a
    case FetchDone(_, None) => a
    case EvalDone(run, outcome) =>
      if run !in s.running || run.name !in s.entries || run.number != a.jsSeq then a
      else
        match outcome
        case Class(cls) => a.(logic := Some(cls), logicError := None, ver := a.ver + 1)
        case NotAClass(message) => a.(logicError := Some(message), ver := a.ver + 1)
        case Throws(message) => a.(logicError := Some(message), ver := a.ver + 1)
  }

  /** An entry after taking over the metadata of a file, its template or not, and its script or not. */
  function Taken(a: Entry, p: Parsed, template: bool, script: bool): Entry {
    a.(props := if p.props == "" then a.props else p.props,
       preview := if p.preview == "" then a.preview else p.preview,
       html := if template then p.template else a.html,
       ver := if template then a.ver + 1 else a.ver,
       jsSeq := if script then a.jsSeq + 1 else a.jsSeq)
  }

  lemma HtmlEntry(s: State, target: string, html: string, name: string)
    ensures var a := Get(s, name);
      Get(UpdateHtml(s, target, html), name) == if target == name then a.(html := html, ver := a.ver + 1) else a
  {
  }

  lemma JsEntry(s: State, target: string, fromFetch: bool, name: string)
    ensures var a := Get(s, name);
      Get(UpdateJs(s, target, fromFetch), name) == if target == name then a.(jsSeq := a.jsSeq + 1) else a
  {
  }

  lemma HtmlFlagEntry(s: State, target: string, on: bool, name: string)
    ensures var a := Get(s, name);
      Get(SetStreaming(s, target, Html, on), name) ==
      if target == name then a.(htmlStreaming := on, ver := a.ver + 1) else a
  {
  }

  lemma JsFlagEntry(s: State, target: string, on: bool, name: string)
    ensures var a := Get(s, name);
      Get(SetStreaming(s, target, Js, on), name) ==
      if target == name then a.(jsStreaming := on, ver := a.ver + 1) else a
  {
  }

  lemma ClaimEntry(s: State, target: string, streaming: bool, name: string)
    ensures var a := Get(s, name);
      Get(Claim(s, target, streaming), name) ==
      if target == name then a.(fetched := a.fetched || streaming) else a
  {
  }

  lemma MetaEntry(s: State, target: string, p: Parsed, name: string)
    ensures var a := Get(s, name);
      Get(AdoptMeta(s, target, p), name) == if target == name then Taken(a, p, false, false) else a
  {
  }

  lemma PushHtmlEntry(s: State, e: Event, name: string)
    requires e.Push? && e.kind == Html
    ensures Get(Step(s, e), name) == if e.name == name then After(s, e, Get(s, name)) else Get(s, name)
  {
    var s1 := Claim(s, e.name, e.streaming);
    var s2 := SetStreaming(s1, e.name, Html, e.streaming);
    ClaimEntry(s, e.name, e.streaming, name);
    HtmlFlagEntry(s1, e.name, e.streaming, name);
    HtmlEntry(s2, e.name, e.content, name);
  }

  lemma PushJsEntry(s: State, e: Event, name: string)
    requires e.Push? && e.kind == Js
    ensures Get(Step(s, e), name) == if e.name == name then After(s, e, Get(s, name)) else Get(s, name)
  {
    var s1 := Claim(s, e.name, e.streaming);
    var s2 := SetStreaming(s1, e.name, Js, e.streaming);
    ClaimEntry(s, e.name, e.streaming, name);
    JsFlagEntry(s1, e.name, e.streaming, name);
    JsEntry(s2, e.name, false, name);
  }

  lemma PushPropsEntry(s: State, e: Event, name: string)
    requires e.Push? && e.kind == Props
    ensures Get(Step(s, e), name) == if e.name == name then After(s, e, Get(s, name)) else Get(s, name)
  {
    ClaimEntry(s, e.name, e.streaming, name);
  }

  lemma FillEntry(s: State, target: string, p: Parsed, template: bool, script: bool, fromFetch: bool, name: string)
    ensures var filled := if template then UpdateHtml(s, target, p.template) else s;
      var r := if script then UpdateJs(filled, target, fromFetch) else filled;
      var a := Get(s, name);
      Get(r, name) ==
      if target == name then Taken(a, p.(props := "", preview := ""), template, script) else a
  {
    var filled := if template then UpdateHtml(s, target, p.template) else s;
    HtmlEntry(s, target, p.template, name);
    JsEntry(filled, target, fromFetch, name);
  }

  lemma AdoptEntry(s: State, adopted: string, p: Parsed, name: string)
    ensures var a := Get(s, name);
      Get(AdoptParsed(s, adopted, p), name) ==
      if adopted == name then Taken(a, p, p.template != "", p.js != "") else a
  {
    MetaEntry(s, adopted, p, name);
    FillEntry(AdoptMeta(s, adopted, p), adopted, p, p.template != "", p.js != "", false, name);
  }

  lemma CompleteEntry(s: State, fetched: string, p: Parsed, name: string)
    ensures var a := Get(s, name);
      Get(CompleteFetch(s, fetched, p), name) ==
      if fetched == name then Taken(a, p, p.template != "" && a.html == "", p.js != "" && a.logic.None?) else a
  {
    var s1, a := AdoptMeta(s, fetched, p), Get(s, fetched);
    MetaEntry(s, fetched, p, name);
    MetaEntry(s, fetched, p, fetched);
    HtmlEntry(s1, fetched, p.template, fetched);
    FillEntry(s1, fetched, p, p.template != "" && a.html == "", p.js != "" && a.logic.None?, true, name);
  }

  lemma FetchEntry(s: State, e: Event, name: string)
    requires e.FetchDone? && e.parsed.Some? && e.name in s.pending
    ensures Get(Step(s, e), name) == if e.name == name then After(s, e, Get(s, name)) else Get(s, name)
  {
    CompleteEntry(s.(pending := s.pending - {e.name}), e.name, e.parsed.value, name);
  }

  lemma MarkEntry(s: State, e: Event, name: string)
    requires e.EnsureFetched? || e.MarkFetched? || e.SetProps?
    ensures Get(Step(s, e), name) == if e.name == name then After(s, e, Get(s, name)) else Get(s, name)
  {
  }

  lemma EvaluationEntry(s: State, e: Event, name: string)
    requires e.EvalDone?
    ensures Get(Step(s, e), name) == if e.run.name == name then After(s, e, Get(s, name)) else Get(s, name)
  {
  }

  /** An event changes the fields of the entry it is about exactly like this, and no other entry. */
  lemma EntryExactly(s: State, e: Event, name: string)
    ensures Get(Step(s, e), name) == if Concerns(e, name) then After(s, e, Get(s, name)) else Get(s, name)
  {
    match e
    case Push(_, Html, _, _, _) => PushHtmlEntry(s, e, name);
    case Push(_, Js, _, _, _) => PushJsEntry(s, e, name);
    case Push(_, Props, _, _, _) => PushPropsEntry(s, e, name);
    case Adopt(adopted, p) => AdoptEntry(s, adopted, p, name);
    case FetchDone(fetched, Some(_)) =>
      if fetched in s.pending {
        FetchEntry(s, e, name);
      }
    case FetchDone(_, None) =>
    case EvalDone(_, _) => EvaluationEntry(s, e, name);
    case _ => MarkEntry(s, e, name);
  }

  // ---- streaming flags

  /** The pushes of this kind for this name. */
  predicate Pushes(e: Event, name: string, kind: Kind) {
    e.Push? && e.name == name && e.kind == kind
  }

  /** The two flags of an entry. */
  function Flag(e: Entry, kind: Kind): bool
    requires kind != Props
  {
    match kind
    case Html => e.htmlStreaming
    case Js => e.jsStreaming
  }

  /** Whether the last push of this kind for this name was streaming. */
  predicate LatestFlag(events: seq<Event>, name: string, kind: Kind) {
    if events == [] then false
    else
      var e := events[|events| - 1];
      if Pushes(e, name, kind) then e.streaming else LatestFlag(events[..|events| - 1], name, kind)
  }

  /** In every run each flag is the streaming mark of the last push of its kind. */
  lemma {:induction false} FlagsAsPushed(events: seq<Event>, name: string, kind: Kind)
    requires kind != Props
    ensures Flag(Get(Run(events), name), kind) <==> LatestFlag(events, name, kind)
  {
    if events != [] {
      var before := events[..|events| - 1];
      FlagsAsPushed(before, name, kind);
      EntryExactly(Run(before), events[|events| - 1], name);
    }
  }

  lemma EntryStreams(events: seq<Event>, name: string)
    ensures Streams(Get(Run(events), name)) <==> LatestFlag(events, name, Html) || LatestFlag(events, name, Js)
  {
    FlagsAsPushed(events, name, Html);
    FlagsAsPushed(events, name, Js);
  }

  /** In every run the page shows that it streams exactly when the last template or the last script pushed for
      some name was streaming. */
  lemma PageAsPushed(events: seq<Event>)
    ensures Run(events).pageStreaming <==>
      exists name :: LatestFlag(events, name, Html) || LatestFlag(events, name, Js)
  {
    var s := Run(events);
    RunSafe(events);
    if name :| name in s.entries && Streams(s.entries[name]) {
      EntryStreams(events, name);
    }
    if name :| LatestFlag(events, name, Html) || LatestFlag(events, name, Js) {
      EntryStreams(events, name);
      assert name in s.entries;
    }
  }

  // ---- sibling fetches

  /** The event takes the name out of the hands of the sibling fetch. */
  predicate Claims(e: Event, name: string) {
    match e
    case MarkFetched(marked) => marked == name
    case Push(pushed, _, _, _, streaming) => pushed == name && streaming
    case _ => false
  }

  /** The fetches that an event issues, completes or leaves alone. */
  lemma FetchesExactly(s: State, e: Event)
    ensures Step(s, e).started ==
      if e.EnsureFetched? && !Get(s, e.name).fetched then s.started + [e.name] else s.started
    ensures Step(s, e).pending ==
      if e.EnsureFetched? && !Get(s, e.name).fetched then s.pending + {e.name}
      else if e.FetchDone? then s.pending - {e.name} else s.pending
  {
    if e.Push? {
      PushFetches(s, e);
    }
  }

  lemma PushFetches(s: State, e: Event)
    requires e.Push?
    ensures Step(s, e).started == s.started && Step(s, e).pending == s.pending
  {
  }

  /** The name is asked for, and nothing has claimed it before. */
  ghost predicate AskedUnclaimed(events: seq<Event>, name: string) {
    exists i :: AsksAt(events, i, name)
  }

  ghost predicate AsksAt(events: seq<Event>, i: int, name: string) {
    0 <= i < |events| && events[i] == EnsureFetched(name) && forall j :: 0 <= j < i ==> !Claims(events[j], name)
  }

  ghost predicate Touched(events: seq<Event>, name: string) {
    exists i :: 0 <= i < |events| && (events[i] == EnsureFetched(name) || Claims(events[i], name))
  }

  lemma TouchedNext(before: seq<Event>, e: Event, name: string)
    ensures Touched(before + [e], name) <==> Touched(before, name) || e == EnsureFetched(name) || Claims(e, name)
  {
    var events := before + [e];
    assert events[|before|] == e;
    if i :| 0 <= i < |before| && (before[i] == EnsureFetched(name) || Claims(before[i], name)) {
      assert events[i] == before[i];
    }
  }

  lemma AskedOn(before: seq<Event>, e: Event, name: string)
    requires AskedUnclaimed(before, name) || (e == EnsureFetched(name) && !Touched(before, name))
    ensures AskedUnclaimed(before + [e], name)
  {
    var events := before + [e];
    if AskedUnclaimed(before, name) {
      var i :| AsksAt(before, i, name);
      assert AsksAt(events, i, name);
    } else {
      assert AsksAt(events, |before|, name);
    }
  }

  lemma AskedBack(before: seq<Event>, e: Event, name: string)
    requires AskedUnclaimed(before + [e], name)
    ensures AskedUnclaimed(before, name) || (e == EnsureFetched(name) && !Touched(before, name))
  {
    var events := before + [e];
    assert forall i :: 0 <= i < |before| ==> events[i] == before[i];
    var i :| AsksAt(events, i, name);
    if i < |before| {
      assert AsksAt(before, i, name);
    } else if k :| 0 <= k < |before| && before[k] == EnsureFetched(name) {
      assert AsksAt(before, k, name);
    }
  }

  lemma MarkedNext(s: State, e: Event, name: string)
    ensures Get(Step(s, e), name).fetched <==> Get(s, name).fetched || e == EnsureFetched(name) || Claims(e, name)
  {
    EntryExactly(s, e, name);
  }

  lemma FetchedNext(before: seq<Event>, e: Event, name: string, s: State)
    requires Get(s, name).fetched <==> Touched(before, name)
    requires name in s.started <==> AskedUnclaimed(before, name)
    ensures Get(Step(s, e), name).fetched <==> Touched(before + [e], name)
    ensures name in Step(s, e).started <==> AskedUnclaimed(before + [e], name)
  {
    MarkedNext(s, e, name);
    FetchesExactly(s, e);
    TouchedNext(before, e, name);
    if AskedUnclaimed(before + [e], name) {
      AskedBack(before, e, name);
    } else if AskedUnclaimed(before, name) || (e == EnsureFetched(name) && !Touched(before, name)) {
      AskedOn(before, e, name);
    }
  }

  /** In every run a fetch is issued for a name exactly when it is asked for before anything claims it. */
  lemma {:induction false} FetchIssued(events: seq<Event>, name: string)
    ensures Get(Run(events), name).fetched <==> Touched(events, name)
    ensures name in Run(events).started <==> AskedUnclaimed(events, name)
  {
    if events != [] {
      var n := |events| - 1;
      FetchIssued(events[..n], name);
      FetchedNext(events[..n], events[n], name, Run(events[..n]));
      assert events == events[..n] + [events[n]];
    }
  }

  // ---- evaluations

  /** The evaluation that an event starts: a script that was pushed in full, one of an adopted file, or one of a
      fetched file when no class is installed. */
  function Starts(s: State, e: Event): set<Evaluation> {
    match e
    case Push(name, Js, _, _, false) => {Evaluation(name, Get(s, name).jsSeq + 1, false)}
    case Adopt(name, p) => if p.js != "" then {Evaluation(name, Get(s, name).jsSeq + 1, false)} else {}
    case FetchDone(name, Some(p)) =>
      if name in s.pending && p.js != "" && Get(s, name).logic.None?
      then {Evaluation(name, Get(s, name).jsSeq + 1, true)} else {}
    case _ => {}
  }

  function Ends(e: Event): set<Evaluation> {
    if e.EvalDone? then {e.run} else {}
  }

  lemma AdoptStarts(s: State, name: string, p: Parsed)
    ensures AdoptParsed(s, name, p).running ==
      s.running + if p.js != "" then {Evaluation(name, Get(s, name).jsSeq + 1, false)} else {}
  {
    var s1 := AdoptMeta(s, name, p);
    MetaEntry(s, name, p, name);
    HtmlEntry(s1, name, p.template, name);
  }

  lemma CompleteStarts(s: State, name: string, p: Parsed)
    ensures CompleteFetch(s, name, p).running ==
      s.running +
      if p.js != "" && Get(s, name).logic.None? then {Evaluation(name, Get(s, name).jsSeq + 1, true)} else {}
  {
    var s1 := AdoptMeta(s, name, p);
    MetaEntry(s, name, p, name);
    HtmlEntry(s1, name, p.template, name);
  }

  lemma PushStarts(s: State, e: Event)
    requires e.Push?
    ensures Step(s, e).running == s.running + Starts(s, e)
  {
    if e.kind == Js {
      var claimed := Claim(s, e.name, e.streaming);
      ClaimEntry(s, e.name, e.streaming, e.name);
      JsFlagEntry(claimed, e.name, e.streaming, e.name);
    }
  }

  /** The evaluations that are running change exactly like this. */
  lemma RunningExactly(s: State, e: Event)
    ensures Step(s, e).running == s.running - Ends(e) + Starts(s, e)
  {
    match e
    case Push(_, _, _, _, _) => PushStarts(s, e);
    case Adopt(name, p) => AdoptStarts(s, name, p);
    case FetchDone(name, Some(p)) =>
      if name in s.pending {
        CompleteStarts(s.(pending := s.pending - {name}), name, p);
      }
    case _ =>
  }
}
