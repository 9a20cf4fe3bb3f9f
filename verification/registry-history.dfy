/** What the history of a registry tells of an entry: which class is installed, and when properties change
    without a new version. */
module RegistryHistory {
  import opened Options
  import opened Registry

  // ---- properties without a version

  /** Properties that come with a file change without a new version when the file sets no template. */
  predicate Quiet(s: State, e: Event, name: string) {
    match e
    case FetchDone(fetched, Some(p)) =>
      && fetched == name && name in s.pending && p.props != "" && p.props != Get(s, name).props
      && (p.template == "" || Get(s, name).html != "")
    case Adopt(adopted, p) =>
      adopted == name && p.props != "" && p.props != Get(s, name).props && p.template == ""
    case _ => false
  }

  /** What an operation leaves of the properties, the class and the version of an entry. */
  ghost predicate Same(a: Entry, b: Entry, more: nat) {
    b.props == a.props && b.logic == a.logic && b.ver == a.ver + more
  }

  lemma HtmlKeeps(s: State, target: string, html: string, name: string)
    ensures Same(Get(s, name), Get(UpdateHtml(s, target, html), name), if target == name then 1 else 0)
  {
  }

  lemma JsKeeps(s: State, target: string, fromFetch: bool, name: string)
    ensures Same(Get(s, name), Get(UpdateJs(s, target, fromFetch), name), 0)
  {
  }

  lemma FlagKeeps(s: State, target: string, kind: Kind, on: bool, name: string)
    ensures Same(Get(s, name), Get(SetStreaming(s, target, kind, on), name), if target == name then 1 else 0)
  {
  }

  lemma ClaimKeepsEntry(s: State, target: string, streaming: bool, name: string)
    ensures Same(Get(s, name), Get(Claim(s, target, streaming), name), 0)
  {
  }

  lemma MetaKeeps(s: State, target: string, p: Parsed, name: string)
    ensures var a, b := Get(s, name), Get(AdoptMeta(s, target, p), name);
      && b.props == (if target == name && p.props != "" then p.props else a.props)
      && b.html == a.html && b.ver == a.ver
  {
  }

  lemma FillKeeps(s: State, target: string, p: Parsed, name: string)
    ensures var fills := p.template != "" && Get(s, target).html == "";
      var filled := if fills then UpdateHtml(s, target, p.template) else s;
      Same(Get(s, name), Get(filled, name),
           if target == name && p.template != "" && Get(s, name).html == "" then 1 else 0)
  {
    HtmlKeeps(s, target, p.template, name);
  }

  lemma CompleteQuiet(s: State, fetched: string, p: Parsed, name: string)
    ensures var a, b := Get(s, name), Get(CompleteFetch(s, fetched, p), name);
      && b.props == (if fetched == name && p.props != "" then p.props else a.props)
      && b.ver == a.ver + if fetched == name && p.template != "" && a.html == "" then 1 else 0
  {
    var s1 := AdoptMeta(s, fetched, p);
    MetaKeeps(s, fetched, p, name);
    FillKeeps(s1, fetched, p, name);
    JsKeeps(if p.template != "" && Get(s1, fetched).html == "" then UpdateHtml(s1, fetched, p.template) else s1,
            fetched, true, name);
  }

  lemma FetchQuiet(s: State, fetched: string, p: Parsed, name: string)
    ensures var a, b := Get(s, name), Get(EndFetch(s, fetched, Some(p)), name);
      && b.props == (if fetched == name && p.props != "" then p.props else a.props)
      && b.ver == a.ver + if fetched == name && p.template != "" && a.html == "" then 1 else 0
  {
    CompleteQuiet(s.(pending := s.pending - {fetched}), fetched, p, name);
  }

  lemma AdoptQuiet(s: State, adopted: string, p: Parsed, name: string)
    ensures var a, b := Get(s, name), Get(AdoptParsed(s, adopted, p), name);
      && b.props == (if adopted == name && p.props != "" then p.props else a.props)
      && b.ver == a.ver + if adopted == name && p.template != "" then 1 else 0
  {
    var s1 := AdoptMeta(s, adopted, p);
    MetaKeeps(s, adopted, p, name);
    HtmlKeeps(s1, adopted, p.template, name);
    JsKeeps(if p.template != "" then UpdateHtml(s1, adopted, p.template) else s1, adopted, false, name);
  }

  lemma PushHtmlCounts(s: State, target: string, content: string, streaming: bool, name: string)
    ensures Same(Get(s, name), Get(PushHtml(s, target, content, streaming), name), if target == name then 2 else 0)
  {
    var claimed := Claim(s, target, streaming);
    ClaimKeepsEntry(s, target, streaming, name);
    FlagKeeps(claimed, target, Html, streaming, name);
    HtmlKeeps(SetStreaming(claimed, target, Html, streaming), target, content, name);
  }

  lemma PushJsCounts(s: State, target: string, streaming: bool, name: string)
    ensures Same(Get(s, name), Get(PushJs(s, target, streaming), name), if target == name then 1 else 0)
  {
    var claimed := Claim(s, target, streaming);
    ClaimKeepsEntry(s, target, streaming, name);
    FlagKeeps(claimed, target, Js, streaming, name);
    JsKeeps(SetStreaming(claimed, target, Js, streaming), target, false, name);
  }

  lemma PushPropsCounts(s: State, target: string, content: string, preview: string, streaming: bool, name: string)
    ensures var a, b := Get(s, name), Get(PushProps(s, target, content, preview, streaming), name);
      b.logic == a.logic && if target == name then b.ver == a.ver + 1 else b.props == a.props
  {
    ClaimKeepsEntry(s, target, streaming, name);
  }

  lemma PushCounts(s: State, e: Event, name: string)
    requires e.Push?
    ensures var a, b := Get(s, name), Get(Step(s, e), name);
      b.logic == a.logic && if e.name == name then b.ver > a.ver else b.props == a.props
  {
    match e.kind
    case Html => PushHtmlCounts(s, e.name, e.content, e.streaming, name);
    case Js => PushJsCounts(s, e.name, e.streaming, name);
    case Props => PushPropsCounts(s, e.name, e.content, e.preview, e.streaming, name);
  }

  /** The properties of an entry change without a new version exactly in this way. */
  lemma QuietExactly(s: State, e: Event, name: string)
    ensures var a, b := Get(s, name), Get(Step(s, e), name);
      a.props != b.props && a.ver == b.ver <==> Quiet(s, e, name)
  {
    match e
    case FetchDone(fetched, Some(p)) => FetchQuiet(s, fetched, p, name);
    case Adopt(adopted, p) => AdoptQuiet(s, adopted, p, name);
    case Push(_, _, _, _, _) => PushCounts(s, e, name);
    case _ =>
  }

  // ---- the class that is installed

  /** The end of the evaluation may change the entry. */
  predicate Newest(s: State, run: Evaluation, name: string) {
    run in s.running && run.name == name && name in s.entries && Get(s, name).jsSeq == run.number
  }

  lemma LogicStep(s: State, e: Event, name: string)
    ensures Get(Step(s, e), name).logic ==
      if e.EvalDone? && e.outcome.Class? && Newest(s, e.run, name) then Some(e.outcome.cls) else Get(s, name).logic
  {
    match e
    case FetchDone(fetched, parsed) => EndFetchFills(s, fetched, parsed, name);
    case Push(_, _, _, _, _) => PushCounts(s, e, name);
    case Adopt(adopted, p) => AdoptLogic(s, adopted, p, name);
    case _ =>
  }

  lemma AdoptLogic(s: State, adopted: string, p: Parsed, name: string)
    ensures Get(AdoptParsed(s, adopted, p), name).logic == Get(s, name).logic
  {
    var s1 := AdoptMeta(s, adopted, p);
    AdoptedKeeps(s, adopted, p, name);
    HtmlKeeps(s1, adopted, p.template, name);
    JsKeeps(if p.template != "" then UpdateHtml(s1, adopted, p.template) else s1, adopted, false, name);
  }

  /** The event at `i` installs a class for the name. */
  ghost predicate InstallsAt(events: seq<Event>, i: nat, name: string) {
    i < |events| && events[i].EvalDone? && events[i].outcome.Class? && Newest(Run(events[..i]), events[i].run, name)
  }

  // ---- evaluations install in the order in which they were started

  /** No evaluation of the name with this number is running or will be started. */
  ghost predicate Over(s: State, name: string, n: nat) {
    n <= Get(s, name).jsSeq && forall run :: run in s.running && run.name == name ==> run.number != n
  }

  lemma UpdateJsOver(s: State, started: string, fromFetch: bool, name: string, n: nat)
    requires Over(s, name, n)
    ensures Over(UpdateJs(s, started, fromFetch), name, n)
  {
  }

  lemma SameOver(s: State, s': State, name: string, n: nat)
    requires Over(s, name, n) && s'.running <= s.running && Get(s', name).jsSeq == Get(s, name).jsSeq
    ensures Over(s', name, n)
  {
  }

  lemma PushOver(s: State, e: Event, name: string, n: nat)
    requires Over(s, name, n) && e.Push?
    ensures Over(Step(s, e), name, n)
  {
    var claimed := Claim(s, e.name, e.streaming);
    var flagged := SetStreaming(claimed, e.name, e.kind, e.streaming);
    SameOver(s, claimed, name, n);
    SameOver(claimed, flagged, name, n);
    UpdateJsOver(flagged, e.name, false, name, n);
  }

  lemma AdoptOver(s: State, adopted: string, p: Parsed, name: string, n: nat)
    requires Over(s, name, n)
    ensures Over(AdoptParsed(s, adopted, p), name, n)
  {
    var s1 := AdoptMeta(s, adopted, p);
    var s2 := if p.template != "" then UpdateHtml(s1, adopted, p.template) else s1;
    SameOver(s, s2, name, n);
    UpdateJsOver(s2, adopted, false, name, n);
  }

  lemma FetchOver(s: State, fetched: string, p: Parsed, name: string, n: nat)
    requires Over(s, name, n)
    ensures Over(EndFetch(s, fetched, Some(p)), name, n)
  {
    var rest := s.(pending := s.pending - {fetched});
    var s1 := AdoptMeta(rest, fetched, p);
    var s2 := if p.template != "" && Get(s1, fetched).html == "" then UpdateHtml(s1, fetched, p.template) else s1;
    SameOver(s, s2, name, n);
    UpdateJsOver(s2, fetched, true, name, n);
  }

  lemma StepOver(s: State, e: Event, name: string, n: nat)
    requires Over(s, name, n)
    ensures Over(Step(s, e), name, n)
  {
    match e
    case Push(_, _, _, _, _) => PushOver(s, e, name, n);
    case Adopt(adopted, p) => AdoptOver(s, adopted, p, name, n);
    case FetchDone(fetched, Some(p)) => FetchOver(s, fetched, p, name, n);
    case _ => SameOver(s, Step(s, e), name, n);
  }

  lemma RunNext(before: seq<Event>, e: Event, events: seq<Event>, s: State)
    requires s == Run(before) && events == before + [e]
    ensures Run(events) == Step(s, e)
  {
    assert events[..|before|] == before;
  }

  lemma {:induction false} RunOver(before: seq<Event>, more: seq<Event>, events: seq<Event>, s: State, t: State,
                                   name: string, n: nat)
    requires events == before + more && s == Run(before) && t == Run(events) && Over(s, name, n)
    ensures Over(t, name, n)
    decreases |more|
  {
    if more == [] {
      assert events == before;
    } else {
      var m := |more| - 1;
      var shorter := before + more[..m];
      var u := Run(shorter);
      RunOver(before, more[..m], shorter, s, u, name, n);
      StepOver(u, more[m], name, n);
      RunNext(shorter, more[m], events, u);
    }
  }

  /** Once an evaluation has ended as the newest, its number is over. */
  lemma EndedOver(s: State, run: Evaluation, outcome: Outcome, name: string)
    requires Inv(s) && Newest(s, run, name)
    ensures Over(Step(s, EvalDone(run, outcome)), name, run.number)
  {
    var after := Step(s, EvalDone(run, outcome));
    forall other | other in after.running && other.name == name
      ensures other.number != run.number
    {
      assert other in s.running && other != run;
    }
  }

  lemma InstalledOver(events: seq<Event>, i: nat, name: string)
    requires InstallsAt(events, i, name)
    ensures Over(Run(events[..i + 1]), name, events[i].run.number)
  {
    var s := Run(events[..i]);
    RunKeeps(events[..i]);
    EndedOver(s, events[i].run, events[i].outcome, name);
    RunNext(events[..i], events[i], events[..i + 1], s);
  }

  /** Of two classes installed for a name the later one is from the evaluation that was started later. */
  lemma InstalledInOrder(events: seq<Event>, i: nat, j: nat, name: string)
    requires i < j && InstallsAt(events, i, name) && InstallsAt(events, j, name)
    ensures events[i].run.number < events[j].run.number
  {
    var n, t := events[i].run.number, Run(events[..j]);
    InstalledOver(events, i, name);
    RunOver(events[..i + 1], events[i + 1..j], events[..j], Run(events[..i + 1]), t, name, n);
    assert Newest(t, events[j].run, name);
  }

  /** The class of an entry comes from the last event that installed one. */
  ghost predicate ComesFrom(events: seq<Event>, name: string, logic: Option<string>) {
    match logic
    case None => forall i :: 0 <= i < |events| ==> !InstallsAt(events, i, name)
    case Some(cls) => exists i: nat :: InstallsLast(events, i, name) && events[i].outcome.cls == cls
  }

  lemma InstallsBefore(before: seq<Event>, e: Event, i: nat, name: string)
    requires i < |before|
    ensures InstallsAt(before + [e], i, name) <==> InstallsAt(before, i, name)
  {
    assert (before + [e])[..i] == before[..i];
  }

  lemma ComesNext(before: seq<Event>, e: Event, name: string, logic: Option<string>)
    requires ComesFrom(before, name, logic) && !InstallsAt(before + [e], |before|, name)
    ensures ComesFrom(before + [e], name, logic)
  {
    var events := before + [e];
    forall i | 0 <= i < |before|
      ensures InstallsAt(events, i, name) <==> InstallsAt(before, i, name)
    {
      InstallsBefore(before, e, i, name);
    }
    if logic.Some? {
      var i: nat :| InstallsLast(before, i, name) && before[i].outcome.cls == logic.value;
      assert InstallsLast(events, i, name);
    }
  }

  lemma {:induction false} LogicFrom(events: seq<Event>, name: string)
    ensures ComesFrom(events, name, Get(Run(events), name).logic)
    decreases |events|
  {
    if events != [] {
      var n := |events| - 1;
      var before := events[..n];
      assert events == before + [events[n]];
      LogicFrom(before, name);
      LogicStep(Run(before), events[n], name);
      if InstallsAt(events, n, name) {
        assert InstallsLast(events, n, name);
      } else {
        ComesNext(before, events[n], name, Get(Run(before), name).logic);
      }
    }
  }

  ghost predicate InstallsLast(events: seq<Event>, i: nat, name: string) {
    InstallsAt(events, i, name) && forall j :: i < j < |events| ==> !InstallsAt(events, j, name)
  }

  /** The event at `i` installs a class, and no other installs one of an evaluation with a greater number. */
  ghost predicate InstallsNewest(events: seq<Event>, i: nat, name: string) {
    && InstallsAt(events, i, name)
    && forall k: nat :: InstallsAt(events, k, name) ==> events[k].run.number <= events[i].run.number
  }

  /** In every run, whoever pushed or fetched the scripts and in whatever order their evaluations ended: a name
      has no class until one is installed, and then the class of the installing evaluation with the greatest
      number. */
  lemma NewestClassWins(events: seq<Event>, name: string, i: nat)
    ensures Get(Run(events), name).logic.None? <==> forall k :: 0 <= k < |events| ==> !InstallsAt(events, k, name)
    ensures InstallsNewest(events, i, name) ==> Get(Run(events), name).logic == Some(events[i].outcome.cls)
  {
    LogicFrom(events, name);
    FromNewest(events, name, i, Get(Run(events), name).logic);
  }

  lemma FromNewest(events: seq<Event>, name: string, i: nat, logic: Option<string>)
    requires ComesFrom(events, name, logic)
    ensures logic.None? <==> forall k :: 0 <= k < |events| ==> !InstallsAt(events, k, name)
    ensures InstallsNewest(events, i, name) ==> logic == Some(events[i].outcome.cls)
  {
    if logic.Some? {
      var last: nat :| InstallsLast(events, last, name) && events[last].outcome.cls == logic.value;
      if i < last && InstallsAt(events, i, name) {
        InstalledInOrder(events, i, last, name);
      }
    }
  }
}
