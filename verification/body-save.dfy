/** Saving the body of a document: one form, one save at a time, told by its history. */
module BodySave {
  import opened Options

  /** How a save ended: saved (or nothing reported), waiting for approval, failed, or thrown. */
  datatype Outcome = Done | Pending | Failed | Threw

  datatype Status = Editing | Saving | Saved | Waiting | Error

  datatype Submission = Submission(text: string, outcome: Option<Outcome>)

  /** The form, the text in its editor, and every submission so far with its outcome. */
  datatype State = State(
    text: string, initial: string, lastSubmitted: Option<string>, saving: bool, status: Status, shown: bool,
    log: seq<Submission>)

  datatype Event =
    | Edit(text: string)
    | Save
    | Blur(inside: bool)
    | Escape
    | Cancel
    | Answer(outcome: Outcome)

  function Opened(body: string): State {
    State(body, body, None, false, Editing, true, [])
  }

  predicate ShouldSubmit(text: string, initial: string, lastSubmitted: Option<string>) {
    text != initial && Some(text) != lastSubmitted
  }

  /** A save request: dropped while saving, closes an unchanged form, submits a text not yet submitted. */
  function Request(s: State): State {
    if s.saving then s
    else if s.text == s.initial then s.(shown := false)
    else if !ShouldSubmit(s.text, s.initial, s.lastSubmitted) then s
    else s.(lastSubmitted := Some(s.text), saving := true, status := Saving,
            log := s.log + [Submission(s.text, None)])
  }

  function Answered(log: seq<Submission>, o: Outcome): seq<Submission>
    requires log != []
  {
    log[..|log| - 1] + [log[|log| - 1].(outcome := Some(o))]
  }

  /** The answer to the submission in flight. */
  function Settle(s: State, o: Outcome): State
    requires s.log != []
  {
    var log := Answered(s.log, o);
    match o
    case Done => s.(initial := s.log[|s.log| - 1].text, lastSubmitted := None, status := Saved,
                    saving := false, shown := false, log := log)
    case Pending => s.(status := Waiting, saving := false, log := log)
    case Failed => s.(status := Error, lastSubmitted := None, saving := false, log := log)
    case Threw => s.(status := Error, lastSubmitted := None, saving := false, log := log)
  }

  /** One step. A closed form has no editor, no buttons and no save in flight. */
  function Step(s: State, e: Event): State {
    if !s.shown then s else
    match e
    case Edit(text) => s.(text := text)
    case Save => Request(s)
    case Blur(inside) => if s.saving || inside then s else Request(s)
    case Escape => if s.saving then s else s.(shown := false)
    case Cancel => if s.saving then s else s.(shown := false)
    case Answer(o) => if s.saving && s.log != [] then Settle(s, o) else s
  }

  function Run(s: State, events: seq<Event>): State
    decreases |events|
  {
    if events == [] then s else Run(Step(s, events[0]), events[1..])
  }

  // ---- what the fields mean

  /** The text known to be stored: that of the latest successful submission, or else the original. */
  function Stored(body: string, log: seq<Submission>): string {
    if log == [] then body
    else if log[|log| - 1].outcome == Some(Done) then log[|log| - 1].text
    else Stored(body, log[..|log| - 1])
  }

  function Latest(log: seq<Submission>): Option<Submission> {
    if log == [] then None else Some(log[|log| - 1])
  }

  function StatusOf(latest: Option<Submission>): Status {
    if latest.None? then Editing
    else match latest.value.outcome
      case None => Saving
      case Some(Done) => Saved
      case Some(Pending) => Waiting
      case Some(_) => Error
  }

  /** A text that must not be submitted again: one in flight, or one waiting for approval. */
  function Held(latest: Option<Submission>): Option<string> {
    if latest.None? then None
    else match latest.value.outcome
      case None => Some(latest.value.text)
      case Some(Pending) => Some(latest.value.text)
      case Some(_) => None
  }

  /** Failures are the only submissions that may be followed by the same text. */
  ghost predicate RepeatsOnlyFailures(log: seq<Submission>) {
    forall i :: 0 <= i < |log| - 1 && log[i].text == log[i + 1].text ==>
      log[i].outcome == Some(Failed) || log[i].outcome == Some(Threw)
  }

  ghost predicate OneInFlight(log: seq<Submission>) {
    forall i :: 0 <= i < |log| - 1 ==> log[i].outcome.Some?
  }

  /** Every field is told by the history. */
  ghost predicate Told(body: string, s: State) {
    var latest := Latest(s.log);
    && s.initial == Stored(body, s.log)
    && s.lastSubmitted == Held(latest)
    && s.status == StatusOf(latest)
    && (s.saving <==> s.status == Saving)
    && (s.saving ==> s.shown)
  }

  ghost predicate Safe(body: string, s: State) {
    Told(body, s) && OneInFlight(s.log) && RepeatsOnlyFailures(s.log)
  }

  // ---- every run

  lemma StoredGrows(body: string, log: seq<Submission>, x: Submission)
    ensures Stored(body, log + [x]) == if x.outcome == Some(Done) then x.text else Stored(body, log)
  {
    assert (log + [x])[..|log|] == log;
  }

  lemma RequestKeeps(body: string, s: State)
    requires Safe(body, s) && s.shown
    ensures Safe(body, Request(s))
  {
    if !s.saving && ShouldSubmit(s.text, s.initial, s.lastSubmitted) {
      StoredGrows(body, s.log, Submission(s.text, None));
      var log := s.log + [Submission(s.text, None)];
      forall i | 0 <= i < |log| - 1
        ensures log[i].outcome.Some? && (log[i].text == log[i + 1].text ==>
          log[i].outcome == Some(Failed) || log[i].outcome == Some(Threw))
      {
        SubmittedAfter(body, s, i);
      }
    }
  }

  /** A submission already made, seen from the next one. */
  lemma SubmittedAfter(body: string, s: State, i: nat)
    requires Safe(body, s) && !s.saving && s.text != s.initial && Some(s.text) != s.lastSubmitted
    requires i < |s.log|
    ensures s.log[i].outcome.Some?
    ensures i == |s.log| - 1 && s.log[i].text == s.text ==>
      s.log[i].outcome == Some(Failed) || s.log[i].outcome == Some(Threw)
  {
  }

  lemma SettleKeeps(body: string, s: State, o: Outcome)
    requires Safe(body, s) && s.saving && s.log != []
    ensures Safe(body, Settle(s, o))
  {
    var last := s.log[|s.log| - 1];
    StoredGrows(body, s.log[..|s.log| - 1], last.(outcome := Some(o)));
    assert Stored(body, s.log) == Stored(body, s.log[..|s.log| - 1]);
  }

  lemma StepKeeps(body: string, s: State, e: Event)
    requires Safe(body, s)
    ensures Safe(body, Step(s, e))
  {
    if s.shown {
      match e
      case Save => RequestKeeps(body, s);
      case Blur(_) => RequestKeeps(body, s);
      case Answer(o) => if s.saving && s.log != [] { SettleKeeps(body, s, o); }
      case _ =>
    }
  }

  lemma {:induction false} RunKeeps(body: string, s: State, events: seq<Event>)
    requires Safe(body, s)
    ensures Safe(body, Run(s, events))
    decreases |events|
  {
    if events != [] {
      StepKeeps(body, s, events[0]);
      RunKeeps(body, Step(s, events[0]), events[1..]);
    }
  }

  /** In every run of a form: one save in flight at most, no text submitted twice in a row unless the
      first failed or threw, and never a form closed over a save in flight. */
  lemma RunSafe(body: string, events: seq<Event>)
    ensures var s := Run(Opened(body), events);
      && OneInFlight(s.log)
      && RepeatsOnlyFailures(s.log)
      && (!s.shown ==> forall i :: 0 <= i < |s.log| ==> s.log[i].outcome.Some?)
  {
    RunKeeps(body, Opened(body), events);
  }

  /** When a save request submits, told by the history alone. */
  lemma SubmitsExactly(body: string, events: seq<Event>)
    ensures var s := Run(Opened(body), events); var r := Step(s, Save); var latest := Latest(s.log);
      (r.log == s.log + [Submission(s.text, None)] <==>
        && s.shown
        && s.text != Stored(body, s.log)
        && !(latest.Some? && latest.value.outcome.None?)
        && latest != Some(Submission(s.text, Some(Pending))))
    ensures var s := Run(Opened(body), events); var r := Step(s, Save);
      r.log == s.log || r.log == s.log + [Submission(s.text, None)]
  {
    RunKeeps(body, Opened(body), events);
    var s := Run(Opened(body), events);
    assert |s.log + [Submission(s.text, None)]| == |s.log| + 1;
  }

  /** The latest submission has no outcome yet. */
  predicate InFlight(log: seq<Submission>) {
    log != [] && log[|log| - 1].outcome == None
  }

  /** A click on the save button, or the focus leaving the form. */
  predicate Asks(e: Event) {
    e == Save || e == Blur(false)
  }

  /** In every run an event submits the text exactly when it asks for a save, the form is open, nothing is in flight,
      and the text is neither the stored one nor the one that waits for approval. */
  lemma EventSubmitsExactly(body: string, events: seq<Event>, e: Event)
    ensures var s := Run(Opened(body), events); var r := Step(s, e);
      |r.log| > |s.log| <==>
        && s.shown && Asks(e) && !InFlight(s.log) && s.text != Stored(body, s.log)
        && Latest(s.log) != Some(Submission(s.text, Some(Pending)))
    ensures var s := Run(Opened(body), events); var r := Step(s, e);
      |r.log| > |s.log| ==> r.log == s.log + [Submission(s.text, None)] && r.shown
  {
    RunKeeps(body, Opened(body), events);
  }

  /** In every run an event closes the open form exactly in these cases: the text is given up while nothing is in
      flight, a save is asked for of a text that is stored, or the save in flight succeeds. */
  lemma EventClosesExactly(body: string, events: seq<Event>, e: Event)
    ensures var s := Run(Opened(body), events); var r := Step(s, e);
      s.shown && !r.shown <==>
        && s.shown
        && if InFlight(s.log) then e == Answer(Done)
           else e in {Escape, Cancel} || (Asks(e) && s.text == Stored(body, s.log))
    ensures !Run(Opened(body), events).shown ==> Step(Run(Opened(body), events), e) == Run(Opened(body), events)
  {
    RunKeeps(body, Opened(body), events);
  }

  /** In every run the text is what was typed last, and an answer goes to the submission in flight. */
  lemma EventRecords(body: string, events: seq<Event>, e: Event)
    ensures var s := Run(Opened(body), events); var r := Step(s, e);
      && r.text == (if e.Edit? && s.shown then e.text else s.text)
      && (e.Answer? && InFlight(s.log) ==>
          |r.log| == |s.log| && r.log[..|s.log| - 1] == s.log[..|s.log| - 1] &&
          r.log[|s.log| - 1] == Submission(s.log[|s.log| - 1].text, Some(e.outcome)))
      && (e.Answer? && !InFlight(s.log) ==> r.log == s.log)
  {
    RunKeeps(body, Opened(body), events);
  }

  /** In every run the status that is shown is that of the latest submission. */
  lemma StatusExactly(body: string, events: seq<Event>)
    ensures var s := Run(Opened(body), events);
      if s.log == [] then s.status == Editing
      else
        var outcome := s.log[|s.log| - 1].outcome;
        && (s.status == Saving <==> outcome == None)
        && (s.status == Saved <==> outcome == Some(Done))
        && (s.status == Waiting <==> outcome == Some(Pending))
        && (s.status == Error <==> outcome in {Some(Failed), Some(Threw)})
  {
    RunKeeps(body, Opened(body), events);
  }

  // ---- closing the form

  /** Text the form holds when it closes but that was never stored. */
  predicate Unsaved(body: string, s: State) {
    s.text != Stored(body, s.log)
  }

  /** A save request closes the form only when nothing is unsaved. */
  lemma RequestClosesSaved(body: string, events: seq<Event>)
    ensures var s := Run(Opened(body), events); var r := Step(s, Save);
      s.shown && !r.shown ==> !Unsaved(body, r)
  {
    RunKeeps(body, Opened(body), events);
  }

  /** A successful answer closes the form, and loses text exactly when it was edited in flight. */
  lemma AnswerLosesEdits(body: string, events: seq<Event>)
    ensures var s := Run(Opened(body), events);
      s.saving ==>
        && s.log != []
        && !Step(s, Answer(Done)).shown
        && (Unsaved(body, Step(s, Answer(Done))) <==> s.text != s.log[|s.log| - 1].text)
  {
    RunKeeps(body, Opened(body), events);
    var s := Run(Opened(body), events);
    if s.saving {
      var last := s.log[|s.log| - 1];
      StoredGrows(body, s.log[..|s.log| - 1], last.(outcome := Some(Done)));
    }
  }

  /** Typing while the save is in flight: the last text typed is gone when the save succeeds. */
  lemma TypedInFlightLost(body: string, first: string, second: string)
    requires first != body && second != first
    ensures var s := Run(Opened(body), [Edit(first), Save, Edit(second), Answer(Done)]);
      !s.shown && s.text == second && Stored(body, s.log) == first
  {
    var s0 := Opened(body);
    var s1 := Step(s0, Edit(first));
    var s2 := Step(s1, Save);
    var s3 := Step(s2, Edit(second));
    assert s2.log == [Submission(first, None)];
    assert Answered(s3.log, Done) == [Submission(first, Some(Done))];
    RunFour(s0, Edit(first), Save, Edit(second), Answer(Done));
  }

  lemma RunFour(s: State, a: Event, b: Event, c: Event, d: Event)
    ensures Run(s, [a, b, c, d]) == Step(Step(Step(Step(s, a), b), c), d)
  {
    assert [a, b, c, d][1..] == [b, c, d];
    assert [b, c, d][1..] == [c, d];
    assert [c, d][1..] == [d];
    assert [d][1..] == [];
    var t := Step(Step(s, a), b);
    assert Run(s, [a, b, c, d]) == Run(Step(s, a), [b, c, d]) == Run(t, [c, d]);
    assert Run(t, [c, d]) == Run(Step(t, c), [d]) == Run(Step(Step(t, c), d), []);
  }
}
