/** The form that edits a document body, as an object whose save is split at its one wait. */
module BodyEditor {
  import opened Options
  import opened BodySave

  class BodyEditorForm {
    var text: string
    var initialJson: string
    var lastSubmittedJson: Option<string>
    var savingRef: bool
    var status: Status
    var shown: bool
    ghost var log: seq<Submission>

    ghost function Now(): State
      reads this
    {
      State(text, initialJson, lastSubmittedJson, savingRef, status, shown, log)
    }

    /** What `Complete` needs: the submission in flight is the text last submitted. */
    ghost predicate InFlight()
      reads this
    {
      && shown && savingRef && log != []
      && lastSubmittedJson == Some(log[|log| - 1].text)
    }

    constructor (body: string)
      ensures Now() == Opened(body)
    {
      text, initialJson, lastSubmittedJson := body, body, None;
      savingRef, status, shown, log := false, Editing, true, [];
    }

    method EditText(typed: string)
      requires shown
      modifies this`text
      ensures Now() == Step(old(Now()), Edit(typed))
    {
      text := typed;
    }

    /** The part of `save` before it waits; `json` is what is submitted, if anything. */
    method RequestSave() returns (submitted: bool, json: string)
      requires shown
      modifies this
      ensures Now() == Step(old(Now()), Save)
      ensures submitted <==> old(!savingRef && ShouldSubmit(text, initialJson, lastSubmittedJson))
      ensures submitted ==> InFlight() && json == old(text) && log == old(log) + [Submission(json, None)]
      ensures !submitted ==> log == old(log)
    {
      submitted, json := false, text;
      if savingRef {
        return;
      }
      if json == initialJson {
        shown := false;
        return;
      }
      if !ShouldSubmit(json, initialJson, lastSubmittedJson) {
        return;
      }
      lastSubmittedJson := Some(json);
      savingRef := true;
      status := Saving;
      log := log + [Submission(json, None)];
      submitted := true;
    }

    /** The part of `save` after it waits: `json` is the text it submitted. */
    method Complete(json: string, outcome: Outcome)
      requires InFlight() && log[|log| - 1].text == json
      modifies this
      ensures Now() == Step(old(Now()), Answer(outcome))
      ensures !savingRef
    {
      log := Answered(log, outcome);
      match outcome {
        case Failed =>
          status := Error;
          lastSubmittedJson := None;
        case Pending =>
          status := Waiting;
        case Done =>
          initialJson := json;
          lastSubmittedJson := None;
          status := Saved;
          shown := false;
        case Threw =>
          lastSubmittedJson := None;
          status := Error;
      }
      savingRef := false;
    }

    method LoseFocus(inside: bool) returns (submitted: bool, json: string)
      requires shown
      modifies this
      ensures Now() == Step(old(Now()), Blur(inside))
      ensures submitted ==> InFlight() && json == old(text)
    {
      submitted, json := false, text;
      if !savingRef && !inside {
        submitted, json := RequestSave();
      }
    }

    method PressEscape()
      requires shown
      modifies this`shown
      ensures Now() == Step(old(Now()), Escape)
    {
      if !savingRef {
        shown := false;
      }
    }
  }
}
