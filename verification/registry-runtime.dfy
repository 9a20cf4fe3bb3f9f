/** The runtime that keeps the registry up to date in place; each method is one step of the model. */
module RegistryRuntime {
  import opened Options
  import opened R = Registry

  class Runtime {
    var entries: map<string, Entry>
    var pageStreaming: bool
    var started: seq<string>
    var pending: set<string>
    var running: set<Evaluation>

    ghost function Now(): State
      reads this
    {
      State(entries, pageStreaming, started, pending, running)
    }

    constructor ()
      ensures Now() == INITIAL
    {
      entries, pageStreaming := map[], false;
      started, pending, running := [], {}, {};
    }

    /** The entry of a name, created on first use. */
    method Entry(name: string) returns (e: R.Entry)
      modifies this`entries
      ensures Now() == Put(old(Now()), name, Get(old(Now()), name))
      ensures e == Get(old(Now()), name) && name in entries && entries[name] == e
    {
      if name !in entries {
        entries := entries[name := FRESH];
      }
      e := entries[name];
    }

    method BumpVersion(name: string)
      modifies this`entries
      ensures Now() == Bump(old(Now()), name)
    {
      var e := Entry(name);
      entries := entries[name := e.(ver := e.ver + 1)];
    }

    method UpdateTemplate(name: string, html: string)
      modifies this`entries
      ensures Now() == UpdateHtml(old(Now()), name, html)
    {
      var e := Entry(name);
      entries := entries[name := e.(html := html)];
      BumpVersion(name);
    }

    /** Starts an evaluation; the code it runs may call back into the runtime before it ends. */
    method StartLogic(name: string, fromFetch: bool) returns (run: Evaluation)
      modifies this`entries, this`running
      ensures Now() == UpdateJs(old(Now()), name, fromFetch)
      ensures run == Evaluation(name, Get(old(Now()), name).jsSeq + 1, fromFetch)
    {
      var e := Entry(name);
      var n := e.jsSeq + 1;
      entries := entries[name := e.(jsSeq := n)];
      run := Evaluation(name, n, fromFetch);
      running := running + {run};
    }

    method EndLogic(run: Evaluation, outcome: Outcome)
      requires run in running
      modifies this`entries, this`running
      ensures Now() == Step(old(Now()), EvalDone(run, outcome))
    {
      running := running - {run};
      if run.name !in entries || entries[run.name].jsSeq != run.number {
        return;
      }
      var e := entries[run.name];
      match outcome {
        case Class(cls) => e := e.(logicError := None, logic := Some(cls));
        case NotAClass(message) => e := e.(logicError := Some(message));
        case Throws(message) => e := e.(logicError := Some(message));
      }
      entries := entries[run.name := e];
      BumpVersion(run.name);
    }

    /** Whether some entry streams, found by looking through them. */
    method AnyStreams() returns (any: bool)
      ensures any <==> SomeStreams(entries)
    {
      var rest := entries.Keys;
      while rest != {}
        invariant rest <= entries.Keys
        invariant forall n :: n in entries && n !in rest ==> !Streams(entries[n])
        decreases |rest|
      {
        var n :| n in rest;
        if Streams(entries[n]) {
          return true;
        }
        rest := rest - {n};
      }
      return false;
    }

    /** Sets one flag and recomputes the page flag. */
    method SetFlag(name: string, kind: Kind, on: bool)
      modifies this`entries, this`pageStreaming
      ensures Now() == SetStreaming(old(Now()), name, kind, on)
    {
      var e := Entry(name);
      e := if kind.Html? then e.(htmlStreaming := on) else e.(jsStreaming := on);
      entries := entries[name := e];
      assert entries == Put(old(Now()), name, e).entries;
      pageStreaming := AnyStreams();
      BumpVersion(name);
    }

    /** Issues the sibling fetch of a name, unless it was fetched or claimed before. */
    method EnsureFetchedOnce(name: string)
      modifies this`entries, this`started, this`pending
      ensures Now() == Step(old(Now()), EnsureFetched(name))
    {
      var e := Entry(name);
      if e.fetched {
        return;
      }
      entries := entries[name := e.(fetched := true)];
      started, pending := started + [name], pending + {name};
    }

    /** A sibling fetch completes, with `None` for a failure or a text that is no component. */
    method FetchCompleted(name: string, parsed: Option<Parsed>)
      requires name in pending
      modifies this`entries, this`pending, this`running
      ensures Now() == Step(old(Now()), FetchDone(name, parsed))
    {
      pending := pending - {name};
      if parsed.None? {
        return;
      }
      var p := parsed.value;
      var e := AdoptMetadata(name, p);
      if p.template != "" && e.html == "" {
        UpdateTemplate(name, p.template);
      }
      e := entries[name];
      if p.js != "" && e.logic.None? {
        var _ := StartLogic(name, true);
      }
    }

    method AdoptMetadata(name: string, p: Parsed) returns (e: R.Entry)
      modifies this`entries
      ensures Now() == AdoptMeta(old(Now()), name, p)
      ensures name in entries && e == entries[name]
    {
      e := Entry(name);
      if p.props != "" {
        e := e.(props := p.props);
      }
      if p.preview != "" {
        e := e.(preview := p.preview);
      }
      entries := entries[name := e];
    }

    /** A streaming push claims the name. */
    method ClaimName(name: string, streaming: bool)
      modifies this`entries
      ensures Now() == Claim(old(Now()), name, streaming)
    {
      if streaming {
        var e := Entry(name);
        entries := entries[name := e.(fetched := true)];
      }
    }

    /** A pushed script; while it streams, it is not evaluated. */
    method UpdateScript(name: string, streaming: bool)
      modifies this`entries, this`pageStreaming, this`running
      ensures Now() == PushJs(old(Now()), name, streaming)
    {
      ClaimName(name, streaming);
      SetFlag(name, Js, streaming);
      if !streaming {
        var _ := StartLogic(name, false);
      }
    }

    method UpdateProps(name: string, content: string, preview: string, streaming: bool)
      modifies this`entries
      ensures Now() == PushProps(old(Now()), name, content, preview, streaming)
    {
      ClaimName(name, streaming);
      var e := Entry(name);
      entries := entries[name := e.(props := content, preview := preview)];
      BumpVersion(name);
    }

    /** A pushed update. */
    method Update(name: string, kind: Kind, content: string, preview: string, streaming: bool)
      modifies this
      ensures Now() == Step(old(Now()), Push(name, kind, content, preview, streaming))
    {
      match kind {
        case Html =>
          ClaimName(name, streaming);
          SetFlag(name, Html, streaming);
          UpdateTemplate(name, content);
        case Js => UpdateScript(name, streaming);
        case Props => UpdateProps(name, content, preview, streaming);
      }
    }

    /** Takes over a parsed file without looking at what is there. */
    method AdoptFile(name: string, p: Parsed)
      modifies this`entries, this`running
      ensures Now() == Step(old(Now()), Adopt(name, p))
    {
      var _ := AdoptMetadata(name, p);
      if p.template != "" {
        UpdateTemplate(name, p.template);
      }
      if p.js != "" {
        var _ := StartLogic(name, false);
      }
    }
  }
}
