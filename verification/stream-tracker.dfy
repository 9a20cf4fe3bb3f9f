/** Which components are receiving a stream: lazy expiry against the full history of pushes. */
module StreamTracking {

  datatype PushEvent = PushEvent(name: string, streaming: bool, viewportKey: string, at: int)

  /** Pushes with this viewport key are ignored. */
  const MODEL_VIEWPORT := "dc-model"

  predicate Relevant(p: PushEvent, name: string) {
    p.name == name && p.viewportKey != MODEL_VIEWPORT
  }

  datatype Last = Never | Stopped | Since(at: int)

  /** What the latest relevant push in the history said about a name. */
  ghost function LastPush(history: seq<PushEvent>, name: string): Last {
    if history == [] then Never
    else
      var p := history[|history| - 1];
      if Relevant(p, name) then (if p.streaming then Since(p.at) else Stopped)
      else LastPush(history[..|history| - 1], name)
  }

  /** A name is live while its latest relevant push was streaming and is not too old. */
  ghost predicate Live(history: seq<PushEvent>, name: string, staleMs: int, now: int) {
    var last := LastPush(history, name);
    last.Since? && now - last.at <= staleMs
  }

  ghost predicate SomeLive(history: seq<PushEvent>, staleMs: int, now: int) {
    exists name :: Live(history, name, staleMs, now)
  }

  /** The push at this place is the last one for the name that is not tagged as one of the model. */
  ghost predicate LastAt(history: seq<PushEvent>, name: string, i: int) {
    && 0 <= i < |history| && history[i].name == name && history[i].viewportKey != "dc-model"
    && forall j :: i < j < |history| ==> history[j].name != name || history[j].viewportKey == "dc-model"
  }

  ghost predicate ToldBy(history: seq<PushEvent>, name: string, i: int, last: Last) {
    LastAt(history, name, i) && last == if history[i].streaming then Since(history[i].at) else Stopped
  }

  /** The latest relevant push really is in the history, and none comes after it. */
  lemma {:induction false} LastPushIsLatest(history: seq<PushEvent>, name: string)
    ensures LastPush(history, name).Never? <==>
      forall i :: 0 <= i < |history| ==> history[i].name != name || history[i].viewportKey == "dc-model"
    ensures !LastPush(history, name).Never? ==> exists i :: ToldBy(history, name, i, LastPush(history, name))
  {
    if history != [] {
      var n := |history| - 1;
      var earlier := history[..n];
      LastPushIsLatest(earlier, name);
      if Relevant(history[n], name) {
        assert ToldBy(history, name, n, LastPush(history, name));
      } else if !LastPush(earlier, name).Never? {
        var i :| ToldBy(earlier, name, i, LastPush(earlier, name));
        assert ToldBy(history, name, i, LastPush(history, name));
      } else {
        assert forall i :: 0 <= i < n ==> history[i] == earlier[i];
      }
    }
  }

  /** While nothing is pushed, a live name can only stop being live. */
  lemma LiveOnlyFades(history: seq<PushEvent>, name: string, staleMs: int, earlier: int, later: int)
    requires earlier <= later && Live(history, name, staleMs, later)
    ensures Live(history, name, staleMs, earlier)
  {
  }

  class StreamTracker {
    const staleMs: int
    var since: map<string, int>
    ghost var history: seq<PushEvent>
    ghost var clock: int

    constructor (staleMs: int := 60000, ghost start: int)
      ensures Valid() && history == [] && clock == start && this.staleMs == staleMs
    {
      this.staleMs := staleMs;
      since := map[];
      history := [];
      clock := start;
    }

    /** A stored time is the latest push; a streaming name that is not stored has expired. */
    ghost predicate Valid()
      reads this
    {
      forall name ::
        && (name in since ==> LastPush(history, name) == Since(since[name]))
        && (name !in since ==> !Live(history, name, staleMs, clock))
    }

    /** Records a push at clock reading `now`. */
    method Push(name: string, streaming: bool, viewportKey: string, now: int)
      requires Valid() && clock <= now
      modifies this
      ensures Valid() && clock == now
      ensures history == old(history) + [PushEvent(name, streaming, viewportKey, now)]
    {
      ghost var before := history;
      history := history + [PushEvent(name, streaming, viewportKey, now)];
      assert history[..|before|] == before;
      clock := now;
      if viewportKey == MODEL_VIEWPORT {
        return;
      }
      if streaming {
        since := since[name := now];
      } else {
        since := since - {name};
      }
    }

    /** Reads one name and forgets it when it has gone stale. */
    method LiveOne(name: string, now: int) returns (live: bool)
      requires Valid() && clock <= now
      modifies this
      ensures Valid() && clock == now && history == old(history)
      ensures live <==> Live(history, name, staleMs, now)
      ensures since.Keys == if live then old(since.Keys) else old(since.Keys) - {name}
    {
      clock := now;
      if name !in since {
        return false;
      }
      if now - since[name] > staleMs {
        since := since - {name};
        return false;
      }
      return true;
    }

    /** Reads all names; `ticks` are the clock readings of the loop, one for each stored name. */
    method LiveAny(ticks: seq<int>) returns (live: bool)
      requires Valid() && |ticks| >= |since|
      requires forall i, j :: 0 <= i <= j < |ticks| ==> clock <= ticks[i] <= ticks[j]
      modifies this
      ensures Valid() && history == old(history)
      ensures old(clock) <= clock && (clock == old(clock) || clock in ticks)
      ensures live ==> clock in ticks && SomeLive(history, staleMs, clock)
      ensures live ==> SomeLive(history, staleMs, old(clock))
      // with one reading for the whole call the answer is exact
      ensures ticks != [] && ticks[0] == ticks[|ticks| - 1] ==> (live <==> SomeLive(history, staleMs, ticks[0]))
      ensures !live ==> forall t :: clock <= t ==> !SomeLive(history, staleMs, t)
    {
      var names := since.Keys;
      var k := 0;
      while names != {}
        invariant Valid() && history == old(history)
        invariant names <= since.Keys && k + |names| <= |ticks|
        invariant old(clock) <= clock && (clock == old(clock) || clock in ticks)
        invariant forall i :: k <= i < |ticks| ==> clock <= ticks[i]
        invariant forall name :: name !in names ==> !Live(history, name, staleMs, clock)
        decreases |names|
      {
        var name :| name in names;
        var one := LiveOne(name, ticks[k]);
        if one {
          assert Live(history, name, staleMs, old(clock));
          return true;
        }
        names := names - {name};
        k := k + 1;
      }
      forall t, name | clock <= t
        ensures !Live(history, name, staleMs, t)
      {
        assert !Live(history, name, staleMs, clock);
      }
      return false;
    }
  }
}
