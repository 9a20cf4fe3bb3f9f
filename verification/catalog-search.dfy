/** Searching the catalog tree in memory: what is kept, what is expanded, and what survives. */
module CatalogSearch {
  import opened Options
  import opened Text
  import opened Sorting
  import opened CatalogTree

  /** A normalised query; `lower` stands for the locale's lower-casing. */
  datatype Query = Query(lower: string -> string, text: string)

  function Normalize(lower: string -> string, s: string): string {
    lower(Trim(s))
  }

  predicate Contains(hay: string, needle: string) {
    needle <= hay || (hay != "" && Contains(hay[1..], needle))
  }

  function Terms(n: Node): seq<string> {
    if n.searchTerms.Some? then n.searchTerms.value else [n.title]
  }

  predicate TermsMatch(q: Query, terms: seq<string>) {
    terms != [] && (Contains(Normalize(q.lower, terms[0]), q.text) || TermsMatch(q, terms[1..]))
  }

  /** Some search term, or the title where there are no terms, contains the query. */
  predicate Matches(q: Query, n: Node) {
    TermsMatch(q, Terms(n))
  }

  predicate IsUnloadedLibrary(n: Node) {
    n.kind == LibraryNode && n.loadStatus != Some(Loaded)
  }

  function KeptRecord(q: Query, n: Node): seq<Node> {
    if n.kind == RecordNode && Matches(q, n) then [n] else []
  }

  function MatchingRecords(q: Query, nodes: seq<Node>): seq<Node> {
    if nodes == [] then [] else KeptRecord(q, nodes[0]) + MatchingRecords(q, nodes[1..])
  }

  function KeptAction(n: Node): seq<Node> {
    if n.kind == ActionNode then [n] else []
  }

  function Actions(nodes: seq<Node>): seq<Node> {
    if nodes == [] then [] else KeptAction(nodes[0]) + Actions(nodes[1..])
  }

  /** What is left of a node: all of it when it matches, what matches below it otherwise. */
  function Visit(q: Query, n: Node): Option<Node>
    decreases n, 0
  {
    if n.kind == DirectoryNode then
      if Matches(q, n) then Some(n)
      else
        var kept := VisitAll(q, n.children);
        if kept == [] then None else Some(n.(children := kept))
    else if n.kind == LibraryNode then
      if Matches(q, n) then Some(n)
      else if n.loadStatus != Some(Loaded) then None
      else
        var records := MatchingRecords(q, n.children);
        if records == [] then None else Some(n.(children := records + Actions(n.children)))
    else if Matches(q, n) then Some(n) else None
  }

  function VisitAll(q: Query, nodes: seq<Node>): seq<Node>
    decreases nodes, 1
  {
    if nodes == [] then []
    else (match Visit(q, nodes[0]) case Some(n) => [n] case None => []) + VisitAll(q, nodes[1..])
  }

  /** The keys that visiting a node expands. */
  function Opened(q: Query, n: Node): set<Key>
    decreases n, 0
  {
    if Visit(q, n).None? || (n.kind != DirectoryNode && n.kind != LibraryNode) then {}
    else if n.kind == DirectoryNode && !Matches(q, n) then {n.key} + OpenedAll(q, n.children)
    else {n.key}
  }

  function OpenedAll(q: Query, nodes: seq<Node>): set<Key>
    decreases nodes, 1
  {
    if nodes == [] then {} else Opened(q, nodes[0]) + OpenedAll(q, nodes[1..])
  }

  /** A directory, a library or a record of a loaded library matched. */
  predicate MatchedLoaded(q: Query, n: Node)
    decreases n, 0
  {
    if n.kind == DirectoryNode then Matches(q, n) || MatchedLoadedAll(q, n.children)
    else n.kind == LibraryNode && Visit(q, n).Some?
  }

  predicate MatchedLoadedAll(q: Query, nodes: seq<Node>)
    decreases nodes, 1
  {
    nodes != [] && (MatchedLoaded(q, nodes[0]) || MatchedLoadedAll(q, nodes[1..]))
  }

  predicate ContainsUnloaded(nodes: seq<Node>) {
    nodes != [] &&
    (IsUnloadedLibrary(nodes[0]) || ContainsUnloaded(nodes[0].children) || ContainsUnloaded(nodes[1..]))
  }

  /** The libraries not loaded yet, with the directories above them. */
  function Retain(nodes: seq<Node>): seq<Node> {
    if nodes == [] then []
    else
      var n := nodes[0];
      var below := Retain(n.children);
      (if IsUnloadedLibrary(n) then [n]
       else if n.kind == DirectoryNode && below != [] then [n.(children := below)]
       else [])
      + Retain(nodes[1..])
  }

  function Retained(nodes: seq<Node>): set<Key> {
    if nodes == [] then {}
    else
      var n := nodes[0];
      (if IsUnloadedLibrary(n) then {n.key}
       else if n.kind == DirectoryNode && Retain(n.children) != [] then {n.key} + Retained(n.children)
       else {})
      + Retained(nodes[1..])
  }

  datatype SearchResult = SearchResult(
    nodes: seq<Node>, query: string, expanded: set<Key>, hasLoadedMatch: bool, hasUnloadedLibraries: bool)

  function Filter(lower: string -> string, nodes: seq<Node>, search: string): SearchResult {
    var q := Query(lower, Normalize(lower, search));
    if q.text == "" then SearchResult(nodes, q.text, {}, false, false)
    else
      var matching := VisitAll(q, nodes);
      var unloaded := ContainsUnloaded(nodes);
      var fallBack := matching == [] && unloaded;
      SearchResult(if fallBack then Retain(nodes) else matching, q.text,
                   OpenedAll(q, nodes) + (if fallBack then Retained(nodes) else {}),
                   MatchedLoadedAll(q, nodes), unloaded)
  }

  // ---- idempotence

  lemma {:induction false} FiltersConcat(q: Query, a: seq<Node>, b: seq<Node>)
    ensures MatchingRecords(q, a + b) == MatchingRecords(q, a) + MatchingRecords(q, b)
    ensures Actions(a + b) == Actions(a) + Actions(b)
  {
    if a == [] {
      assert a + b == b;
    } else {
      assert (a + b)[1..] == a[1..] + b && (a + b)[0] == a[0];
      FiltersConcat(q, a[1..], b);
      Regroup(KeptRecord(q, a[0]), MatchingRecords(q, a[1..]), MatchingRecords(q, b));
      Regroup(KeptAction(a[0]), Actions(a[1..]), Actions(b));
    }
  }

  /** Each filter keeps what it kept, and nothing of what the other kept. */
  lemma {:induction false} FiltersTwice(q: Query, nodes: seq<Node>)
    ensures MatchingRecords(q, MatchingRecords(q, nodes)) == MatchingRecords(q, nodes)
    ensures MatchingRecords(q, Actions(nodes)) == []
    ensures Actions(MatchingRecords(q, nodes)) == []
    ensures Actions(Actions(nodes)) == Actions(nodes)
  {
    if nodes != [] {
      FiltersTwice(q, nodes[1..]);
      var record, action := KeptRecord(q, nodes[0]), KeptAction(nodes[0]);
      FiltersConcat(q, record, MatchingRecords(q, nodes[1..]));
      FiltersConcat(q, action, Actions(nodes[1..]));
      OneFiltered(q, nodes[0]);
    }
  }

  lemma OneFiltered(q: Query, n: Node)
    ensures MatchingRecords(q, KeptRecord(q, n)) == KeptRecord(q, n) && Actions(KeptRecord(q, n)) == []
    ensures MatchingRecords(q, KeptAction(n)) == [] && Actions(KeptAction(n)) == KeptAction(n)
  {
    assert [n][1..] == [];
  }

  lemma SameMatch(q: Query, n: Node, children: seq<Node>)
    ensures Matches(q, n.(children := children)) <==> Matches(q, n)
  {
    assert Terms(n.(children := children)) == Terms(n);
  }

  lemma LibraryTwice(q: Query, n: Node)
    requires n.kind == LibraryNode && !Matches(q, n) && Visit(q, n).Some?
    ensures Visit(q, Visit(q, n).value) == Visit(q, n)
  {
    var records, actions := MatchingRecords(q, n.children), Actions(n.children);
    FiltersTwice(q, n.children);
    FiltersConcat(q, records, actions);
    SameMatch(q, n, records + actions);
    assert records + [] == records && [] + actions == actions;
  }

  lemma {:induction false} VisitTwice(q: Query, n: Node)
    requires Visit(q, n).Some?
    ensures Visit(q, Visit(q, n).value) == Visit(q, n)
    decreases n, 0
  {
    if !Matches(q, n) {
      if n.kind == DirectoryNode {
        VisitAllTwice(q, n.children);
        SameMatch(q, n, VisitAll(q, n.children));
      } else {
        LibraryTwice(q, n);
      }
    }
  }

  lemma {:induction false} VisitAllTwice(q: Query, nodes: seq<Node>)
    ensures VisitAll(q, VisitAll(q, nodes)) == VisitAll(q, nodes)
    decreases nodes, 1
  {
    if nodes != [] {
      VisitAllTwice(q, nodes[1..]);
      var later := VisitAll(q, nodes[1..]);
      match Visit(q, nodes[0])
      case Some(n) =>
        VisitTwice(q, nodes[0]);
        assert VisitAll(q, nodes)[1..] == later;
      case None =>
        assert VisitAll(q, nodes) == later;
    }
  }

  lemma {:induction false} RetainTwice(nodes: seq<Node>)
    ensures Retain(Retain(nodes)) == Retain(nodes)
    ensures Retain(nodes) != [] <==> ContainsUnloaded(Retain(nodes))
    decreases nodes
  {
    if nodes != [] {
      var n, later := nodes[0], Retain(nodes[1..]);
      RetainTwice(n.children);
      RetainTwice(nodes[1..]);
      if IsUnloadedLibrary(n) || (n.kind == DirectoryNode && Retain(n.children) != []) {
        assert Retain(nodes)[1..] == later;
      } else {
        assert Retain(nodes) == later;
      }
    }
  }

  /** Where nothing matches, nothing matches in what is retained. */
  lemma {:induction false} RetainedUnmatched(q: Query, nodes: seq<Node>)
    requires VisitAll(q, nodes) == []
    ensures VisitAll(q, Retain(nodes)) == []
    decreases nodes
  {
    if nodes != [] {
      var n, later := nodes[0], Retain(nodes[1..]);
      assert Visit(q, n).None? && VisitAll(q, nodes[1..]) == [];
      RetainedUnmatched(q, nodes[1..]);
      if IsUnloadedLibrary(n) {
        assert Retain(nodes)[1..] == later;
      } else if n.kind == DirectoryNode && Retain(n.children) != [] {
        RetainedUnmatched(q, n.children);
        assert Terms(Retain(nodes)[0]) == Terms(n);
        assert Retain(nodes)[1..] == later;
      } else {
        assert Retain(nodes) == later;
      }
    }
  }

  /** Filtering the filtered nodes again with the same search changes nothing. */
  lemma FilterTwice(lower: string -> string, nodes: seq<Node>, search: string)
    ensures var once := Filter(lower, nodes, search).nodes;
      Filter(lower, once, search).nodes == once
  {
    var q := Query(lower, Normalize(lower, search));
    var matching := VisitAll(q, nodes);
    VisitAllTwice(q, nodes);
    if q.text != "" && matching == [] && ContainsUnloaded(nodes) {
      RetainedUnmatched(q, nodes);
      RetainTwice(nodes);
    }
  }

  // ---- expanded keys

  lemma {:induction false} ContainsConcat(a: seq<Node>, b: seq<Node>, key: Key)
    ensures ContainsKey(a + b, key) <==> ContainsKey(a, key) || ContainsKey(b, key)
  {
    if a == [] {
      assert a + b == b;
    } else {
      assert (a + b)[1..] == a[1..] + b && (a + b)[0] == a[0];
      ContainsConcat(a[1..], b, key);
    }
  }

  lemma {:induction false} OpenedInVisited(q: Query, n: Node)
    ensures Visit(q, n).None? ==> Opened(q, n) == {}
    ensures forall key :: key in Opened(q, n) ==> Visit(q, n).Some? && ContainsKey([Visit(q, n).value], key)
    decreases n, 0
  {
    if n.kind == DirectoryNode && !Matches(q, n) {
      OpenedInAll(q, n.children);
    }
  }

  lemma {:induction false} OpenedInAll(q: Query, nodes: seq<Node>)
    ensures forall key :: key in OpenedAll(q, nodes) ==> ContainsKey(VisitAll(q, nodes), key)
    decreases nodes, 1
  {
    if nodes != [] {
      OpenedInVisited(q, nodes[0]);
      OpenedInAll(q, nodes[1..]);
      var later := VisitAll(q, nodes[1..]);
      match Visit(q, nodes[0])
      case Some(n) =>
        forall key
          ensures ContainsKey([n] + later, key) <==> ContainsKey([n], key) || ContainsKey(later, key)
        {
          ContainsConcat([n], later, key);
        }
      case None =>
        assert VisitAll(q, nodes) == later;
    }
  }

  lemma {:induction false} RetainedInRetain(nodes: seq<Node>)
    ensures forall key :: key in Retained(nodes) ==> ContainsKey(Retain(nodes), key)
    decreases nodes
  {
    if nodes != [] {
      var n, later := nodes[0], Retain(nodes[1..]);
      RetainedInRetain(n.children);
      RetainedInRetain(nodes[1..]);
      if IsUnloadedLibrary(n) || (n.kind == DirectoryNode && Retain(n.children) != []) {
        assert Retain(nodes)[1..] == later;
      } else {
        assert Retain(nodes) == later;
      }
    }
  }

  lemma {:induction false} NothingOpened(q: Query, nodes: seq<Node>)
    requires VisitAll(q, nodes) == []
    ensures OpenedAll(q, nodes) == {}
    decreases nodes
  {
    if nodes != [] {
      assert Visit(q, nodes[0]).None?;
      NothingOpened(q, nodes[1..]);
    }
  }

  /** Every key that is expanded automatically names a node of the result. */
  lemma ExpandedKeysExist(lower: string -> string, nodes: seq<Node>, search: string)
    ensures var r := Filter(lower, nodes, search);
      forall key :: key in r.expanded ==> ContainsKey(r.nodes, key)
  {
    var q := Query(lower, Normalize(lower, search));
    OpenedInAll(q, nodes);
    RetainedInRetain(nodes);
    if VisitAll(q, nodes) == [] {
      NothingOpened(q, nodes);
    }
  }

  // ---- what survives

  /** A node without its children: what a path is made of. */
  function Shell(n: Node): Node {
    n.(children := [])
  }

  predicate HasPath(nodes: seq<Node>, path: seq<Node>)
    requires path != []
    decreases |path|, |nodes|
  {
    nodes != [] &&
    ((Shell(nodes[0]) == path[0] && (|path| == 1 || HasPath(nodes[0].children, path[1..])))
     || HasPath(nodes[1..], path))
  }

  /** Directories down to a loaded library and one of its records. */
  predicate IsRecordPath(path: seq<Node>) {
    && |path| >= 2
    && path[|path| - 1].kind == RecordNode
    && path[|path| - 2].kind == LibraryNode && path[|path| - 2].loadStatus == Some(Loaded)
    && forall i :: 0 <= i < |path| - 2 ==> path[i].kind == DirectoryNode
  }

  predicate SomeMatch(q: Query, path: seq<Node>) {
    exists i :: 0 <= i < |path| && Matches(q, path[i])
  }

  lemma SomeMatchTail(q: Query, path: seq<Node>)
    requires path != []
    ensures SomeMatch(q, path) <==> Matches(q, path[0]) || SomeMatch(q, path[1..])
  {
    if i :| 0 <= i < |path| && Matches(q, path[i]) {
      assert i > 0 ==> path[1..][i - 1] == path[i];
    }
    if i :| 0 <= i < |path[1..]| && Matches(q, path[1..][i]) {
      assert path[i + 1] == path[1..][i];
    }
  }

  lemma {:induction false} PathConcat(a: seq<Node>, b: seq<Node>, path: seq<Node>)
    requires path != []
    ensures HasPath(a + b, path) <==> HasPath(a, path) || HasPath(b, path)
    decreases |a|
  {
    if a == [] {
      assert a + b == b;
    } else {
      assert (a + b)[1..] == a[1..] + b;
      PathConcat(a[1..], b, path);
    }
  }

  /** Among the children of a library, a record is kept exactly when it matches. */
  lemma {:induction false} RecordKept(q: Query, nodes: seq<Node>, record: Node)
    requires record.kind == RecordNode
    ensures HasPath(MatchingRecords(q, nodes), [record]) <==> HasPath(nodes, [record]) && Matches(q, record)
    ensures !HasPath(Actions(nodes), [record])
  {
    if nodes != [] {
      RecordKept(q, nodes[1..], record);
      PathConcat(KeptRecord(q, nodes[0]), MatchingRecords(q, nodes[1..]), [record]);
      PathConcat(KeptAction(nodes[0]), Actions(nodes[1..]), [record]);
      SinglePath(nodes[0], [record]);
      assert Shell(nodes[0]) == record ==> Terms(nodes[0]) == Terms(record);
    }
  }

  lemma SinglePath(n: Node, path: seq<Node>)
    requires path != []
    ensures HasPath([n], path) <==> Shell(n) == path[0] && (|path| == 1 || HasPath(n.children, path[1..]))
  {
    assert [n][1..] == [];
  }

  /** In a loaded library, the path to a record is kept exactly when the library or the record matches. */
  lemma LibraryPathKept(q: Query, n: Node, path: seq<Node>)
    requires IsRecordPath(path) && |path| == 2 && Shell(n) == path[0] && !Matches(q, n)
    ensures KeptIn(q, n, path) <==> HasPath([n], path) && Matches(q, path[1])
  {
    var records, actions := MatchingRecords(q, n.children), Actions(n.children);
    assert path[1..] == [path[1]];
    RecordKept(q, n.children, path[1]);
    PathConcat(records, actions, path[1..]);
    SinglePath(n, path);
    SinglePath(n.(children := records + actions), path);
  }

  /** In an unmatched directory, the path is kept exactly when the rest of it is kept below. */
  lemma DirectoryPathKept(q: Query, n: Node, path: seq<Node>)
    requires IsRecordPath(path) && |path| > 2 && Shell(n) == path[0] && !Matches(q, n)
    ensures KeptIn(q, n, path) <==> HasPath(VisitAll(q, n.children), path[1..])
  {
    SinglePath(n.(children := VisitAll(q, n.children)), path);
  }

  /** A matching directory or library is kept with all its paths. */
  lemma MatchedPathKept(q: Query, n: Node, path: seq<Node>)
    requires IsRecordPath(path) && Shell(n) == path[0] && Matches(q, n)
    ensures Visit(q, n) == Some(n)
  {
    assert n.kind == path[0].kind;
    assert |path| > 2 ==> path[0].kind == DirectoryNode;
  }

  lemma TailOfPath(path: seq<Node>)
    requires IsRecordPath(path) && |path| > 2
    ensures IsRecordPath(path[1..])
  {
  }

  /** The path through a node is kept in what visiting leaves of it. */
  predicate KeptIn(q: Query, n: Node, path: seq<Node>)
    requires path != []
  {
    Visit(q, n).Some? && HasPath([Visit(q, n).value], path)
  }

  /** In one visited node, a record path is kept exactly when some node on it matches. */
  lemma {:induction false} NodePathKept(q: Query, n: Node, path: seq<Node>)
    requires IsRecordPath(path)
    ensures KeptIn(q, n, path) <==> HasPath([n], path) && SomeMatch(q, path)
    decreases |path|, 0
  {
    SinglePath(n, path);
    if Shell(n) != path[0] {
      OtherShell(q, n, path);
    } else {
      SomeMatchTail(q, path);
      assert Terms(n) == Terms(path[0]);
      if Matches(q, n) {
        MatchedPathKept(q, n, path);
      } else if |path| > 2 {
        TailOfPath(path);
        PathKept(q, n.children, path[1..]);
        DirectoryPathKept(q, n, path);
      } else {
        LibraryPathKept(q, n, path);
        SomeMatchTail(q, path[1..]);
      }
    }
  }

  /** Visiting keeps the shell of a node. */
  lemma OtherShell(q: Query, n: Node, path: seq<Node>)
    requires path != [] && Shell(n) != path[0]
    ensures !KeptIn(q, n, path)
  {
    if Visit(q, n).Some? {
      SinglePath(Visit(q, n).value, path);
    }
  }

  lemma {:induction false} PathKept(q: Query, nodes: seq<Node>, path: seq<Node>)
    requires IsRecordPath(path)
    ensures HasPath(VisitAll(q, nodes), path) <==> HasPath(nodes, path) && SomeMatch(q, path)
    decreases |path|, 1 + |nodes|
  {
    if nodes != [] {
      PathKept(q, nodes[1..], path);
      NodePathKept(q, nodes[0], path);
      PathConcat([nodes[0]], nodes[1..], path);
      assert [nodes[0]] + nodes[1..] == nodes;
      match Visit(q, nodes[0])
      case Some(n) => PathConcat([n], VisitAll(q, nodes[1..]), path);
      case None => assert VisitAll(q, nodes) == VisitAll(q, nodes[1..]);
    }
  }

  lemma {:induction false} NoPathRetained(nodes: seq<Node>, path: seq<Node>)
    requires IsRecordPath(path)
    ensures !HasPath(Retain(nodes), path)
    decreases |path|, |nodes|
  {
    if nodes != [] {
      var n, later := nodes[0], Retain(nodes[1..]);
      NoPathRetained(nodes[1..], path);
      if |path| > 2 {
        NoPathRetained(n.children, path[1..]);
      }
      if IsUnloadedLibrary(n) || (n.kind == DirectoryNode && Retain(n.children) != []) {
        assert Retain(nodes)[1..] == later;
      } else {
        assert Retain(nodes) == later;
      }
    }
  }

  /** A record of a loaded library, reached through directories, is in the result with its whole path
      exactly when it was in the tree and something on the path matches. */
  lemma RecordSurvives(lower: string -> string, nodes: seq<Node>, search: string, path: seq<Node>)
    requires IsRecordPath(path) && Normalize(lower, search) != ""
    ensures HasPath(Filter(lower, nodes, search).nodes, path) <==>
      HasPath(nodes, path) && SomeMatch(Query(lower, Normalize(lower, search)), path)
  {
    var q := Query(lower, Normalize(lower, search));
    PathKept(q, nodes, path);
    NoPathRetained(nodes, path);
  }
}
