/** What a search finds, opens and shows, told by the paths of the tree. */
module CatalogSearchTheorems {
  import opened Options
  import opened Text
  import opened CatalogTree
  import opened CatalogSearch
  import T = CatalogTreeTheorems

  function LastOf(path: seq<Node>): Node
    requires path != []
  {
    path[|path| - 1]
  }

  /** Directories down to one more node. */
  predicate UnderDirectories(path: seq<Node>) {
    path != [] && forall i :: 0 <= i < |path| - 1 ==> path[i].kind == DirectoryNode
  }

  lemma {:induction false} HasPrefix(nodes: seq<Node>, path: seq<Node>, k: nat)
    requires k < |path| && HasPath(nodes, path)
    ensures HasPath(nodes, path[..k + 1])
    decreases |path|, |nodes|
  {
    if Shell(nodes[0]) == path[0] && (|path| == 1 || HasPath(nodes[0].children, path[1..])) {
      if k > 0 {
        HasPrefix(nodes[0].children, path[1..], k - 1);
        assert path[..k + 1][1..] == path[1..][..k];
      }
    } else {
      HasPrefix(nodes[1..], path, k);
    }
  }

  lemma ShellMatches(q: Query, n: Node)
    ensures Matches(q, Shell(n)) <==> Matches(q, n)
  {
    assert Terms(Shell(n)) == Terms(n);
  }

  lemma VisitedShell(q: Query, n: Node)
    requires Visit(q, n).Some?
    ensures Shell(Visit(q, n).value) == Shell(n)
  {
  }

  // ---- what is searched for as text

  /** The needle stands in the text from place `i` on. */
  predicate StandsAt(hay: string, needle: string, i: nat) {
    i + |needle| <= |hay| && forall k :: 0 <= k < |needle| ==> hay[i + k] == needle[k]
  }

  lemma StandsLater(hay: string, needle: string, i: nat)
    requires hay != ""
    ensures StandsAt(hay, needle, i + 1) <==> StandsAt(hay[1..], needle, i)
  {
    assert forall k :: 0 <= k < |hay| - 1 ==> hay[1..][k] == hay[k + 1];
    if StandsAt(hay[1..], needle, i) {
      forall k | 0 <= k < |needle|
        ensures hay[i + 1 + k] == needle[k]
      {
        assert hay[1..][i + k] == needle[k];
      }
    }
  }

  lemma StandsFirst(hay: string, needle: string)
    ensures StandsAt(hay, needle, 0) <==> needle <= hay
  {
  }

  lemma {:induction false} StandsContained(hay: string, needle: string, i: nat)
    requires StandsAt(hay, needle, i)
    ensures Contains(hay, needle)
    decreases i
  {
    StandsFirst(hay, needle);
    if i > 0 {
      StandsLater(hay, needle, i - 1);
      StandsContained(hay[1..], needle, i - 1);
    }
  }

  lemma {:induction false} ContainedStands(hay: string, needle: string) returns (i: nat)
    requires Contains(hay, needle)
    ensures StandsAt(hay, needle, i)
  {
    StandsFirst(hay, needle);
    i := 0;
    if !(needle <= hay) {
      i := ContainedStands(hay[1..], needle);
      StandsLater(hay, needle, i);
      i := i + 1;
    }
  }

  /** A text contains another exactly when that stands somewhere in it. */
  lemma ContainsExactly(hay: string, needle: string)
    ensures Contains(hay, needle) <==> exists i: nat :: StandsAt(hay, needle, i)
  {
    if Contains(hay, needle) {
      var i := ContainedStands(hay, needle);
    }
    if i: nat :| StandsAt(hay, needle, i) {
      StandsContained(hay, needle, i);
    }
  }

  /** A node matches exactly when the query stands in one of its search terms, or in its title when it has none. */
  lemma {:induction false} TermsMatchExactly(q: Query, terms: seq<string>)
    ensures TermsMatch(q, terms) <==> exists k :: 0 <= k < |terms| && Contains(Normalize(q.lower, terms[k]), q.text)
  {
    if terms != [] {
      TermsMatchExactly(q, terms[1..]);
      if k :| 0 <= k < |terms| && Contains(Normalize(q.lower, terms[k]), q.text) {
        assert k > 0 ==> terms[1..][k - 1] == terms[k];
      }
    }
  }

  ghost predicate Occurs(hay: string, needle: string) {
    exists i: nat :: StandsAt(hay, needle, i)
  }

  /** A node matches a search exactly when the trimmed and lower-cased search stands in one of its search terms, or in
      its title when it has none, trimmed and lower-cased too. */
  lemma MatchesExactly(lower: string -> string, search: string, n: Node)
    ensures Matches(Query(lower, Normalize(lower, search)), n) <==>
      match n.searchTerms
      case None => Occurs(lower(Trim(n.title)), lower(Trim(search)))
      case Some(terms) => exists k :: 0 <= k < |terms| && Occurs(lower(Trim(terms[k])), lower(Trim(search)))
  {
    var q := Query(lower, Normalize(lower, search));
    var terms := if n.searchTerms.Some? then n.searchTerms.value else [n.title];
    TermsMatchExactly(q, terms);
    forall k | 0 <= k < |terms|
      ensures Contains(Normalize(lower, terms[k]), q.text) <==> Occurs(lower(Trim(terms[k])), lower(Trim(search)))
    {
      ContainsExactly(lower(Trim(terms[k])), lower(Trim(search)));
    }
    assert n.searchTerms.None? ==> terms[0] == n.title;
  }

  /** A search of white space shows the tree as it is and opens nothing. */
  lemma BlankSearch(lower: string -> string, nodes: seq<Node>, search: string)
    ensures lower(Trim(search)) == "" <==> Normalize(lower, search) == ""
    ensures lower(Trim(search)) == "" ==> Filter(lower, nodes, search) == SearchResult(nodes, "", {}, false, false)
  {
  }

  // ---- what is found

  /** The path leads to a match: through directories to any node, or to a record of a loaded library. */
  predicate Finds(q: Query, nodes: seq<Node>, path: seq<Node>) {
    (UnderDirectories(path) || IsRecordPath(path)) && HasPath(nodes, path) && Matches(q, LastOf(path))
  }

  ghost predicate SomethingFound(q: Query, nodes: seq<Node>) {
    exists path :: Finds(q, nodes, path)
  }

  lemma {:induction false} MatchingRecord(q: Query, nodes: seq<Node>) returns (path: seq<Node>)
    requires MatchingRecords(q, nodes) != []
    ensures |path| == 1 && HasPath(nodes, path) && path[0].kind == RecordNode && Matches(q, path[0])
  {
    if KeptRecord(q, nodes[0]) != [] {
      ShellMatches(q, nodes[0]);
      path := [Shell(nodes[0])];
    } else {
      path := MatchingRecord(q, nodes[1..]);
    }
  }

  /** A node that is not left out leads to a match. */
  lemma {:induction false} VisitedFinds(q: Query, n: Node) returns (path: seq<Node>)
    requires Visit(q, n).Some?
    ensures Finds(q, [n], path)
    decreases n, 0
  {
    ShellMatches(q, n);
    path := [Shell(n)];
    if !Matches(q, n) {
      var below;
      if n.kind == DirectoryNode {
        below := KeptFinds(q, n.children);
      } else {
        below := MatchingRecord(q, n.children);
      }
      path := path + below;
      assert path[1..] == below;
    }
    SinglePath(n, path);
  }

  lemma {:induction false} KeptFinds(q: Query, nodes: seq<Node>) returns (path: seq<Node>)
    requires VisitAll(q, nodes) != []
    ensures Finds(q, nodes, path)
    decreases nodes, 1
  {
    if Visit(q, nodes[0]).Some? {
      path := VisitedFinds(q, nodes[0]);
      assert [nodes[0]] + nodes[1..] == nodes;
      PathConcat([nodes[0]], nodes[1..], path);
    } else {
      path := KeptFinds(q, nodes[1..]);
    }
  }

  lemma LibraryFinds(q: Query, n: Node, path: seq<Node>)
    requires Finds(q, [n], path) && n.kind != DirectoryNode
    ensures Visit(q, n).Some?
  {
    SinglePath(n, path);
    ShellMatches(q, n);
    if |path| > 1 {
      assert IsRecordPath(path) && path[1..] == [path[1]];
      RecordKept(q, n.children, path[1]);
    }
  }

  lemma FindsDown(q: Query, n: Node, path: seq<Node>)
    requires Finds(q, [n], path) && n.kind == DirectoryNode && !Matches(q, n)
    ensures |path| > 1 && Finds(q, n.children, path[1..]) && IsRecordPath(path) == IsRecordPath(path[1..])
    ensures LastOf(path[1..]) == LastOf(path)
  {
    SinglePath(n, path);
    ShellMatches(q, n);
    assert path[1..][|path| - 2] == LastOf(path);
    assert path[0].kind == DirectoryNode;
    assert forall i :: 0 <= i < |path| - 1 ==> path[1..][i] == path[i + 1];
    if |path| == 2 {
      assert !IsRecordPath(path);
    }
  }

  /** A match is never left out. */
  lemma {:induction false} FoundKept(q: Query, nodes: seq<Node>, path: seq<Node>)
    requires Finds(q, nodes, path)
    ensures VisitAll(q, nodes) != []
    decreases |path|, |nodes|
  {
    var n := nodes[0];
    if HasPath(nodes[1..], path) {
      FoundKept(q, nodes[1..], path);
    } else {
      SinglePath(n, path);
      if n.kind != DirectoryNode {
        LibraryFinds(q, n, path);
      } else if !Matches(q, n) {
        FindsDown(q, n, path);
        FoundKept(q, n.children, path[1..]);
      }
    }
  }

  /** Matching nodes are left exactly when a path leads to a match; unloaded libraries take their place otherwise. */
  lemma FallsBackExactly(lower: string -> string, nodes: seq<Node>, search: string)
    requires Normalize(lower, search) != ""
    ensures var q, r := Query(lower, Normalize(lower, search)), Filter(lower, nodes, search);
      && (SomethingFound(q, nodes) ==> r.nodes == VisitAll(q, nodes) && r.nodes != [])
      && (!SomethingFound(q, nodes) ==> r.nodes == Retain(nodes))
  {
    var q := Query(lower, Normalize(lower, search));
    if VisitAll(q, nodes) != [] {
      var path := KeptFinds(q, nodes);
    } else {
      forall path
        ensures !Finds(q, nodes, path)
      {
        if Finds(q, nodes, path) {
          FoundKept(q, nodes, path);
        }
      }
      NothingUnloaded(nodes);
    }
  }

  lemma {:induction false} NothingUnloaded(nodes: seq<Node>)
    ensures !ContainsUnloaded(nodes) ==> Retain(nodes) == []
    decreases nodes
  {
    if nodes != [] {
      NothingUnloaded(nodes[0].children);
      NothingUnloaded(nodes[1..]);
    }
  }

  // ---- the two flags of the result

  /** A match that counts as one among the loaded nodes: a directory, a library, or a record of a loaded library. */
  predicate FindsLoaded(q: Query, nodes: seq<Node>, path: seq<Node>) {
    Finds(q, nodes, path) && (IsRecordPath(path) || LastOf(path).kind in {DirectoryNode, LibraryNode})
  }

  lemma {:induction false} LoadedMatch(q: Query, n: Node) returns (path: seq<Node>)
    requires MatchedLoaded(q, n)
    ensures FindsLoaded(q, [n], path)
    decreases n, 0
  {
    ShellMatches(q, n);
    path := [Shell(n)];
    if !Matches(q, n) {
      var below;
      if n.kind == DirectoryNode {
        below := LoadedMatchAll(q, n.children);
      } else {
        below := MatchingRecord(q, n.children);
      }
      path := path + below;
      assert path[1..] == below;
    }
    SinglePath(n, path);
  }

  lemma {:induction false} LoadedMatchAll(q: Query, nodes: seq<Node>) returns (path: seq<Node>)
    requires MatchedLoadedAll(q, nodes)
    ensures FindsLoaded(q, nodes, path)
    decreases nodes, 1
  {
    if MatchedLoaded(q, nodes[0]) {
      path := LoadedMatch(q, nodes[0]);
      assert [nodes[0]] + nodes[1..] == nodes;
      PathConcat([nodes[0]], nodes[1..], path);
    } else {
      path := LoadedMatchAll(q, nodes[1..]);
    }
  }

  lemma {:induction false} LoadedCounts(q: Query, nodes: seq<Node>, path: seq<Node>)
    requires FindsLoaded(q, nodes, path)
    ensures MatchedLoadedAll(q, nodes)
    decreases |path|, |nodes|
  {
    var n := nodes[0];
    if HasPath(nodes[1..], path) {
      LoadedCounts(q, nodes[1..], path);
    } else {
      SinglePath(n, path);
      ShellMatches(q, n);
      if n.kind != DirectoryNode {
        LibraryFinds(q, n, path);
      } else if !Matches(q, n) {
        FindsDown(q, n, path);
        LoadedCounts(q, n.children, path[1..]);
      }
    }
  }

  predicate LeadsToUnloaded(nodes: seq<Node>, path: seq<Node>) {
    path != [] && HasPath(nodes, path) && NotLoaded(LastOf(path))
  }

  /** A library whose records are not loaded: not yet, still loading, or failed. */
  predicate NotLoaded(n: Node) {
    n.kind == LibraryNode && (n.loadStatus.None? || !n.loadStatus.value.Loaded?)
  }

  lemma {:induction false} UnloadedPath(nodes: seq<Node>) returns (path: seq<Node>)
    requires ContainsUnloaded(nodes)
    ensures LeadsToUnloaded(nodes, path)
    decreases nodes
  {
    if IsUnloadedLibrary(nodes[0]) {
      path := [Shell(nodes[0])];
    } else if ContainsUnloaded(nodes[0].children) {
      var below := UnloadedPath(nodes[0].children);
      path := [Shell(nodes[0])] + below;
      assert path[1..] == below;
    } else {
      path := UnloadedPath(nodes[1..]);
    }
  }

  lemma {:induction false} UnloadedCounts(nodes: seq<Node>, path: seq<Node>)
    requires LeadsToUnloaded(nodes, path)
    ensures ContainsUnloaded(nodes)
    decreases |path|, |nodes|
  {
    if HasPath(nodes[1..], path) {
      UnloadedCounts(nodes[1..], path);
    } else if |path| > 1 {
      assert path[1..][|path| - 2] == LastOf(path);
      UnloadedCounts(nodes[0].children, path[1..]);
    }
  }

  /** The result says that something loaded matches, and that some library is not loaded, exactly when a path of the
      tree leads there. */
  lemma FlagsExactly(lower: string -> string, nodes: seq<Node>, search: string)
    requires Normalize(lower, search) != ""
    ensures var q, r := Query(lower, Normalize(lower, search)), Filter(lower, nodes, search);
      && (r.hasLoadedMatch <==> exists path :: FindsLoaded(q, nodes, path))
      && (r.hasUnloadedLibraries <==> exists path :: LeadsToUnloaded(nodes, path))
  {
    var q := Query(lower, Normalize(lower, search));
    if MatchedLoadedAll(q, nodes) {
      var path := LoadedMatchAll(q, nodes);
    }
    forall path | FindsLoaded(q, nodes, path)
      ensures MatchedLoadedAll(q, nodes)
    {
      LoadedCounts(q, nodes, path);
    }
    if ContainsUnloaded(nodes) {
      var path := UnloadedPath(nodes);
    }
    forall path | LeadsToUnloaded(nodes, path)
      ensures ContainsUnloaded(nodes)
    {
      UnloadedCounts(nodes, path);
    }
  }

  // ---- what is expanded

  /** A directory or a library, reached through directories that do not match. */
  predicate Branch(q: Query, path: seq<Node>) {
    && UnderDirectories(path) && LastOf(path).kind in {DirectoryNode, LibraryNode}
    && forall i :: 0 <= i < |path| - 1 ==> !Matches(q, path[i])
  }

  /** Such a path, that ends with this key. */
  predicate BranchTo(q: Query, nodes: seq<Node>, path: seq<Node>, key: Key) {
    Branch(q, path) && HasPath(nodes, path) && LastOf(path).key == key
  }

  lemma BranchDown(q: Query, n: Node, path: seq<Node>, below: seq<Node>)
    requires path == [Shell(n)] + below && below != []
    ensures Branch(q, path) <==> n.kind == DirectoryNode && !Matches(q, n) && Branch(q, below)
    ensures LastOf(path) == LastOf(below) && path[1..] == below
  {
    ShellMatches(q, n);
    assert path[0] == Shell(n) && path[0].kind == n.kind;
    TwigDown(n, path, below);
    if Branch(q, path) {
      forall i | 0 <= i < |below| - 1
        ensures !Matches(q, below[i])
      {
        assert below[i] == path[i + 1];
      }
    }
  }

  lemma {:induction false} OpenedBranch(q: Query, n: Node, key: Key) returns (path: seq<Node>)
    requires key in Opened(q, n)
    ensures Visit(q, n).Some? && BranchTo(q, [Visit(q, n).value], path, key)
    decreases n, 0
  {
    var v := Visit(q, n).value;
    VisitedShell(q, n);
    path := [Shell(n)];
    if n.key != key {
      var below := OpenedBranches(q, n.children, key);
      path := path + below;
      BranchDown(q, n, path, below);
    }
    SinglePath(v, path);
  }

  lemma {:induction false} OpenedBranches(q: Query, nodes: seq<Node>, key: Key) returns (path: seq<Node>)
    requires key in OpenedAll(q, nodes)
    ensures BranchTo(q, VisitAll(q, nodes), path, key)
    decreases nodes, 1
  {
    var later := VisitAll(q, nodes[1..]);
    if key in Opened(q, nodes[0]) {
      path := OpenedBranch(q, nodes[0], key);
      PathConcat([Visit(q, nodes[0]).value], later, path);
    } else {
      path := OpenedBranches(q, nodes[1..], key);
      match Visit(q, nodes[0])
      case Some(v) => PathConcat([v], later, path);
      case None => assert VisitAll(q, nodes) == later;
    }
  }

  lemma {:induction false} BranchOpened(q: Query, n: Node, path: seq<Node>)
    requires Visit(q, n).Some? && Branch(q, path) && HasPath([Visit(q, n).value], path)
    ensures LastOf(path).key in Opened(q, n)
    decreases |path|, 0
  {
    SinglePath(Visit(q, n).value, path);
    VisitedShell(q, n);
    ShellMatches(q, n);
    if |path| > 1 {
      var below := path[1..];
      assert path == [Shell(n)] + below;
      BranchDown(q, n, path, below);
      BranchesOpened(q, n.children, below);
    }
  }

  lemma {:induction false} BranchesOpened(q: Query, nodes: seq<Node>, path: seq<Node>)
    requires Branch(q, path) && HasPath(VisitAll(q, nodes), path)
    ensures LastOf(path).key in OpenedAll(q, nodes)
    decreases |path|, 1 + |nodes|
  {
    var later := VisitAll(q, nodes[1..]);
    match Visit(q, nodes[0])
    case Some(v) =>
      PathConcat([v], later, path);
      if HasPath([v], path) {
        BranchOpened(q, nodes[0], path);
      } else {
        BranchesOpened(q, nodes[1..], path);
      }
    case None =>
      assert VisitAll(q, nodes) == later;
      BranchesOpened(q, nodes[1..], path);
  }

  /** A directory or a library, reached through directories. */
  predicate Twig(path: seq<Node>) {
    UnderDirectories(path) && LastOf(path).kind in {DirectoryNode, LibraryNode}
  }

  lemma TwigDown(n: Node, path: seq<Node>, below: seq<Node>)
    requires path == [Shell(n)] + below && below != []
    ensures Twig(path) <==> n.kind == DirectoryNode && Twig(below)
    ensures LastOf(path) == LastOf(below) && path[1..] == below
  {
    assert path[0] == Shell(n) && path[0].kind == n.kind;
    if Twig(path) {
      forall i | 0 <= i < |below| - 1
        ensures below[i].kind == DirectoryNode
      {
        assert below[i] == path[i + 1];
      }
    }
  }

  lemma {:induction false} RetainedTwig(nodes: seq<Node>, key: Key) returns (path: seq<Node>)
    requires key in Retained(nodes)
    ensures Twig(path) && HasPath(Retain(nodes), path) && LastOf(path).key == key
    decreases nodes
  {
    var n, later := nodes[0], Retain(nodes[1..]);
    var below := Retain(n.children);
    if IsUnloadedLibrary(n) {
      assert Retain(nodes) == [n] + later;
      if key == n.key {
        path := [Shell(n)];
      } else {
        path := RetainedTwig(nodes[1..], key);
        PathConcat([n], later, path);
      }
    } else if n.kind == DirectoryNode && below != [] {
      var kept := n.(children := below);
      assert Retain(nodes) == [kept] + later;
      if key == n.key {
        path := [Shell(n)];
      } else if key in Retained(n.children) {
        var tail := RetainedTwig(n.children, key);
        path := [Shell(n)] + tail;
        TwigDown(n, path, tail);
        SinglePath(kept, path);
        PathConcat([kept], later, path);
      } else {
        path := RetainedTwig(nodes[1..], key);
        PathConcat([kept], later, path);
      }
    } else {
      assert Retain(nodes) == later;
      path := RetainedTwig(nodes[1..], key);
    }
  }

  lemma {:induction false} TwigRetained(nodes: seq<Node>, path: seq<Node>)
    requires Twig(path) && HasPath(Retain(nodes), path)
    ensures LastOf(path).key in Retained(nodes)
    decreases |path|, |nodes|
  {
    var n, later := nodes[0], Retain(nodes[1..]);
    var below := Retain(n.children);
    if IsUnloadedLibrary(n) {
      assert Retain(nodes) == [n] + later;
      PathConcat([n], later, path);
      SinglePath(n, path);
    } else if n.kind == DirectoryNode && below != [] {
      var kept := n.(children := below);
      assert Retain(nodes) == [kept] + later;
      PathConcat([kept], later, path);
      SinglePath(kept, path);
      if |path| > 1 && HasPath([kept], path) {
        assert path == [Shell(n)] + path[1..];
        TwigDown(n, path, path[1..]);
        TwigRetained(n.children, path[1..]);
      }
    } else {
      assert Retain(nodes) == later;
    }
    if HasPath(later, path) {
      TwigRetained(nodes[1..], path);
    }
  }

  lemma NoMatchAbove(q: Query, nodes: seq<Node>, path: seq<Node>, i: nat)
    requires VisitAll(q, nodes) == [] && UnderDirectories(path) && HasPath(nodes, path) && i < |path|
    ensures !Matches(q, path[i])
  {
    HasPrefix(nodes, path, i);
    var prefix := path[..i + 1];
    if Matches(q, path[i]) {
      assert UnderDirectories(prefix) && LastOf(prefix) == path[i];
      FoundKept(q, nodes, prefix);
    }
  }

  /** Where nothing is found, no directory on a path matches. */
  lemma TwigUnmatched(q: Query, nodes: seq<Node>, path: seq<Node>)
    requires VisitAll(q, nodes) == [] && Twig(path) && HasPath(nodes, path)
    ensures Branch(q, path)
  {
    forall i | 0 <= i < |path| - 1
      ensures !Matches(q, path[i])
    {
      NoMatchAbove(q, nodes, path, i);
    }
  }

  ghost predicate OnBranch(q: Query, nodes: seq<Node>, key: Key) {
    exists path :: BranchTo(q, nodes, path, key)
  }

  /** Exactly these keys are expanded: those of the directories and libraries of the result that no match stands
      above. */
  lemma ExpandedExactly(lower: string -> string, nodes: seq<Node>, search: string, key: Key)
    requires Normalize(lower, search) != ""
    ensures var q, r := Query(lower, Normalize(lower, search)), Filter(lower, nodes, search);
      key in r.expanded <==> OnBranch(q, r.nodes, key)
  {
    var q, r := Query(lower, Normalize(lower, search)), Filter(lower, nodes, search);
    if VisitAll(q, nodes) == [] && ContainsUnloaded(nodes) {
      RetainedExactly(q, nodes, key);
    } else {
      OpenedExactly(q, nodes, key);
    }
  }

  lemma OpenedExactly(q: Query, nodes: seq<Node>, key: Key)
    ensures key in OpenedAll(q, nodes) <==> OnBranch(q, VisitAll(q, nodes), key)
  {
    if key in OpenedAll(q, nodes) {
      var path := OpenedBranches(q, nodes, key);
    }
    if path :| BranchTo(q, VisitAll(q, nodes), path, key) {
      BranchesOpened(q, nodes, path);
    }
  }

  lemma RetainedExactly(q: Query, nodes: seq<Node>, key: Key)
    requires VisitAll(q, nodes) == []
    ensures key in OpenedAll(q, nodes) + Retained(nodes) <==> OnBranch(q, Retain(nodes), key)
  {
    NothingOpened(q, nodes);
    RetainedUnmatched(q, nodes);
    if key in Retained(nodes) {
      var path := RetainedTwig(nodes, key);
      TwigUnmatched(q, Retain(nodes), path);
      assert BranchTo(q, Retain(nodes), path, key);
    }
    if path :| BranchTo(q, Retain(nodes), path, key) {
      TwigRetained(nodes, path);
    }
  }

  // ---- the actions of a library

  lemma {:induction false} ActionPaths(q: Query, nodes: seq<Node>, action: Node)
    requires action.kind == ActionNode
    ensures HasPath(Actions(nodes), [action]) <==> HasPath(nodes, [action])
    ensures !HasPath(MatchingRecords(q, nodes), [action])
  {
    if nodes != [] {
      ActionPaths(q, nodes[1..], action);
      PathConcat(KeptAction(nodes[0]), Actions(nodes[1..]), [action]);
      PathConcat(KeptRecord(q, nodes[0]), MatchingRecords(q, nodes[1..]), [action]);
      SinglePath(nodes[0], [action]);
    }
  }

  /** A library that is kept keeps all its actions, such as loading more records, and gains none. */
  lemma ActionsKept(q: Query, n: Node, action: Node)
    requires n.kind == LibraryNode && action.kind == ActionNode && Visit(q, n).Some?
    ensures HasPath(Visit(q, n).value.children, [action]) <==> HasPath(n.children, [action])
  {
    ActionPaths(q, n.children, action);
    PathConcat(MatchingRecords(q, n.children), Actions(n.children), [action]);
  }

  // ---- what is shown

  /** A path with everything above its end expanded is shown. */
  lemma {:induction false} ShownAlong(nodes: seq<Node>, path: seq<Node>, open: set<Key>)
    requires path != [] && HasPath(nodes, path)
    requires forall i :: 0 <= i < |path| - 1 ==> path[i].key in open
    ensures T.Shown(nodes, LastOf(path).key, open)
    decreases |path|, |nodes|
  {
    if HasPath(nodes[1..], path) {
      ShownAlong(nodes[1..], path, open);
    } else if |path| > 1 {
      forall i | 0 <= i < |path| - 2
        ensures path[1..][i].key in open
      {
        assert path[1..][i] == path[i + 1];
      }
      assert path[0].key in open;
      ShownAlong(nodes[0].children, path[1..], open);
    }
  }

  /** No node of the path before this place matches, and all are directories. */
  ghost predicate ClearTo(q: Query, path: seq<Node>, i: nat)
    requires i < |path|
  {
    forall j :: 0 <= j < i ==> path[j].kind == DirectoryNode && !Matches(q, path[j])
  }

  lemma BranchPrefix(q: Query, nodes: seq<Node>, path: seq<Node>, i: nat)
    requires path != [] && HasPath(nodes, path) && i < |path| && ClearTo(q, path, i)
    requires path[i].kind in {DirectoryNode, LibraryNode}
    ensures OnBranch(q, nodes, path[i].key)
  {
    HasPrefix(nodes, path, i);
    assert BranchTo(q, nodes, path[..i + 1], path[i].key);
  }

  lemma AboveExpanded(lower: string -> string, nodes: seq<Node>, search: string, path: seq<Node>, i: nat)
    requires Normalize(lower, search) != "" && i < |path|
    requires HasPath(Filter(lower, nodes, search).nodes, path)
    requires ClearTo(Query(lower, Normalize(lower, search)), path, i) && path[i].kind in {DirectoryNode, LibraryNode}
    ensures path[i].key in Filter(lower, nodes, search).expanded
  {
    BranchPrefix(Query(lower, Normalize(lower, search)), Filter(lower, nodes, search).nodes, path, i);
    ExpandedExactly(lower, nodes, search, path[i].key);
  }

  /** The node at this place matches, and none above it does. */
  ghost predicate FirstMatch(q: Query, path: seq<Node>, k: nat) {
    k < |path| && Matches(q, path[k]) && forall i :: 0 <= i < k ==> !Matches(q, path[i])
  }

  lemma FirstClear(q: Query, path: seq<Node>, k: nat, i: nat)
    requires IsRecordPath(path) && FirstMatch(q, path, k) && i < k
    ensures ClearTo(q, path, i) && path[i].kind in {DirectoryNode, LibraryNode}
  {
  }

  /** The first match on the path of a record that is kept is shown, whether it is the record or stands above it. */
  lemma MatchShown(lower: string -> string, nodes: seq<Node>, search: string, path: seq<Node>, k: nat)
    requires Normalize(lower, search) != "" && IsRecordPath(path)
    requires HasPath(Filter(lower, nodes, search).nodes, path)
    requires FirstMatch(Query(lower, Normalize(lower, search)), path, k)
    ensures var r := Filter(lower, nodes, search);
      T.Shown(r.nodes, path[k].key, r.expanded)
  {
    var r := Filter(lower, nodes, search);
    forall i | 0 <= i < k
      ensures path[i].key in r.expanded
    {
      FirstClear(Query(lower, Normalize(lower, search)), path, k, i);
      AboveExpanded(lower, nodes, search, path, i);
    }
    ShownAt(r.nodes, path, k, r.expanded);
  }

  lemma ShownAt(nodes: seq<Node>, path: seq<Node>, k: nat, open: set<Key>)
    requires k < |path| && HasPath(nodes, path) && forall i :: 0 <= i < k ==> path[i].key in open
    ensures T.Shown(nodes, path[k].key, open)
  {
    HasPrefix(nodes, path, k);
    ShownAlong(nodes, path[..k + 1], open);
  }

  /** Directories down to a library that is not loaded. */
  predicate IsUnloadedPath(path: seq<Node>) {
    UnderDirectories(path) && NotLoaded(LastOf(path))
  }

  lemma {:induction false} UnloadedRetained(nodes: seq<Node>, path: seq<Node>)
    requires IsUnloadedPath(path)
    ensures HasPath(Retain(nodes), path) <==> HasPath(nodes, path)
    decreases |path|, |nodes|
  {
    if nodes != [] {
      var n, later := nodes[0], Retain(nodes[1..]);
      UnloadedRetained(nodes[1..], path);
      SinglePath(n, path);
      assert nodes == [n] + nodes[1..];
      PathConcat([n], nodes[1..], path);
      if |path| > 1 {
        assert LastOf(path[1..]) == LastOf(path);
        assert forall i :: 0 <= i < |path| - 2 ==> path[1..][i] == path[i + 1];
        UnloadedRetained(n.children, path[1..]);
      }
      NodeRetained(n, later, path);
    }
  }

  lemma NodeRetained(n: Node, later: seq<Node>, path: seq<Node>)
    requires IsUnloadedPath(path)
    requires |path| > 1 ==> (HasPath(Retain(n.children), path[1..]) <==> HasPath(n.children, path[1..]))
    ensures var kept := if IsUnloadedLibrary(n) then [n]
                        else if n.kind == DirectoryNode && Retain(n.children) != []
                        then [n.(children := Retain(n.children))] else [];
      HasPath(kept + later, path) <==> HasPath([n], path) || HasPath(later, path)
  {
    var below := n.(children := Retain(n.children));
    SinglePath(n, path);
    SinglePath(below, path);
    if IsUnloadedLibrary(n) {
      PathConcat([n], later, path);
    } else if n.kind == DirectoryNode && Retain(n.children) != [] {
      PathConcat([below], later, path);
    } else {
      assert [] + later == later;
    }
  }

  /** When nothing is found, exactly the unloaded libraries under directories are left, and each is shown. */
  lemma UnloadedShown(lower: string -> string, nodes: seq<Node>, search: string, path: seq<Node>)
    requires Normalize(lower, search) != "" && IsUnloadedPath(path)
    requires !SomethingFound(Query(lower, Normalize(lower, search)), nodes)
    ensures var r := Filter(lower, nodes, search);
      && (HasPath(r.nodes, path) <==> HasPath(nodes, path))
      && (HasPath(r.nodes, path) ==> T.Shown(r.nodes, LastOf(path).key, r.expanded))
  {
    var q, r := Query(lower, Normalize(lower, search)), Filter(lower, nodes, search);
    FallsBackExactly(lower, nodes, search);
    UnloadedRetained(nodes, path);
    if HasPath(r.nodes, path) {
      if VisitAll(q, nodes) != [] {
        var found := KeptFinds(q, nodes);
      }
      RetainedUnmatched(q, nodes);
      TwigUnmatched(q, r.nodes, path);
      forall i | 0 <= i < |path| - 1
        ensures path[i].key in r.expanded
      {
        AboveExpanded(lower, nodes, search, path, i);
      }
      ShownAlong(r.nodes, path, r.expanded);
    }
  }
}
