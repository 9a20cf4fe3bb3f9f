/** The search as it runs: it fills the expanded set and the match flag while it visits the tree. */
module CatalogSearcher {
  import opened Options
  import opened CatalogTree
  import opened CatalogSearch

  datatype Marks = Marks(expanded: set<Key>, hasLoadedMatch: bool)

  function After(m: Marks, keys: set<Key>, matched: bool): Marks {
    Marks(m.expanded + keys, m.hasLoadedMatch || matched)
  }

  lemma AfterTwice(m: Marks, a: set<Key>, b: set<Key>, x: bool, y: bool)
    ensures After(After(m, a, x), b, y) == After(m, a + b, x || y)
  {
    assert m.expanded + a + b == m.expanded + (a + b);
  }

  lemma {:induction false} NothingRetained(nodes: seq<Node>)
    requires Retain(nodes) == []
    ensures Retained(nodes) == {}
  {
    if nodes != [] {
      NothingRetained(nodes[1..]);
    }
  }

  lemma RetainSplit(nodes: seq<Node>)
    requires nodes != []
    ensures Retain(nodes) == Retain([nodes[0]]) + Retain(nodes[1..])
    ensures Retained(nodes) == Retained([nodes[0]]) + Retained(nodes[1..])
  {
    assert [nodes[0]][1..] == [];
  }

  class Searcher {
    const q: Query
    var expanded: set<Key>
    var hasLoadedMatch: bool

    constructor (q: Query)
      ensures this.q == q && Now() == Marks({}, false)
    {
      this.q := q;
      expanded, hasLoadedMatch := {}, false;
    }

    ghost function Now(): Marks
      reads this
    {
      Marks(expanded, hasLoadedMatch)
    }

    method VisitNode(n: Node) returns (r: Option<Node>)
      modifies this
      ensures r == Visit(q, n)
      ensures Now() == After(old(Now()), Opened(q, n), MatchedLoaded(q, n))
      decreases n, 1
    {
      if n.kind == DirectoryNode {
        r := VisitDirectory(n);
      } else if n.kind == LibraryNode {
        r := VisitLibrary(n);
      } else {
        r := if Matches(q, n) then Some(n) else None;
      }
    }

    method VisitDirectory(n: Node) returns (r: Option<Node>)
      requires n.kind == DirectoryNode
      modifies this
      ensures r == Visit(q, n)
      ensures Now() == After(old(Now()), Opened(q, n), MatchedLoaded(q, n))
      decreases n, 0
    {
      if Matches(q, n) {
        hasLoadedMatch := true;
        expanded := expanded + {n.key};
        return Some(n);
      }
      var children := VisitNodes(n.children);
      if children == [] {
        NothingOpened(q, n.children);
        return None;
      }
      expanded := expanded + {n.key};
      AfterTwice(old(Now()), OpenedAll(q, n.children), {n.key}, MatchedLoadedAll(q, n.children), false);
      return Some(n.(children := children));
    }

    method VisitLibrary(n: Node) returns (r: Option<Node>)
      requires n.kind == LibraryNode
      modifies this
      ensures r == Visit(q, n)
      ensures Now() == After(old(Now()), Opened(q, n), MatchedLoaded(q, n))
    {
      if Matches(q, n) {
        hasLoadedMatch := true;
        expanded := expanded + {n.key};
        return Some(n);
      }
      if n.loadStatus != Some(Loaded) {
        return None;
      }
      var records := MatchingRecords(q, n.children);
      if records == [] {
        return None;
      }
      hasLoadedMatch := true;
      expanded := expanded + {n.key};
      return Some(n.(children := records + Actions(n.children)));
    }

    method VisitNodes(nodes: seq<Node>) returns (kept: seq<Node>)
      modifies this
      ensures kept == VisitAll(q, nodes)
      ensures Now() == After(old(Now()), OpenedAll(q, nodes), MatchedLoadedAll(q, nodes))
      decreases nodes
    {
      if nodes == [] {
        return [];
      }
      var first := VisitNode(nodes[0]);
      var rest := VisitNodes(nodes[1..]);
      AfterTwice(old(Now()), Opened(q, nodes[0]), OpenedAll(q, nodes[1..]),
                 MatchedLoaded(q, nodes[0]), MatchedLoadedAll(q, nodes[1..]));
      kept := (if first.Some? then [first.value] else []) + rest;
    }

    method RetainUnloaded(nodes: seq<Node>) returns (kept: seq<Node>)
      modifies this
      ensures kept == Retain(nodes)
      ensures Now() == After(old(Now()), Retained(nodes), false)
      decreases nodes
    {
      if nodes == [] {
        return [];
      }
      var n := nodes[0];
      var first := RetainOne(n);
      var rest := RetainUnloaded(nodes[1..]);
      kept := first + rest;
      RetainSplit(nodes);
      AfterTwice(old(Now()), Retained([n]), Retained(nodes[1..]), false, false);
    }

    /** One node: an unloaded library, a directory that leads to one, or nothing. */
    method RetainOne(n: Node) returns (kept: seq<Node>)
      modifies this
      ensures kept == Retain([n])
      ensures Now() == After(old(Now()), Retained([n]), false)
      decreases n
    {
      assert [n][1..] == [];
      if IsUnloadedLibrary(n) {
        expanded := expanded + {n.key};
        return [n];
      }
      if n.kind != DirectoryNode {
        return [];
      }
      var below := RetainUnloaded(n.children);
      if below == [] {
        NothingRetained(n.children);
        return [];
      }
      expanded := expanded + {n.key};
      AfterTwice(old(Now()), Retained(n.children), {n.key}, false, false);
      return [n.(children := below)];
    }
  }

  method FilterTree(lower: string -> string, nodes: seq<Node>, search: string) returns (r: SearchResult)
    ensures r == Filter(lower, nodes, search)
  {
    var query := Normalize(lower, search);
    if query == "" {
      return SearchResult(nodes, query, {}, false, false);
    }
    var s := new Searcher(Query(lower, query));
    var unloaded := ContainsUnloaded(nodes);
    var kept := s.VisitNodes(nodes);
    if kept == [] && unloaded {
      kept := s.RetainUnloaded(nodes);
    }
    r := SearchResult(kept, query, s.expanded, s.hasLoadedMatch, unloaded);
  }
}
