/** The builder that fills the lookup maps and the visited and expanded sets while it recurses. */
module CatalogTreeBuilder {
  import opened Options
  import opened CatalogTree
  import opened CatalogTreeTheorems

  datatype TreeModel = TreeModel(nodes: seq<Node>, selected: Option<Key>, expanded: set<Key>)

  /** The library of the source, when its type is known. */
  function SelectedKey(cat: Catalog, sourceId: Option<string>): Option<Key> {
    if sourceId.Some? && sourceId.value != "" && sourceId.value in cat.objectTypes then Some(LibraryKey(sourceId.value))
    else None
  }

  /** The records of the source are loaded and hold the focused record. */
  predicate FocusLoaded(cat: Catalog, sourceId: Option<string>, focusId: Option<string>) {
    && sourceId.Some? && sourceId.value != "" && focusId.Some? && focusId.value != ""
    && sourceId.value in cat.records
    && cat.records[sourceId.value].status == Loaded
    && exists r :: r in cat.records[sourceId.value].items && r.typeCode == sourceId.value && r.objectId == focusId.value
  }

  /** The library of the focused record, once that is loaded. */
  function FocusedKey(cat: Catalog, sourceId: Option<string>, focusId: Option<string>): Option<Key> {
    if FocusLoaded(cat, sourceId, focusId) then Some(LibraryKey(sourceId.value)) else None
  }

  /** The nodes that hold the selection. */
  function Holders(cat: Catalog, selected: Option<Key>): set<Key> {
    OpenKeys(DirectoryNodes(cat), selected)
    + (if selected.Some? && UnclassifiedAmong(cat, cat.libraries) != [] &&
          ContainsKey(UnclassifiedNode(cat).children, selected.value) then {UnclassifiedKey} else {})
  }

  /** The keys that are expanded: what holds the selection, and the library of the focused record. */
  function Expanded(cat: Catalog, selected: Option<Key>, focused: Option<Key>): set<Key> {
    Holders(cat, selected) + if focused.Some? && ContainsKey(Tree(cat), focused.value) then {focused.value} else {}
  }

  lemma {:induction false} ChildrenAmongAppend(cat: Catalog, ds: seq<Directory>, d: Directory, code: string)
    ensures ChildrenAmong(cat, ds + [d], code) ==
      ChildrenAmong(cat, ds, code) + if IsChildOf(cat, d, code) then [d] else []
  {
    if ds == [] {
      assert ds + [d] == [d];
    } else {
      assert (ds + [d])[1..] == ds[1..] + [d];
      ChildrenAmongAppend(cat, ds[1..], d, code);
    }
  }

  lemma {:induction false} RootsAmongAppend(cat: Catalog, ds: seq<Directory>, d: Directory)
    ensures RootsAmong(cat, ds + [d]) == RootsAmong(cat, ds) + if HasParent(cat, d) then [] else [d]
  {
    if ds == [] {
      assert ds + [d] == [d];
    } else {
      assert (ds + [d])[1..] == ds[1..] + [d];
      RootsAmongAppend(cat, ds[1..], d);
    }
  }

  lemma {:induction false} LibrariesAmongAppend(ls: seq<Library>, l: Library, code: string)
    ensures LibrariesAmong(ls + [l], code) == LibrariesAmong(ls, code) + if l.directoryCode == code then [l] else []
  {
    if ls == [] {
      assert ls + [l] == [l];
    } else {
      assert (ls + [l])[1..] == ls[1..] + [l];
      LibrariesAmongAppend(ls[1..], l, code);
    }
  }

  lemma {:induction false} UnclassifiedAmongAppend(cat: Catalog, ls: seq<Library>, l: Library)
    ensures UnclassifiedAmong(cat, ls + [l]) ==
      UnclassifiedAmong(cat, ls) + if l.directoryCode in Codes(cat) then [] else [l]
  {
    if ls == [] {
      assert ls + [l] == [l];
    } else {
      assert (ls + [l])[1..] == ls[1..] + [l];
      UnclassifiedAmongAppend(cat, ls[1..], l);
    }
  }

  lemma {:induction false} OpenConcat(a: seq<Node>, b: seq<Node>, key: Option<Key>)
    ensures OpenKeys(a + b, key) == OpenKeys(a, key) + OpenKeys(b, key)
  {
    if a == [] {
      assert a + b == b;
    } else {
      assert (a + b)[1..] == a[1..] + b;
      OpenConcat(a[1..], b, key);
    }
  }

  /** Nodes that hold no built directory open nothing. */
  lemma {:induction false} NothingOpens(nodes: seq<Node>, key: Option<Key>)
    requires FullCodes(nodes) == {}
    ensures OpenKeys(nodes, key) == {}
    decreases nodes
  {
    if nodes != [] {
      assert OwnCode(nodes[0]) <= FullCodes(nodes);
      NothingOpens(nodes[0].children, key);
      NothingOpens(nodes[1..], key);
    }
  }

  function Lookup<T>(m: map<string, seq<T>>, code: string): seq<T> {
    if code in m then m[code] else []
  }

  function Append<T>(m: map<string, seq<T>>, key: string, x: T): (r: map<string, seq<T>>)
    ensures forall code :: Lookup(r, code) == Lookup(m, code) + if code == key then [x] else []
  {
    m[key := Lookup(m, key) + [x]]
  }

  ghost predicate ListsChildren(cat: Catalog, ds: seq<Directory>, children: map<string, seq<Directory>>, code: string) {
    Lookup(children, code) == ChildrenAmong(cat, ds, code)
  }

  /** The lookup map and the roots after indexing some directories. */
  ghost predicate DirectoriesIn(cat: Catalog, ds: seq<Directory>, children: map<string, seq<Directory>>,
                                roots: seq<Directory>) {
    roots == RootsAmong(cat, ds) && forall code :: ListsChildren(cat, ds, children, code)
  }

  /** The set holds the codes that are noted for a lost parent. */
  ghost predicate DetachedIn(cat: Catalog, ds: seq<Directory>, detached: set<string>) {
    forall code :: code in detached <==> DetachedAmong(cat, ds, code)
  }

  lemma DetachedNext(cat: Catalog, ds: seq<Directory>, detached: set<string>, d: Directory)
    requires DetachedIn(cat, ds, detached)
    ensures DetachedIn(cat, ds + [d], detached + if LostParent(cat, d) then {d.code} else {})
  {
    forall code
      ensures DetachedAmong(cat, ds + [d], code) <==>
        DetachedAmong(cat, ds, code) || (LostParent(cat, d) && code == d.code)
    {
      assert d in ds + [d];
      if o :| o in ds && o.code == code && LostParent(cat, o) {
        assert o in ds + [d];
      }
    }
  }

  lemma DirectoriesNext(cat: Catalog, ds: seq<Directory>, children: map<string, seq<Directory>>, roots: seq<Directory>,
                        d: Directory)
    requires DirectoriesIn(cat, ds, children, roots)
    ensures if HasParent(cat, d) then DirectoriesIn(cat, ds + [d], Append(children, d.parentCode.value, d), roots)
            else DirectoriesIn(cat, ds + [d], children, roots + [d])
  {
    RootsAmongAppend(cat, ds, d);
    var next := if HasParent(cat, d) then Append(children, d.parentCode.value, d) else children;
    forall code
      ensures ListsChildren(cat, ds + [d], next, code)
    {
      assert ListsChildren(cat, ds, children, code);
      ChildrenAmongAppend(cat, ds, d, code);
    }
  }

  ghost predicate ListsLibraries(cat: Catalog, ls: seq<Library>, libraries: map<string, seq<Library>>, code: string) {
    code in Codes(cat) ==> Lookup(libraries, code) == LibrariesAmong(ls, code)
  }

  ghost predicate LibrariesIn(cat: Catalog, ls: seq<Library>, libraries: map<string, seq<Library>>,
                              rest: seq<Library>) {
    rest == UnclassifiedAmong(cat, ls) && forall code :: ListsLibraries(cat, ls, libraries, code)
  }

  lemma LibrariesNext(cat: Catalog, ls: seq<Library>, libraries: map<string, seq<Library>>, rest: seq<Library>,
                      l: Library)
    requires LibrariesIn(cat, ls, libraries, rest)
    ensures if l.directoryCode in Codes(cat)
            then LibrariesIn(cat, ls + [l], Append(libraries, l.directoryCode, l), rest)
            else LibrariesIn(cat, ls + [l], libraries, rest + [l])
  {
    UnclassifiedAmongAppend(cat, ls, l);
    var next := if l.directoryCode in Codes(cat) then Append(libraries, l.directoryCode, l) else libraries;
    forall code
      ensures ListsLibraries(cat, ls + [l], next, code)
    {
      assert ListsLibraries(cat, ls, libraries, code);
      LibrariesAmongAppend(ls, l, code);
    }
  }

  /** The libraries of a directory hold no built directory and open nothing. */
  lemma LibrariesAddNothing(cat: Catalog, code: string, selected: Option<Key>)
    ensures FullCodes(LibraryChildren(cat, code)) == {} && OpenKeys(LibraryChildren(cat, code), selected) == {}
  {
    BuiltLibraries(cat, SortLibraries(cat, LibrariesAmong(cat.libraries, code)), DirectoryKey(""));
    NothingOpens(LibraryChildren(cat, code), selected);
  }

  function OwnOpen(n: Node, selected: Option<Key>): set<Key> {
    if selected.Some? && IsFull(n) && ContainsKey(n.children, selected.value) then {n.key} else {}
  }

  /** What one node adds to the built codes and to the open keys. */
  lemma OneNode(n: Node, selected: Option<Key>)
    ensures FullCodes([n]) == OwnCode(n) + FullCodes(n.children)
    ensures OpenKeys([n], selected) == OwnOpen(n, selected) + OpenKeys(n.children, selected)
  {
    assert [n][1..] == [];
    if selected.None? {
      NoneOpens(n.children);
    }
  }

  lemma NoneOpens(nodes: seq<Node>)
    ensures OpenKeys(nodes, None) == {}
  {
  }

  /** The two sets that the recursion fills. */
  datatype Marks = Marks(visited: set<string>, expanded: set<Key>)

  /** The sets after building some nodes. */
  function After(m: Marks, nodes: seq<Node>, selected: Option<Key>): Marks {
    Marks(m.visited + FullCodes(nodes), m.expanded + OpenKeys(nodes, selected))
  }

  lemma AfterConcat(m: Marks, a: seq<Node>, b: seq<Node>, selected: Option<Key>)
    ensures After(After(m, a, selected), b, selected) == After(m, a + b, selected)
  {
    FullConcat(a, b);
    OpenConcat(a, b, selected);
    JoinSets(m.visited, FullCodes(a), FullCodes(b));
    JoinSets(m.expanded, OpenKeys(a, selected), OpenKeys(b, selected));
  }

  lemma JoinSets<T>(a: set<T>, b: set<T>, c: set<T>)
    ensures a + b + c == a + (b + c) == a + c + b
  {
  }

  lemma BuiltNode(cat: Catalog, d: Directory, ancestors: set<string>)
    requires d in cat.directories && d.code !in ancestors
    ensures var node := BuildDirectory(cat, d, ancestors);
      && OwnCode(node) == {d.code}
      && node.children ==
         BuildDirectories(cat, SubDirectories(cat, d.code), ancestors + {d.code}) + LibraryChildren(cat, d.code)
  {
  }

  lemma ParentAdds(n: Node, libraries: seq<Node>, selected: Option<Key>, below: seq<Node>)
    requires n.children == below + libraries
    requires FullCodes(libraries) == {} && OpenKeys(libraries, selected) == {}
    ensures FullCodes([n]) == OwnCode(n) + FullCodes(below)
    ensures OpenKeys([n], selected) == OwnOpen(n, selected) + OpenKeys(below, selected)
  {
    FullConcat(below, libraries);
    OpenConcat(below, libraries, selected);
    OneNode(n, selected);
  }

  /** What a built directory adds, in terms of what is below it. */
  lemma BelowAdds(cat: Catalog, d: Directory, ancestors: set<string>, selected: Option<Key>)
    requires d in cat.directories && d.code !in ancestors
    ensures var node := BuildDirectory(cat, d, ancestors);
      var below := BuildDirectories(cat, SubDirectories(cat, d.code), ancestors + {d.code});
      && FullCodes([node]) == {d.code} + FullCodes(below)
      && OpenKeys([node], selected) == OwnOpen(node, selected) + OpenKeys(below, selected)
  {
    LibrariesAddNothing(cat, d.code, selected);
    BuiltNode(cat, d, ancestors);
    ParentAdds(BuildDirectory(cat, d, ancestors), LibraryChildren(cat, d.code), selected,
               BuildDirectories(cat, SubDirectories(cat, d.code), ancestors + {d.code}));
  }

  /** Marks one directory visited, and expands its node when it holds the selection. */
  function Enter(m: Marks, code: string): Marks {
    m.(visited := m.visited + {code})
  }

  function Open(m: Marks, n: Node, selected: Option<Key>): Marks {
    m.(expanded := m.expanded + OwnOpen(n, selected))
  }

  /** Entering a directory, building what is below it and expanding it amounts to building its node. */
  lemma NodeAdds(cat: Catalog, d: Directory, ancestors: set<string>, selected: Option<Key>, m: Marks)
    requires d in cat.directories && d.code !in ancestors
    ensures var node := BuildDirectory(cat, d, ancestors);
      var below := BuildDirectories(cat, SubDirectories(cat, d.code), ancestors + {d.code});
      Open(After(Enter(m, d.code), below, selected), node, selected) == After(m, [node], selected)
  {
    var node := BuildDirectory(cat, d, ancestors);
    var below := BuildDirectories(cat, SubDirectories(cat, d.code), ancestors + {d.code});
    BelowAdds(cat, d, ancestors, selected);
    JoinSets(m.visited, {d.code}, FullCodes(below));
    JoinSets(m.expanded, OpenKeys(below, selected), OwnOpen(node, selected));
    JoinSets(m.expanded, OwnOpen(node, selected), OpenKeys(below, selected));
  }

  /** The note on a node changes neither set. */
  lemma AfterNoted(m: Marks, n: Node, notes: seq<Diagnostic>, selected: Option<Key>)
    ensures After(m, [n.(diagnostics := notes)], selected) == After(m, [n], selected)
  {
    OneNode(n, selected);
    OneNode(n.(diagnostics := notes), selected);
  }

  /** What adding the directories from place `i` on makes of the nodes. */
  function AddFrom(cat: Catalog, i: nat, nodes: seq<Node>): seq<Node>
    requires i <= |AllSorted(cat)|
  {
    AddUnreached(cat, AllSorted(cat)[i..], nodes)
  }

  lemma AddFromEnds(cat: Catalog, nodes: seq<Node>)
    ensures AddFrom(cat, 0, nodes) == AddUnreached(cat, AllSorted(cat), nodes)
    ensures AddFrom(cat, |AllSorted(cat)|, nodes) == nodes
  {
    assert AllSorted(cat)[0..] == AllSorted(cat);
  }

  lemma AddFromTurn(cat: Catalog, i: nat, nodes: seq<Node>)
    requires i < |AllSorted(cat)|
    ensures AllSorted(cat)[i] in cat.directories
    ensures AddFrom(cat, i, nodes) == AddFrom(cat, i + 1, AddOne(cat, AllSorted(cat)[i], nodes))
  {
    var ds := AllSorted(cat);
    assert ds[i] in ds && ds[i..][1..] == ds[i + 1..];
  }

  class Builder {
    const cat: Catalog
    const selected: Option<Key>
    var children: map<string, seq<Directory>>
    var roots: seq<Directory>
    var detached: set<string>
    var libraries: map<string, seq<Library>>
    var unclassified: seq<Library>
    var visited: set<string>
    var expanded: set<Key>

    constructor (cat: Catalog, selected: Option<Key>)
      ensures this.cat == cat && this.selected == selected
      ensures visited == {} && expanded == {}
      ensures children == map[] && roots == [] && detached == {} && libraries == map[] && unclassified == []
    {
      this.cat, this.selected := cat, selected;
      children, roots, detached, libraries, unclassified := map[], [], {}, map[], [];
      visited, expanded := {}, {};
    }

    ghost predicate Indexed()
      reads this`children, this`roots, this`detached, this`libraries, this`unclassified
    {
      && DirectoriesIn(cat, cat.directories, children, roots)
      && DetachedIn(cat, cat.directories, detached)
      && LibrariesIn(cat, cat.libraries, libraries, unclassified)
    }

    ghost function Now(): Marks
      reads this`visited, this`expanded
    {
      Marks(visited, expanded)
    }

    /** The marks left by building the nodes. */
    ghost predicate MarkedFor(nodes: seq<Node>)
      reads this`visited, this`expanded
    {
      Now() == After(Marks({}, {}), nodes, selected)
    }

    /** Groups the directories by parent. */
    method IndexDirectories()
      requires children == map[] && roots == [] && detached == {}
      modifies this`children, this`roots, this`detached
      ensures DirectoriesIn(cat, cat.directories, children, roots)
      ensures DetachedIn(cat, cat.directories, detached)
    {
      var i := 0;
      while i < |cat.directories|
        invariant 0 <= i <= |cat.directories|
        invariant DirectoriesIn(cat, cat.directories[..i], children, roots)
        invariant DetachedIn(cat, cat.directories[..i], detached)
      {
        var d := cat.directories[i];
        DetachedNext(cat, cat.directories[..i], detached, d);
        DirectoriesNext(cat, cat.directories[..i], children, roots, d);
        if HasParent(cat, d) {
          children := Append(children, d.parentCode.value, d);
        } else {
          roots := roots + [d];
          if d.parentCode.Some? && d.parentCode.value != "" {
            detached := detached + {d.code};
          }
        }
        assert cat.directories[..i + 1] == cat.directories[..i] + [d];
        i := i + 1;
      }
      assert cat.directories[..i] == cat.directories;
    }

    /** Groups the libraries by directory. */
    method IndexLibraries()
      requires libraries == map[] && unclassified == []
      modifies this`libraries, this`unclassified
      ensures LibrariesIn(cat, cat.libraries, libraries, unclassified)
    {
      var i := 0;
      while i < |cat.libraries|
        invariant 0 <= i <= |cat.libraries|
        invariant LibrariesIn(cat, cat.libraries[..i], libraries, unclassified)
      {
        var l := cat.libraries[i];
        LibrariesNext(cat, cat.libraries[..i], libraries, unclassified, l);
        if l.directoryCode in Codes(cat) {
          libraries := Append(libraries, l.directoryCode, l);
        } else {
          unclassified := unclassified + [l];
        }
        assert cat.libraries[..i + 1] == cat.libraries[..i] + [l];
        i := i + 1;
      }
      assert cat.libraries[..i] == cat.libraries;
    }

    /** The sorted subdirectories and library nodes of a directory, from the lookup maps. */
    method LookUp(code: string) returns (subs: seq<Directory>, own: seq<Node>)
      requires Indexed() && code in Codes(cat)
      ensures subs == SubDirectories(cat, code) && own == LibraryChildren(cat, code)
    {
      assert ListsChildren(cat, cat.directories, children, code) && ListsLibraries(cat, cat.libraries, libraries, code);
      subs := SortDirectories(cat, Lookup(children, code));
      own := BuildLibraries(cat, SortLibraries(cat, Lookup(libraries, code)));
    }

    /** Builds one directory, marks it visited, and expands it when the selection is below. */
    method Build(d: Directory, ancestors: set<string>) returns (node: Node)
      requires Indexed() && d in cat.directories && d.code !in ancestors
      modifies this`visited, this`expanded
      ensures node == BuildDirectory(cat, d, ancestors)
      ensures Now() == After(old(Now()), [node], selected)
      decreases |Codes(cat) - ancestors|, 0
    {
      visited := visited + {d.code};
      assert Now() == Enter(old(Now()), d.code);
      var within := ancestors + {d.code};
      Shrinks(cat, d.code, ancestors);
      var subs, own := LookUp(d.code);
      var below := BuildAll(subs, within);
      node := Node(DirectoryKey(d.code), d.name, DirectoryNode, below + own, Some([d.name, d.code]), None, false,
                   if d.code in detached then [ParentMissing] else []);
      ExpandOn(node);
      NodeAdds(cat, d, ancestors, selected, old(Now()));
    }

    /** Expands a directory when the selection is below it. */
    method ExpandOn(node: Node)
      requires IsFull(node)
      modifies this`expanded
      ensures Now() == Open(old(Now()), node, selected)
    {
      if selected.Some? && ContainsKey(node.children, selected.value) {
        expanded := expanded + {node.key};
      }
    }

    /** Builds a directory, or only names it when it is its own ancestor. */
    method BuildOrName(d: Directory, ancestors: set<string>) returns (node: Node)
      requires Indexed() && d in cat.directories
      modifies this`visited, this`expanded
      ensures node == if d.code in ancestors then CycleNode(d) else BuildDirectory(cat, d, ancestors)
      ensures Now() == After(old(Now()), [node], selected)
      decreases |Codes(cat) - ancestors|, 1
    {
      if d.code in ancestors {
        node := CycleNode(d);
        OneNode(node, selected);
      } else {
        node := Build(d, ancestors);
      }
    }

    method BuildAll(ds: seq<Directory>, ancestors: set<string>) returns (nodes: seq<Node>)
      requires Indexed() && forall d :: d in ds ==> d in cat.directories
      modifies this`visited, this`expanded
      ensures nodes == BuildDirectories(cat, ds, ancestors)
      ensures Now() == After(old(Now()), nodes, selected)
      decreases |Codes(cat) - ancestors|, 2 + |ds|
    {
      if ds == [] {
        return [];
      }
      var first := BuildOrName(ds[0], ancestors);
      var rest := BuildAll(ds[1..], ancestors);
      nodes := [first] + rest;
      AfterConcat(old(Now()), [first], rest, selected);
    }

    method IndexAll()
      requires children == map[] && roots == [] && detached == {} && libraries == map[] && unclassified == []
      modifies this`children, this`roots, this`detached, this`libraries, this`unclassified
      ensures Indexed()
    {
      IndexDirectories();
      IndexLibraries();
    }

    /** The whole tree: from the roots, then from what they do not reach, then the unclassified libraries. */
    method BuildTree(sourceId: Option<string>, focusId: Option<string>) returns (model: TreeModel)
      requires selected == SelectedKey(cat, sourceId)
      requires visited == {} && expanded == {}
      requires children == map[] && roots == [] && detached == {} && libraries == map[] && unclassified == []
      modifies this
      ensures model.nodes == Tree(cat)
      ensures model.selected == if selected.Some? && ContainsKey(Tree(cat), selected.value) then selected else None
      ensures model.expanded == Expanded(cat, selected, FocusedKey(cat, sourceId, focusId))
    {
      IndexAll();
      var first := BuildRoots();
      var reached := AddRest(first);
      var nodes := AddUnclassified(reached);
      model := Finish(nodes, FocusedKey(cat, sourceId, focusId));
    }

    /** Expands the library of the focused record, when it is in the tree, and selects the source. */
    method Finish(nodes: seq<Node>, focused: Option<Key>) returns (model: TreeModel)
      modifies this`expanded
      ensures model.nodes == nodes
      ensures model.selected == if selected.Some? && ContainsKey(nodes, selected.value) then selected else None
      ensures model.expanded == old(expanded) +
        if focused.Some? && ContainsKey(nodes, focused.value) then {focused.value} else {}
    {
      if focused.Some? && ContainsKey(nodes, focused.value) {
        expanded := expanded + {focused.value};
      }
      var kept := if selected.Some? && ContainsKey(nodes, selected.value) then selected else None;
      model := TreeModel(nodes, kept, expanded);
    }

    method BuildRoots() returns (nodes: seq<Node>)
      requires Indexed() && Now() == Marks({}, {})
      modifies this`visited, this`expanded
      ensures nodes == BuildDirectories(cat, Roots(cat), {})
      ensures Now() == After(Marks({}, {}), nodes, selected)
    {
      var sorted := SortDirectories(cat, roots);
      assert sorted == Roots(cat);
      nodes := BuildAll(sorted, {});
    }

    /** Adds the node of the libraries without a directory, when there are any. */
    method AddUnclassified(nodes: seq<Node>) returns (all: seq<Node>)
      requires Indexed() && nodes == DirectoryNodes(cat) && expanded == OpenKeys(nodes, selected)
      modifies this`expanded
      ensures all == Tree(cat) && expanded == Holders(cat, selected)
    {
      if unclassified == [] {
        return nodes;
      }
      var below := BuildLibraries(cat, SortLibraries(cat, unclassified));
      var node := Node(UnclassifiedKey, "未归类记录库", DiagnosticNode, below, None, None, false, [DirectoryMissing]);
      ExpandUnclassified(node);
      all := nodes + [node];
    }

    method ExpandUnclassified(node: Node)
      requires node == UnclassifiedNode(cat) && UnclassifiedAmong(cat, cat.libraries) != []
      requires expanded == OpenKeys(DirectoryNodes(cat), selected)
      modifies this`expanded
      ensures expanded == Holders(cat, selected)
    {
      if selected.Some? && ContainsKey(node.children, selected.value) {
        expanded := expanded + {UnclassifiedKey};
      }
    }

    /** Adds the directories that are not visited yet, each at the top. */
    method AddRest(first: seq<Node>) returns (nodes: seq<Node>)
      requires Indexed() && Now() == After(Marks({}, {}), first, selected)
      modifies this`visited, this`expanded
      ensures nodes == AddUnreached(cat, AllSorted(cat), first)
      ensures Now() == After(Marks({}, {}), nodes, selected)
    {
      nodes := first;
      var sorted := AllSorted(cat);
      var i := 0;
      while i < |sorted|
        invariant 0 <= i <= |sorted|
        invariant Indexed() && MarkedFor(nodes)
        invariant AddFrom(cat, i, nodes) == AddFrom(cat, 0, first)
      {
        AddFromTurn(cat, i, nodes);
        nodes := Reach(sorted[i], nodes);
        i := i + 1;
      }
      AddFromEnds(cat, first);
      AddFromEnds(cat, nodes);
    }

    /** Builds a directory at the top unless it was visited before. */
    method Reach(d: Directory, nodes: seq<Node>) returns (all: seq<Node>)
      requires Indexed() && d in cat.directories && MarkedFor(nodes)
      modifies this`visited, this`expanded
      ensures MarkedFor(all)
      ensures all == AddOne(cat, d, nodes)
    {
      if d.code in visited {
        return nodes;
      }
      var built := Build(d, {});
      var added := built.(diagnostics := [Unresolvable]);
      AfterNoted(After(Marks({}, {}), nodes, selected), built, [Unresolvable], selected);
      AfterConcat(Marks({}, {}), nodes, [added], selected);
      all := nodes + [added];
    }
  }

  /** When the selected library is in the tree, the expanded keys open the way to it. */
  lemma SelectionShown(cat: Catalog, sourceId: Option<string>, focused: Option<Key>)
    requires var key := SelectedKey(cat, sourceId); key.Some? && ContainsKey(Tree(cat), key.value)
    ensures var key := SelectedKey(cat, sourceId); Shown(Tree(cat), key.value, Expanded(cat, key, focused))
  {
    var key := SelectedKey(cat, sourceId);
    TreeInPlace(cat);
    HoldersOpen(cat, key);
    OpenShows(cat, None, Tree(cat), key.value, Expanded(cat, key, focused));
  }

  /** When the records of the source are loaded, its type is known and its library is in the tree, the
      expanded keys open the way to the focused record. */
  lemma FocusShown(cat: Catalog, sourceId: Option<string>, focusId: Option<string>)
    requires FocusLoaded(cat, sourceId, focusId)
    requires sourceId.value in cat.objectTypes && ContainsKey(Tree(cat), LibraryKey(sourceId.value))
    ensures Shown(Tree(cat), RecordKey(sourceId.value, focusId.value),
                  Expanded(cat, SelectedKey(cat, sourceId), FocusedKey(cat, sourceId, focusId)))
  {
    var t, open := sourceId.value, Expanded(cat, SelectedKey(cat, sourceId), FocusedKey(cat, sourceId, focusId));
    SelectionShown(cat, sourceId, FocusedKey(cat, sourceId, focusId));
    TreeInPlace(cat);
    FocusListed(cat, t, focusId.value, open);
    ShownInside(cat, None, Tree(cat), t, RecordKey(t, focusId.value), open);
  }

  lemma FocusListed(cat: Catalog, t: string, objectId: string, open: set<Key>)
    requires FocusLoaded(cat, Some(t), Some(objectId))
    ensures Shown(RecordChildren(t, RecordsOf(cat, t)), RecordKey(t, objectId), open)
  {
    var records := cat.records[t];
    var r :| r in records.items && r.typeCode == t && r.objectId == objectId;
    RecordListed(t, records.items, r, open);
    var nodes := RecordNodes(t, records.items);
    ShownConcat(nodes, RecordChildren(t, RecordsOf(cat, t))[|nodes|..], RecordKey(t, objectId), open);
    assert RecordChildren(t, RecordsOf(cat, t)) == nodes + RecordChildren(t, RecordsOf(cat, t))[|nodes|..];
  }

  /** The holders of a key are exactly what opens it, plus the unclassified node when that holds it. */
  lemma HoldersOpen(cat: Catalog, key: Option<Key>)
    requires key.Some? && key.value.LibraryKey?
    ensures OpenKeys(Tree(cat), key) <= Holders(cat, key)
    ensures UnclassifiedOpen(Tree(cat), key.value, Holders(cat, key))
  {
    var last := UnclassifiedNode(cat);
    OpenConcat(DirectoryNodes(cat), [last], key);
    BuiltLibraries(cat, SortLibraries(cat, UnclassifiedAmong(cat, cat.libraries)), DirectoryKey(""));
    OneNode(last, key);
    NothingOpens(last.children, key);
    UnclassifiedLast(cat);
  }

  ghost predicate OnlyDirectories(nodes: seq<Node>) {
    forall n :: n in nodes ==> n.key.DirectoryKey?
  }

  lemma {:induction false} BuiltAreDirectories(cat: Catalog, ds: seq<Directory>, ancestors: set<string>)
    requires forall d :: d in ds ==> d in cat.directories
    ensures OnlyDirectories(BuildDirectories(cat, ds, ancestors))
    decreases |ds|
  {
    if ds != [] {
      BuiltAreDirectories(cat, ds[1..], ancestors);
    }
  }

  lemma {:induction false} AddedAreDirectories(cat: Catalog, ds: seq<Directory>, nodes: seq<Node>)
    requires (forall d :: d in ds ==> d in cat.directories) && OnlyDirectories(nodes)
    ensures OnlyDirectories(AddUnreached(cat, ds, nodes))
    decreases |ds|
  {
    if ds != [] {
      if ds[0].code in FullCodes(nodes) {
        AddedAreDirectories(cat, ds[1..], nodes);
      } else {
        AddedAreDirectories(cat, ds[1..], nodes + [BuildDirectory(cat, ds[0], {}).(diagnostics := [Unresolvable])]);
      }
    }
  }

  /** Only the last node can be the unclassified one. */
  lemma UnclassifiedLast(cat: Catalog)
    ensures OnlyDirectories(DirectoryNodes(cat))
  {
    BuiltAreDirectories(cat, Roots(cat), {});
    AddedAreDirectories(cat, AllSorted(cat), BuildDirectories(cat, Roots(cat), {}));
  }
}
