/** Directories and libraries come out in their sort order, at every level of the tree. */
module CatalogTreeOrder {
  import opened Options
  import opened Sorting
  import opened CatalogTree
  import opened CatalogTreeTheorems

  function LibrariesUnder(cat: Catalog, code: string): seq<Library> {
    SortLibraries(cat, LibrariesAmong(cat.libraries, code))
  }

  // ---- one node

  /** The nodes stand for these directories, one each and in this order. */
  ghost predicate StandFor(nodes: seq<Node>, ds: seq<Directory>) {
    |nodes| == |ds| && forall i :: 0 <= i < |ds| ==> nodes[i].key == DirectoryKey(ds[i].code)
  }

  ghost predicate StandForLibraries(nodes: seq<Node>, ls: seq<Library>) {
    |nodes| == |ls| && forall i :: 0 <= i < |ls| ==> nodes[i].key == LibraryKey(ls[i].objectTypeCode)
  }

  /** Below a directory are its own directories and then its own libraries, each list complete, without
      repeats and in its sort order. */
  ghost predicate Arranged(cat: Catalog, code: string, nodes: seq<Node>) {
    var ds, ls := SubDirectories(cat, code), LibrariesUnder(cat, code);
    && InDirectoryOrder(cat, ds) && multiset(ds) == multiset(ChildrenAmong(cat, cat.directories, code))
    && InLibraryOrder(cat, ls) && multiset(ls) == multiset(LibrariesAmong(cat.libraries, code))
    && |nodes| == |ds| + |ls|
    && StandFor(nodes[..|ds|], ds) && StandForLibraries(nodes[|ds|..], ls)
  }

  /** Every directory that is built, anywhere in the nodes, is arranged. */
  ghost predicate InOrder(cat: Catalog, nodes: seq<Node>) {
    nodes == [] ||
    ((IsFull(nodes[0]) ==> Arranged(cat, nodes[0].key.code, nodes[0].children))
     && InOrder(cat, nodes[0].children) && InOrder(cat, nodes[1..]))
  }

  lemma {:induction false} BuiltKeys(cat: Catalog, ds: seq<Directory>, ancestors: set<string>)
    requires forall d :: d in ds ==> d in cat.directories
    ensures StandFor(BuildDirectories(cat, ds, ancestors), ds)
    decreases |ds|
  {
    if ds != [] {
      BuiltKeys(cat, ds[1..], ancestors);
      var rest := BuildDirectories(cat, ds[1..], ancestors);
      assert BuildDirectories(cat, ds, ancestors)[1..] == rest;
      forall i | 0 <= i < |ds|
        ensures BuildDirectories(cat, ds, ancestors)[i].key == DirectoryKey(ds[i].code)
      {
        if i > 0 {
          assert BuildDirectories(cat, ds, ancestors)[i] == rest[i - 1];
        }
      }
    }
  }

  lemma {:induction false} LibraryKeys(cat: Catalog, ls: seq<Library>)
    ensures StandForLibraries(BuildLibraries(cat, ls), ls)
  {
    if ls != [] {
      LibraryKeys(cat, ls[1..]);
      var rest := BuildLibraries(cat, ls[1..]);
      forall i | 0 <= i < |ls|
        ensures BuildLibraries(cat, ls)[i].key == LibraryKey(ls[i].objectTypeCode)
      {
        if i > 0 {
          assert BuildLibraries(cat, ls)[i] == rest[i - 1];
        }
      }
    }
  }

  lemma SubDirectoriesSorted(cat: Catalog, code: string)
    ensures InDirectoryOrder(cat, SubDirectories(cat, code))
    ensures multiset(SubDirectories(cat, code)) == multiset(ChildrenAmong(cat, cat.directories, code))
  {
    DirectoriesSorted(cat, ChildrenAmong(cat, cat.directories, code));
  }

  lemma DirectoryArranged(cat: Catalog, d: Directory, ancestors: set<string>)
    requires d in cat.directories && d.code !in ancestors
    ensures Arranged(cat, d.code, BuildDirectory(cat, d, ancestors).children)
  {
    var below := BuildDirectories(cat, SubDirectories(cat, d.code), ancestors + {d.code});
    SubDirectoriesSorted(cat, d.code);
    LibrariesSorted(cat, LibrariesAmong(cat.libraries, d.code));
    BuiltKeys(cat, SubDirectories(cat, d.code), ancestors + {d.code});
    LibraryKeys(cat, LibrariesUnder(cat, d.code));
    Halves(below, LibraryChildren(cat, d.code));
  }

  lemma Halves(a: seq<Node>, b: seq<Node>)
    ensures (a + b)[..|a|] == a && (a + b)[|a|..] == b
  {
  }

  // ---- the whole tree

  lemma {:induction false} NothingToOrder(cat: Catalog, nodes: seq<Node>)
    requires FullCodes(nodes) == {}
    ensures InOrder(cat, nodes)
    decreases nodes
  {
    if nodes != [] {
      assert OwnCode(nodes[0]) <= FullCodes(nodes) && FullCodes(nodes[0].children) <= FullCodes(nodes);
      assert FullCodes(nodes[1..]) <= FullCodes(nodes);
      assert OwnCode(nodes[0]) == {};
      NothingToOrder(cat, nodes[0].children);
      NothingToOrder(cat, nodes[1..]);
    }
  }

  lemma {:induction false} OrderConcat(cat: Catalog, a: seq<Node>, b: seq<Node>)
    requires InOrder(cat, a) && InOrder(cat, b)
    ensures InOrder(cat, a + b)
  {
    if a == [] {
      assert a + b == b;
    } else {
      assert (a + b)[1..] == a[1..] + b;
      OrderConcat(cat, a[1..], b);
    }
  }

  lemma LibrariesInOrder(cat: Catalog, ls: seq<Library>)
    ensures InOrder(cat, BuildLibraries(cat, ls))
  {
    BuiltLibraries(cat, ls, UnclassifiedKey);
    NothingToOrder(cat, BuildLibraries(cat, ls));
  }

  lemma OrderCons(cat: Catalog, n: Node, rest: seq<Node>)
    requires IsFull(n) ==> Arranged(cat, n.key.code, n.children)
    requires InOrder(cat, n.children) && InOrder(cat, rest)
    ensures InOrder(cat, [n] + rest)
  {
    assert ([n] + rest)[1..] == rest;
  }

  lemma {:induction false} DirectoryInOrder(cat: Catalog, d: Directory, ancestors: set<string>)
    requires d in cat.directories && d.code !in ancestors
    ensures InOrder(cat, BuildDirectory(cat, d, ancestors).children)
    decreases |Codes(cat) - ancestors|, 0
  {
    Shrinks(cat, d.code, ancestors);
    DirectoriesInOrder(cat, SubDirectories(cat, d.code), ancestors + {d.code});
    LibrariesInOrder(cat, LibrariesUnder(cat, d.code));
    OrderConcat(cat, BuildDirectories(cat, SubDirectories(cat, d.code), ancestors + {d.code}),
                LibraryChildren(cat, d.code));
  }

  lemma {:induction false} DirectoriesInOrder(cat: Catalog, ds: seq<Directory>, ancestors: set<string>)
    requires forall d :: d in ds ==> d in cat.directories
    ensures InOrder(cat, BuildDirectories(cat, ds, ancestors))
    decreases |Codes(cat) - ancestors|, 1 + |ds|
  {
    if ds != [] {
      var rest := BuildDirectories(cat, ds[1..], ancestors);
      DirectoriesInOrder(cat, ds[1..], ancestors);
      if ds[0].code in ancestors {
        OrderCons(cat, CycleNode(ds[0]), rest);
      } else {
        DirectoryInOrder(cat, ds[0], ancestors);
        DirectoryArranged(cat, ds[0], ancestors);
        OrderCons(cat, BuildDirectory(cat, ds[0], ancestors), rest);
      }
    }
  }

  /** The directories that are added after the roots. */
  function Added(cat: Catalog, ds: seq<Directory>, nodes: seq<Node>): seq<Directory>
    requires forall d :: d in ds ==> d in cat.directories
    decreases |ds|
  {
    if ds == [] then []
    else if ds[0].code in FullCodes(nodes) then Added(cat, ds[1..], nodes)
    else [ds[0]] + Added(cat, ds[1..], AddOne(cat, ds[0], nodes))
  }

  lemma {:induction false} AddedAmong(cat: Catalog, ds: seq<Directory>, nodes: seq<Node>, d: Directory)
    requires (forall d :: d in ds ==> d in cat.directories) && d in Added(cat, ds, nodes)
    ensures d in ds
    decreases |ds|
  {
    if ds[0].code in FullCodes(nodes) {
      AddedAmong(cat, ds[1..], nodes, d);
    } else if d != ds[0] {
      AddedAmong(cat, ds[1..], AddOne(cat, ds[0], nodes), d);
    }
  }

  lemma {:induction false} AddedSorted(cat: Catalog, ds: seq<Directory>, nodes: seq<Node>)
    requires forall d :: d in ds ==> d in cat.directories
    requires InDirectoryOrder(cat, ds)
    ensures InDirectoryOrder(cat, Added(cat, ds, nodes))
    decreases |ds|
  {
    if ds != [] {
      if ds[0].code in FullCodes(nodes) {
        AddedSorted(cat, ds[1..], nodes);
      } else {
        var later := Added(cat, ds[1..], AddOne(cat, ds[0], nodes));
        AddedSorted(cat, ds[1..], AddOne(cat, ds[0], nodes));
        forall k | 0 <= k < |later|
          ensures DirectoryBefore(cat, ds[0], later[k])
        {
          AddedAmong(cat, ds[1..], AddOne(cat, ds[0], nodes), later[k]);
          var i :| 0 <= i < |ds[1..]| && ds[1..][i] == later[k];
        }
      }
    }
  }

  /** Adding keeps what is there, in order, and appends nodes for the added directories. */
  lemma {:induction false} AddedNodes(cat: Catalog, ds: seq<Directory>, nodes: seq<Node>) returns (more: seq<Node>)
    requires (forall d :: d in ds ==> d in cat.directories) && InOrder(cat, nodes)
    ensures AddUnreached(cat, ds, nodes) == nodes + more
    ensures StandFor(more, Added(cat, ds, nodes)) && InOrder(cat, AddUnreached(cat, ds, nodes))
    decreases |ds|
  {
    if ds == [] {
      more := [];
      assert nodes + more == nodes;
    } else if ds[0].code in FullCodes(nodes) {
      more := AddedNodes(cat, ds[1..], nodes);
    } else {
      var built := BuildDirectory(cat, ds[0], {}).(diagnostics := [Unresolvable]);
      AddedInOrder(cat, ds[0], nodes);
      var rest := AddedNodes(cat, ds[1..], AddOne(cat, ds[0], nodes));
      more := [built] + rest;
      Regroup(nodes, [built], rest);
      StandForCons(built, rest, ds[0], Added(cat, ds[1..], AddOne(cat, ds[0], nodes)));
    }
  }

  lemma StandForCons(n: Node, rest: seq<Node>, d: Directory, ds: seq<Directory>)
    requires n.key == DirectoryKey(d.code) && StandFor(rest, ds)
    ensures StandFor([n] + rest, [d] + ds)
  {
  }

  lemma AddedInOrder(cat: Catalog, d: Directory, nodes: seq<Node>)
    requires d in cat.directories && InOrder(cat, nodes) && d.code !in FullCodes(nodes)
    ensures AddOne(cat, d, nodes) == nodes + [BuildDirectory(cat, d, {}).(diagnostics := [Unresolvable])]
    ensures InOrder(cat, AddOne(cat, d, nodes))
  {
    var built := BuildDirectory(cat, d, {}).(diagnostics := [Unresolvable]);
    DirectoryInOrder(cat, d, {});
    DirectoryArranged(cat, d, {});
    OrderCons(cat, built, []);
    assert [built] + [] == [built];
    OrderConcat(cat, nodes, [built]);
  }

  lemma RootsSorted(cat: Catalog)
    ensures InDirectoryOrder(cat, Roots(cat))
    ensures multiset(Roots(cat)) == multiset(RootsAmong(cat, cat.directories))
  {
    DirectoriesSorted(cat, RootsAmong(cat, cat.directories));
  }

  /** At the top are the roots in their order and then the directories no root leads to, in theirs. */
  lemma TopInOrder(cat: Catalog)
    ensures var roots, added := Roots(cat), Added(cat, AllSorted(cat), BuildDirectories(cat, Roots(cat), {}));
      && InDirectoryOrder(cat, roots) && multiset(roots) == multiset(RootsAmong(cat, cat.directories))
      && InDirectoryOrder(cat, added)
      && |DirectoryNodes(cat)| == |roots| + |added|
      && StandFor(DirectoryNodes(cat)[..|roots|], roots) && StandFor(DirectoryNodes(cat)[|roots|..], added)
  {
    var first := BuildDirectories(cat, Roots(cat), {});
    RootsSorted(cat);
    BuiltKeys(cat, Roots(cat), {});
    DirectoriesInOrder(cat, Roots(cat), {});
    DirectoriesSorted(cat, cat.directories);
    AddedSorted(cat, AllSorted(cat), first);
    var more := AddedNodes(cat, AllSorted(cat), first);
    Halves(first, more);
  }

  lemma {:induction false} BuiltNotes(cat: Catalog, ds: seq<Directory>, i: nat)
    requires (forall d :: d in ds ==> d in cat.directories) && i < |ds|
    ensures var nodes := BuildDirectories(cat, ds, {});
      i < |nodes| && nodes[i].diagnostics == Notes(cat, ds[i].code)
    decreases |ds|
  {
    if i > 0 {
      BuiltNotes(cat, ds[1..], i - 1);
    }
  }

  ghost predicate MarkedFrom(nodes: seq<Node>, n: nat) {
    forall i :: n <= i < |nodes| ==> nodes[i].diagnostics == [Unresolvable]
  }

  /** Adding keeps what is there, and marks what it adds. */
  lemma {:induction false} AddedMarked(cat: Catalog, ds: seq<Directory>, nodes: seq<Node>, n: nat)
    requires (forall d :: d in ds ==> d in cat.directories) && MarkedFrom(nodes, n) && n <= |nodes|
    ensures nodes <= AddUnreached(cat, ds, nodes) && MarkedFrom(AddUnreached(cat, ds, nodes), n)
    decreases |ds|
  {
    if ds != [] {
      AddedMarked(cat, ds[1..], AddOne(cat, ds[0], nodes), n);
    }
  }

  /** At the top, a root is noted exactly when its code is that of a directory whose parent is not there, and every
      directory no root leads to is marked as unresolvable. */
  lemma TopMarked(cat: Catalog, i: nat)
    requires i < |DirectoryNodes(cat)|
    ensures DirectoryNodes(cat)[i].diagnostics ==
      if i < |Roots(cat)| then (if NamesNobody(cat, Roots(cat)[i].code) then [ParentMissing] else [])
      else [Unresolvable]
  {
    var first := BuildDirectories(cat, Roots(cat), {});
    BuiltKeys(cat, Roots(cat), {});
    AddedMarked(cat, AllSorted(cat), first, |first|);
    if i < |Roots(cat)| {
      BuiltNotes(cat, Roots(cat), i);
      NotesTell(cat, Roots(cat)[i].code);
      assert DirectoryNodes(cat)[i] == first[i];
    }
  }

  /** Everywhere in the tree directories and libraries come out in their sort order. */
  lemma TreeInOrder(cat: Catalog)
    ensures InOrder(cat, Tree(cat))
  {
    DirectoriesInOrder(cat, Roots(cat), {});
    var more := AddedNodes(cat, AllSorted(cat), BuildDirectories(cat, Roots(cat), {}));
    LibrariesInOrder(cat, SortLibraries(cat, UnclassifiedAmong(cat, cat.libraries)));
    OrderCons(cat, UnclassifiedNode(cat), []);
    assert [UnclassifiedNode(cat)] + [] == [UnclassifiedNode(cat)];
    OrderConcat(cat, DirectoryNodes(cat), [UnclassifiedNode(cat)]);
  }

  /** And so do the unclassified libraries. */
  lemma UnclassifiedInOrder(cat: Catalog)
    ensures var ls := SortLibraries(cat, UnclassifiedAmong(cat, cat.libraries));
      && StandForLibraries(UnclassifiedNode(cat).children, ls)
      && InLibraryOrder(cat, ls) && multiset(ls) == multiset(UnclassifiedAmong(cat, cat.libraries))
  {
    LibrariesSorted(cat, UnclassifiedAmong(cat, cat.libraries));
    LibraryKeys(cat, SortLibraries(cat, UnclassifiedAmong(cat, cat.libraries)));
  }
}
