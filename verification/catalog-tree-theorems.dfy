/** Where directories and libraries appear in the catalog tree, and how often. */
module CatalogTreeTheorems {
  import opened Options
  import opened CatalogTree

  // ---- counting over concatenations and leaves

  lemma {:induction false} CountConcat(a: seq<Node>, b: seq<Node>, key: Key)
    ensures CountIn(a + b, key) == CountIn(a, key) + CountIn(b, key)
  {
    if a == [] {
      assert a + b == b;
    } else {
      assert (a + b)[1..] == a[1..] + b;
      CountConcat(a[1..], b, key);
    }
  }

  lemma {:induction false} FullConcat(a: seq<Node>, b: seq<Node>)
    ensures FullCodes(a + b) == FullCodes(a) + FullCodes(b)
  {
    if a == [] {
      assert a + b == b;
    } else {
      assert (a + b)[1..] == a[1..] + b;
      FullConcat(a[1..], b);
    }
  }

  /** Nodes without children whose keys name neither a directory nor a library. */
  ghost predicate RecordLevel(nodes: seq<Node>) {
    forall i :: 0 <= i < |nodes| ==>
      nodes[i].children == [] && !nodes[i].key.DirectoryKey? && !nodes[i].key.LibraryKey?
  }

  lemma {:induction false} RecordLevelHolds(nodes: seq<Node>, key: Key)
    requires RecordLevel(nodes)
    ensures FullCodes(nodes) == {}
    ensures key.DirectoryKey? || key.LibraryKey? ==> CountIn(nodes, key) == 0
  {
    if nodes != [] {
      RecordLevelHolds(nodes[1..], key);
    }
  }

  lemma {:induction false} RecordNodesLevel(typeCode: string, items: seq<Record>)
    ensures RecordLevel(RecordNodes(typeCode, items))
  {
    if items != [] {
      RecordNodesLevel(typeCode, items[1..]);
    }
  }

  lemma RecordChildrenLevel(typeCode: string, records: Option<LibraryRecords>)
    ensures RecordLevel(RecordChildren(typeCode, records))
  {
    if records.Some? {
      RecordNodesLevel(typeCode, records.value.items);
    }
  }

  function LibrariesOf(ls: seq<Library>, t: string): nat {
    if ls == [] then 0 else (if ls[0].objectTypeCode == t then 1 else 0) + LibrariesOf(ls[1..], t)
  }

  lemma {:induction false} BuiltLibraries(cat: Catalog, ls: seq<Library>, key: Key)
    ensures FullCodes(BuildLibraries(cat, ls)) == {}
    ensures key.DirectoryKey? ==> CountIn(BuildLibraries(cat, ls), key) == 0
    ensures key.LibraryKey? ==> CountIn(BuildLibraries(cat, ls), key) == LibrariesOf(ls, key.code)
  {
    if ls != [] {
      var l := ls[0];
      var records := RecordChildren(l.objectTypeCode, RecordsOf(cat, l.objectTypeCode));
      RecordChildrenLevel(l.objectTypeCode, RecordsOf(cat, l.objectTypeCode));
      RecordLevelHolds(records, key);
      BuiltLibraries(cat, ls[1..], key);
    }
  }

  // ---- every directory appears

  lemma {:induction false} UnreachedAdded(cat: Catalog, ds: seq<Directory>, nodes: seq<Node>)
    requires forall d :: d in ds ==> d in cat.directories
    ensures FullCodes(nodes) <= FullCodes(AddUnreached(cat, ds, nodes))
    ensures forall d :: d in ds ==> d.code in FullCodes(AddUnreached(cat, ds, nodes))
    decreases |ds|
  {
    if ds != [] {
      if ds[0].code in FullCodes(nodes) {
        UnreachedAdded(cat, ds[1..], nodes);
      } else {
        var added := BuildDirectory(cat, ds[0], {}).(diagnostics := [Unresolvable]);
        FullConcat(nodes, [added]);
        assert ds[0].code in FullCodes([added]);
        UnreachedAdded(cat, ds[1..], nodes + [added]);
      }
    }
  }

  /** Whatever the parent codes are, every directory is built somewhere in the tree. */
  lemma EveryDirectoryBuilt(cat: Catalog)
    ensures Codes(cat) <= FullCodes(Tree(cat))
  {
    UnreachedAdded(cat, AllSorted(cat), BuildDirectories(cat, Roots(cat), {}));
    forall code | code in Codes(cat)
      ensures code in FullCodes(DirectoryNodes(cat))
    {
      var d :| d in cat.directories && d.code == code;
      assert d in AllSorted(cat);
    }
    if UnclassifiedAmong(cat, cat.libraries) != [] {
      FullConcat(DirectoryNodes(cat), [UnclassifiedNode(cat)]);
    }
  }

  // ---- placement

  /** At the top, or below the node of the parent directory. */
  predicate Under(cat: Catalog, d: Directory, parent: Option<Key>) {
    parent.Some? ==> HasParent(cat, d) && parent.value == DirectoryKey(d.parentCode.value)
  }

  /** The code is that of a directory that names a parent which is not there. */
  ghost predicate NamesNobody(cat: Catalog, code: string) {
    exists d :: d in cat.directories && d.code == code && ParentGone(cat, d)
  }

  ghost predicate ParentGone(cat: Catalog, d: Directory) {
    d.parentCode !in {None, Some("")} && forall p :: p in cat.directories ==> Some(p.code) != d.parentCode
  }

  /** A directory that is only named is marked as unresolvable; one that is built is noted for a lost parent, or
      marked as unresolvable at the top. */
  ghost predicate Marked(cat: Catalog, parent: Option<Key>, code: string, n: Node) {
    if n.disabled then n.children == [] && n.diagnostics == [Unresolvable]
    else
      || (parent.None? && n.diagnostics == [Unresolvable])
      || n.diagnostics == if NamesNobody(cat, code) then [ParentMissing] else []
  }

  /** A library of a known type has its name, its records and their state; any other only shows that it is unknown. */
  predicate Labelled(cat: Catalog, t: string, n: Node) {
    && n.kind == LibraryNode
    && n.loadStatus == Some(if t in cat.records then cat.records[t].status else Unloaded)
    && if t in cat.objectTypes
       then n.title == cat.objectTypes[t] && !n.disabled && n.diagnostics == [] &&
            n.children == RecordChildren(t, RecordsOf(cat, t))
       else n.title == t && n.disabled && n.diagnostics == [TypeMissing] && n.children == []
  }

  /** A directory node stands for a catalog directory and sits at the top or under its own parent; a
      library node sits under its own directory, or under the unclassified node when that is unknown. */
  ghost predicate InPlace(cat: Catalog, parent: Option<Key>, n: Node) {
    match n.key
    case DirectoryKey(code) =>
      && n.kind == DirectoryNode && Marked(cat, parent, code, n)
      && (exists d :: d in cat.directories && d.code == code && d.name == n.title && Under(cat, d, parent))
    case LibraryKey(t) =>
      && Labelled(cat, t, n)
      && (exists l :: l in cat.libraries && l.objectTypeCode == t &&
            parent == Some(if l.directoryCode in Codes(cat) then DirectoryKey(l.directoryCode) else UnclassifiedKey))
    case UnclassifiedKey => parent == None
    case _ => parent.Some? && parent.value.LibraryKey?
  }

  ghost predicate AllInPlace(cat: Catalog, parent: Option<Key>, nodes: seq<Node>)
    decreases nodes
  {
    nodes == [] ||
    (InPlace(cat, parent, nodes[0]) && AllInPlace(cat, Some(nodes[0].key), nodes[0].children)
     && AllInPlace(cat, parent, nodes[1..]))
  }

  lemma NotesTell(cat: Catalog, code: string)
    ensures Notes(cat, code) == if NamesNobody(cat, code) then [ParentMissing] else []
  {
    if d :| d in cat.directories && d.code == code && LostParent(cat, d) {
      assert d.parentCode !in {None, Some("")};
    }
    if d :| d in cat.directories && d.code == code && ParentGone(cat, d) {
      assert LostParent(cat, d);
    }
  }

  lemma {:induction false} InPlaceConcat(cat: Catalog, parent: Option<Key>, a: seq<Node>, b: seq<Node>)
    requires AllInPlace(cat, parent, a) && AllInPlace(cat, parent, b)
    ensures AllInPlace(cat, parent, a + b)
  {
    if a == [] {
      assert a + b == b;
    } else {
      assert (a + b)[1..] == a[1..] + b;
      InPlaceConcat(cat, parent, a[1..], b);
    }
  }

  lemma {:induction false} RecordsInPlace(cat: Catalog, parent: Key, nodes: seq<Node>)
    requires parent.LibraryKey? && RecordLevel(nodes) && forall i :: 0 <= i < |nodes| ==> !nodes[i].key.UnclassifiedKey?
    ensures AllInPlace(cat, Some(parent), nodes)
  {
    if nodes != [] {
      RecordsInPlace(cat, parent, nodes[1..]);
    }
  }

  lemma {:induction false} RecordNodesClassified(typeCode: string, items: seq<Record>)
    ensures forall i :: 0 <= i < |RecordNodes(typeCode, items)| ==>
      !RecordNodes(typeCode, items)[i].key.UnclassifiedKey?
  {
    if items != [] {
      RecordNodesClassified(typeCode, items[1..]);
    }
  }

  lemma {:induction false} LibrariesInPlace(cat: Catalog, parent: Key, ls: seq<Library>)
    requires forall l :: l in ls ==>
      && l in cat.libraries
      && parent == if l.directoryCode in Codes(cat) then DirectoryKey(l.directoryCode) else UnclassifiedKey
    ensures AllInPlace(cat, Some(parent), BuildLibraries(cat, ls))
  {
    if ls != [] {
      var l := ls[0];
      var built := BuildLibrary(cat, l);
      var records := RecordsOf(cat, l.objectTypeCode);
      assert Labelled(cat, l.objectTypeCode, built);
      RecordChildrenLevel(l.objectTypeCode, records);
      if records.Some? {
        RecordNodesClassified(l.objectTypeCode, records.value.items);
      }
      RecordsInPlace(cat, built.key, RecordChildren(l.objectTypeCode, records));
      assert l in cat.libraries && l.objectTypeCode == built.key.code;
      LibrariesInPlace(cat, parent, ls[1..]);
    }
  }

  lemma SortedLibrariesSame(cat: Catalog, ls: seq<Library>)
    ensures forall l :: l in SortLibraries(cat, ls) <==> l in ls
  {
    assert forall l :: l in SortLibraries(cat, ls) <==> l in multiset(SortLibraries(cat, ls));
    assert forall l :: l in ls <==> l in multiset(ls);
  }

  lemma LibraryChildrenInPlace(cat: Catalog, code: string)
    requires code in Codes(cat)
    ensures AllInPlace(cat, Some(DirectoryKey(code)), LibraryChildren(cat, code))
  {
    var among := LibrariesAmong(cat.libraries, code);
    SortedLibrariesSame(cat, among);
    LibrariesInPlace(cat, DirectoryKey(code), SortLibraries(cat, among));
  }

  lemma {:induction false} DirectoryInPlace(cat: Catalog, d: Directory, ancestors: set<string>)
    requires d in cat.directories && d.code !in ancestors
    ensures AllInPlace(cat, Some(DirectoryKey(d.code)), BuildDirectory(cat, d, ancestors).children)
    decreases |Codes(cat) - ancestors|, 0
  {
    Shrinks(cat, d.code, ancestors);
    DirectoriesInPlace(cat, Some(DirectoryKey(d.code)), SubDirectories(cat, d.code), ancestors + {d.code});
    LibraryChildrenInPlace(cat, d.code);
    InPlaceConcat(cat, Some(DirectoryKey(d.code)),
                  BuildDirectories(cat, SubDirectories(cat, d.code), ancestors + {d.code}),
                  LibraryChildren(cat, d.code));
  }

  lemma {:induction false} DirectoriesInPlace(cat: Catalog, parent: Option<Key>, ds: seq<Directory>,
                                              ancestors: set<string>)
    requires forall d :: d in ds ==> d in cat.directories && Under(cat, d, parent)
    ensures AllInPlace(cat, parent, BuildDirectories(cat, ds, ancestors))
    decreases |Codes(cat) - ancestors|, 1 + |ds|
  {
    if ds != [] {
      var later := BuildDirectories(cat, ds[1..], ancestors);
      DirectoriesInPlace(cat, parent, ds[1..], ancestors);
      if ds[0].code in ancestors {
        ConsInPlace(cat, parent, CycleNode(ds[0]), later);
      } else {
        DirectoryInPlace(cat, ds[0], ancestors);
        NotesTell(cat, ds[0].code);
        ConsInPlace(cat, parent, BuildDirectory(cat, ds[0], ancestors), later);
      }
    }
  }

  lemma ConsInPlace(cat: Catalog, parent: Option<Key>, n: Node, later: seq<Node>)
    requires InPlace(cat, parent, n) && AllInPlace(cat, Some(n.key), n.children) && AllInPlace(cat, parent, later)
    ensures AllInPlace(cat, parent, [n] + later)
  {
    assert ([n] + later)[1..] == later;
  }

  lemma AddedInPlace(cat: Catalog, d: Directory)
    requires d in cat.directories
    ensures AllInPlace(cat, None, [BuildDirectory(cat, d, {}).(diagnostics := [Unresolvable])])
  {
    var added := BuildDirectory(cat, d, {}).(diagnostics := [Unresolvable]);
    DirectoryInPlace(cat, d, {});
    assert InPlace(cat, None, added);
    ConsInPlace(cat, None, added, []);
    assert [added] + [] == [added];
  }

  lemma {:induction false} UnreachedInPlace(cat: Catalog, ds: seq<Directory>, nodes: seq<Node>)
    requires (forall d :: d in ds ==> d in cat.directories) && AllInPlace(cat, None, nodes)
    ensures AllInPlace(cat, None, AddUnreached(cat, ds, nodes))
    decreases |ds|
  {
    if ds != [] {
      if ds[0].code in FullCodes(nodes) {
        UnreachedInPlace(cat, ds[1..], nodes);
      } else {
        var added := BuildDirectory(cat, ds[0], {}).(diagnostics := [Unresolvable]);
        AddedInPlace(cat, ds[0]);
        InPlaceConcat(cat, None, nodes, [added]);
        UnreachedInPlace(cat, ds[1..], nodes + [added]);
      }
    }
  }

  lemma UnclassifiedInPlace(cat: Catalog)
    ensures AllInPlace(cat, None, [UnclassifiedNode(cat)])
  {
    var unclassified := UnclassifiedAmong(cat, cat.libraries);
    SortedLibrariesSame(cat, unclassified);
    LibrariesInPlace(cat, UnclassifiedKey, SortLibraries(cat, unclassified));
  }

  /** Every node of the tree is in its place. */
  lemma TreeInPlace(cat: Catalog)
    ensures AllInPlace(cat, None, Tree(cat))
  {
    DirectoriesInPlace(cat, None, Roots(cat), {});
    UnreachedInPlace(cat, AllSorted(cat), BuildDirectories(cat, Roots(cat), {}));
    UnclassifiedInPlace(cat);
    InPlaceConcat(cat, None, DirectoryNodes(cat), [UnclassifiedNode(cat)]);
  }

  // ---- the selected library can be seen

  /** The key is met by opening only nodes of the given set. */
  predicate Shown(nodes: seq<Node>, key: Key, open: set<Key>) {
    nodes != [] &&
    (nodes[0].key == key || (nodes[0].key in open && Shown(nodes[0].children, key, open))
     || Shown(nodes[1..], key, open))
  }

  /** A library is nowhere below a library or a record. */
  lemma {:induction false} NoLibraryInside(cat: Catalog, parent: Key, nodes: seq<Node>, key: Key)
    requires AllInPlace(cat, Some(parent), nodes) && key.LibraryKey? && !parent.DirectoryKey? &&
      !parent.UnclassifiedKey?
    ensures !ContainsKey(nodes, key)
    decreases nodes
  {
    if nodes != [] {
      assert !nodes[0].key.LibraryKey? && !nodes[0].key.UnclassifiedKey?;
      assert !nodes[0].key.DirectoryKey?;
      NoLibraryInside(cat, nodes[0].key, nodes[0].children, key);
      NoLibraryInside(cat, parent, nodes[1..], key);
    }
  }

  /** An unclassified node that holds the key is open. */
  ghost predicate UnclassifiedOpen(nodes: seq<Node>, key: Key, open: set<Key>) {
    forall n :: n in nodes && n.key.UnclassifiedKey? && ContainsKey(n.children, key) ==> n.key in open
  }

  lemma {:induction false} NoneUnclassified(cat: Catalog, parent: Key, nodes: seq<Node>)
    requires AllInPlace(cat, Some(parent), nodes)
    ensures forall n :: n in nodes ==> !n.key.UnclassifiedKey?
  {
    if nodes != [] {
      NoneUnclassified(cat, parent, nodes[1..]);
    }
  }

  /** With the directories above it open, a library in the tree is shown. */
  lemma {:induction false} OpenShows(cat: Catalog, parent: Option<Key>, nodes: seq<Node>, key: Key, open: set<Key>)
    requires AllInPlace(cat, parent, nodes) && key.LibraryKey? && ContainsKey(nodes, key)
    requires OpenKeys(nodes, Some(key)) <= open
    requires UnclassifiedOpen(nodes, key, open)
    ensures Shown(nodes, key, open)
    decreases nodes
  {
    var n := nodes[0];
    if n.key != key {
      if ContainsKey(n.children, key) {
        if !n.key.DirectoryKey? && !n.key.UnclassifiedKey? {
          NoLibraryInside(cat, n.key, n.children, key);
        }
        assert n.key in open;
        NoneUnclassified(cat, n.key, n.children);
        OpenShows(cat, Some(n.key), n.children, key, open);
      } else {
        OpenShows(cat, parent, nodes[1..], key, open);
      }
    }
  }

  // ---- the focused record can be seen

  lemma {:induction false} ShownConcat(a: seq<Node>, b: seq<Node>, key: Key, open: set<Key>)
    requires Shown(a, key, open)
    ensures Shown(a + b, key, open)
  {
    assert (a + b)[0] == a[0] && (a + b)[1..] == a[1..] + b;
    if a[0].key != key && !(a[0].key in open && Shown(a[0].children, key, open)) {
      ShownConcat(a[1..], b, key, open);
    }
  }

  lemma {:induction false} RecordListed(typeCode: string, items: seq<Record>, r: Record, open: set<Key>)
    requires r in items
    ensures Shown(RecordNodes(typeCode, items), RecordKey(typeCode, r.objectId), open)
  {
    var rest := RecordNodes(typeCode, items[1..]);
    assert RecordNodes(typeCode, items)[1..] == rest;
    if r != items[0] {
      RecordListed(typeCode, items[1..], r, open);
    }
  }

  /** What an open library shows of its records is shown wherever the library is. */
  lemma {:induction false} ShownInside(cat: Catalog, parent: Option<Key>, nodes: seq<Node>, t: string, key: Key,
                                       open: set<Key>)
    requires AllInPlace(cat, parent, nodes) && Shown(nodes, LibraryKey(t), open)
    requires t in cat.objectTypes && LibraryKey(t) in open && Shown(RecordChildren(t, RecordsOf(cat, t)), key, open)
    ensures Shown(nodes, key, open)
    decreases nodes
  {
    var n := nodes[0];
    if n.key != LibraryKey(t) {
      if n.key in open && Shown(n.children, LibraryKey(t), open) {
        ShownInside(cat, Some(n.key), n.children, t, key, open);
      } else {
        ShownInside(cat, parent, nodes[1..], t, key, open);
      }
    }
  }
}
