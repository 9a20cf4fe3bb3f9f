/** What the catalog tree opens, and what it shows below a library, told by paths and places. */
module CatalogTreeLaws {
  import opened Options
  import opened CatalogTree
  import opened CatalogTreeTheorems
  import opened CatalogTreeBuilder
  import S = CatalogSearch

  // ---- below a library

  /** The node of one record: its key, and its code and name as search terms. */
  predicate RecordAt(typeCode: string, r: Record, n: Node) {
    && n.key == RecordKey(typeCode, r.objectId) && n.kind == RecordNode && !n.disabled && n.children == []
    && n.searchTerms == Some([if r.code.Some? then r.code.value else "", if r.name.Some? then r.name.value else ""])
  }

  /** A message that cannot be chosen. */
  predicate Message(typeCode: string, n: Node) {
    n.kind == DiagnosticNode && n.disabled && n.children == [] && n.key.StateKey? && n.key.typeCode == typeCode
  }

  lemma {:induction false} RecordsListed(typeCode: string, items: seq<Record>)
    ensures |RecordNodes(typeCode, items)| == |items|
    ensures forall i :: 0 <= i < |items| ==> RecordAt(typeCode, items[i], RecordNodes(typeCode, items)[i])
  {
    if items != [] {
      var rest := RecordNodes(typeCode, items[1..]);
      RecordsListed(typeCode, items[1..]);
      forall i | 0 < i < |items|
        ensures RecordAt(typeCode, items[i], RecordNodes(typeCode, items)[i])
      {
        assert RecordNodes(typeCode, items)[i] == rest[i - 1] && items[i] == items[1..][i - 1];
      }
    }
  }

  /** Without loaded records there is one message; after a failure there is one action to try again, with the error
      as its title. */
  lemma UnloadedChildren(typeCode: string, records: Option<LibraryRecords>)
    requires records.None? || records.value.status != Loaded
    ensures var nodes := RecordChildren(typeCode, records);
      && |nodes| == 1
      && if records.Some? && records.value.status == Failed
         then nodes[0].key == RetryKey(typeCode) && nodes[0].kind == ActionNode && !nodes[0].disabled &&
              (records.value.error.Some? ==> nodes[0].title == records.value.error.value)
         else Message(typeCode, nodes[0])
  {
  }

  /** Loaded records come first, one node each and in their order, or a message when there are none; behind them,
      exactly when there is a next page, an action that loads it. */
  lemma LoadedChildren(typeCode: string, records: LibraryRecords)
    requires records.status == Loaded
    ensures var nodes, items := RecordChildren(typeCode, Some(records)), records.items;
      var shown := if items == [] then 1 else |items|;
      && |nodes| == shown + (if records.nextPage.Some? then 1 else 0)
      && (items == [] ==> Message(typeCode, nodes[0]))
      && (forall i :: 0 <= i < |items| ==> RecordAt(typeCode, items[i], nodes[i]))
      && (records.nextPage.Some? ==>
          nodes[shown].key == MoreKey(typeCode, records.nextPage.value) && nodes[shown].kind == ActionNode &&
          !nodes[shown].disabled)
  {
    RecordsListed(typeCode, records.items);
  }

  /** A record shows nothing when its name is an empty text, or when it has no name and its code is one. */
  lemma BlankLabelExactly(r: Record)
    ensures RecordLabel(r) == "" <==> r.name == Some("") || (r.name.None? && r.code == Some(""))
  {
  }

  /** A record with both shows both; with one of them, that one. */
  lemma LabelExactly(r: Record, code: string, name: string)
    ensures r.code == Some(code) && r.name == Some(name) && code != "" && name != "" ==>
      RecordLabel(r) == code + " · " + name
    ensures r.code in {None, Some("")} && r.name == Some(name) ==> RecordLabel(r) == name
    ensures r.code == Some(code) && r.name.None? ==> RecordLabel(r) == code
  {
  }

  // ---- what holds a key

  /** The path leads to the key. */
  predicate LeadsTo(nodes: seq<Node>, path: seq<Node>, key: Key) {
    path != [] && S.HasPath(nodes, path) && path[|path| - 1].key == key
  }

  lemma PathDown(nodes: seq<Node>, n: Node, below: seq<Node>, key: Key)
    requires nodes != [] && nodes[0] == n && LeadsTo(n.children, below, key)
    ensures LeadsTo(nodes, [S.Shell(n)] + below, key)
  {
    assert ([S.Shell(n)] + below)[1..] == below;
  }

  lemma {:induction false} KeyPath(nodes: seq<Node>, key: Key) returns (path: seq<Node>)
    requires ContainsKey(nodes, key)
    ensures LeadsTo(nodes, path, key)
  {
    if nodes[0].key == key {
      path := [S.Shell(nodes[0])];
    } else if ContainsKey(nodes[0].children, key) {
      var below := KeyPath(nodes[0].children, key);
      PathDown(nodes, nodes[0], below, key);
      path := [S.Shell(nodes[0])] + below;
    } else {
      path := KeyPath(nodes[1..], key);
    }
  }

  lemma {:induction false} PathKey(nodes: seq<Node>, path: seq<Node>, key: Key)
    requires LeadsTo(nodes, path, key)
    ensures ContainsKey(nodes, key)
    decreases |path|, |nodes|
  {
    if S.HasPath(nodes[1..], path) {
      PathKey(nodes[1..], path, key);
    } else if |path| > 1 {
      PathKey(nodes[0].children, path[1..], key);
    }
  }

  /** A key is in the tree exactly when a path leads to it. */
  lemma KeyExactly(nodes: seq<Node>, key: Key)
    ensures ContainsKey(nodes, key) <==> exists path :: LeadsTo(nodes, path, key)
  {
    if ContainsKey(nodes, key) {
      var path := KeyPath(nodes, key);
    }
    forall path | LeadsTo(nodes, path, key)
      ensures ContainsKey(nodes, key)
    {
      PathKey(nodes, path, key);
    }
  }

  /** Above the end of the path stands a node with this key that is not disabled. */
  predicate HoldsAt(nodes: seq<Node>, path: seq<Node>, i: nat, e: Key, key: Key) {
    LeadsTo(nodes, path, key) && i < |path| - 1 && path[i].key == e && !path[i].disabled
  }

  ghost predicate Holds(nodes: seq<Node>, e: Key, key: Key) {
    exists path, i :: HoldsAt(nodes, path, i, e, key)
  }

  lemma HoldsDown(nodes: seq<Node>, n: Node, below: seq<Node>, i: nat, e: Key, key: Key)
    requires nodes != [] && nodes[0] == n && HoldsAt(n.children, below, i, e, key)
    ensures HoldsAt(nodes, [S.Shell(n)] + below, i + 1, e, key)
  {
    PathDown(nodes, n, below, key);
    assert ([S.Shell(n)] + below)[i + 1] == below[i];
  }

  lemma {:induction false} OpenHolds(nodes: seq<Node>, e: Key, key: Key)
    requires e in OpenKeys(nodes, Some(key))
    ensures Holds(nodes, e, key) && e.DirectoryKey?
  {
    var n := nodes[0];
    if IsFull(n) && ContainsKey(n.children, key) && n.key == e {
      var below := KeyPath(n.children, key);
      PathDown(nodes, n, below, key);
      assert HoldsAt(nodes, [S.Shell(n)] + below, 0, e, key);
    } else if e in OpenKeys(n.children, Some(key)) {
      OpenHolds(n.children, e, key);
      var below, i :| HoldsAt(n.children, below, i, e, key);
      HoldsDown(nodes, n, below, i, e, key);
    } else {
      OpenHolds(nodes[1..], e, key);
      var path, i :| HoldsAt(nodes[1..], path, i, e, key);
      assert HoldsAt(nodes, path, i, e, key);
    }
  }

  lemma {:induction false} HoldsOpen(nodes: seq<Node>, path: seq<Node>, i: nat, e: Key, key: Key)
    requires HoldsAt(nodes, path, i, e, key) && e.DirectoryKey?
    ensures e in OpenKeys(nodes, Some(key))
    decreases |path|, |nodes|
  {
    if S.HasPath(nodes[1..], path) {
      HoldsOpen(nodes[1..], path, i, e, key);
    } else if i == 0 {
      PathKey(nodes[0].children, path[1..], key);
    } else {
      HoldsOpen(nodes[0].children, path[1..], i - 1, e, key);
    }
  }

  /** Below the top, no node is the unclassified one. */
  lemma {:induction false} PathClassified(cat: Catalog, parent: Option<Key>, nodes: seq<Node>, path: seq<Node>, i: nat)
    requires AllInPlace(cat, parent, nodes) && path != [] && S.HasPath(nodes, path) && i < |path|
    requires i > 0 || parent.Some?
    ensures !path[i].key.UnclassifiedKey?
    decreases |path|, |nodes|
  {
    if S.HasPath(nodes[1..], path) {
      PathClassified(cat, parent, nodes[1..], path, i);
    } else if i > 0 {
      PathClassified(cat, Some(nodes[0].key), nodes[0].children, path[1..], i - 1);
    }
  }

  lemma {:induction false} PathHead(nodes: seq<Node>, path: seq<Node>)
    requires path != [] && S.HasPath(nodes, path)
    ensures exists n :: n in nodes && Through(n, path)
  {
    if S.HasPath(nodes[1..], path) {
      PathHead(nodes[1..], path);
    } else {
      assert nodes[0] in nodes && Through(nodes[0], path);
    }
  }

  /** The path starts with this node and goes on below it. */
  predicate Through(n: Node, path: seq<Node>)
    requires path != []
  {
    S.Shell(n) == path[0] && (|path| == 1 || S.HasPath(n.children, path[1..]))
  }

  /** At the top there is no other unclassified node. */
  ghost predicate OnlyOne(nodes: seq<Node>, last: Node) {
    forall n :: n in nodes && n.key.UnclassifiedKey? ==> n == last
  }

  /** What an unclassified node holds is below that one node. */
  lemma UnclassifiedTop(cat: Catalog, nodes: seq<Node>, last: Node, path: seq<Node>, i: nat, key: Key)
    requires AllInPlace(cat, None, nodes) && OnlyOne(nodes, last)
    requires HoldsAt(nodes, path, i, UnclassifiedKey, key)
    ensures last in nodes && ContainsKey(last.children, key)
  {
    if i > 0 {
      PathClassified(cat, None, nodes, path, i);
    }
    PathHead(nodes, path);
    var n :| n in nodes && Through(n, path);
    assert n.key == path[0].key;
    PathKey(n.children, path[1..], key);
  }

  lemma UnclassifiedBelow(nodes: seq<Node>, last: Node, key: Key)
    requires last.key == UnclassifiedKey && !last.disabled && ContainsKey(last.children, key)
    ensures Holds(nodes + [last], UnclassifiedKey, key)
  {
    var below := KeyPath(last.children, key);
    PathDown([last], last, below, key);
    S.PathConcat(nodes, [last], [S.Shell(last)] + below);
    assert HoldsAt(nodes + [last], [S.Shell(last)] + below, 0, UnclassifiedKey, key);
  }

  lemma TreeOnlyOne(cat: Catalog)
    ensures OnlyOne(Tree(cat), UnclassifiedNode(cat))
    ensures UnclassifiedNode(cat) in Tree(cat) <==> UnclassifiedAmong(cat, cat.libraries) != []
  {
    UnclassifiedLast(cat);
  }

  lemma UnclassifiedHolds(cat: Catalog, key: Key)
    ensures Holds(Tree(cat), UnclassifiedKey, key) <==>
      UnclassifiedAmong(cat, cat.libraries) != [] && ContainsKey(UnclassifiedNode(cat).children, key)
  {
    var nodes, last := Tree(cat), UnclassifiedNode(cat);
    TreeInPlace(cat);
    TreeOnlyOne(cat);
    if UnclassifiedAmong(cat, cat.libraries) != [] && ContainsKey(last.children, key) {
      UnclassifiedBelow(DirectoryNodes(cat), last, key);
    }
    if path, i :| HoldsAt(nodes, path, i, UnclassifiedKey, key) {
      UnclassifiedTop(cat, nodes, last, path, i, key);
    }
  }

  /** The nodes that are held open for a key are those directories, and the unclassified node, that hold it. */
  lemma HoldersExactly(cat: Catalog, e: Key, key: Key)
    requires key.LibraryKey?
    ensures e in Holders(cat, Some(key)) <==> (e.DirectoryKey? || e.UnclassifiedKey?) && Holds(Tree(cat), e, key)
  {
    var last := UnclassifiedNode(cat);
    UnclassifiedHolds(cat, key);
    OpenConcat(DirectoryNodes(cat), [last], Some(key));
    NothingOpensLast(cat, key);
    if e in OpenKeys(Tree(cat), Some(key)) {
      OpenHolds(Tree(cat), e, key);
    }
    if e.DirectoryKey? && Holds(Tree(cat), e, key) {
      var path, i :| HoldsAt(Tree(cat), path, i, e, key);
      HoldsOpen(Tree(cat), path, i, e, key);
    }
  }

  lemma NothingOpensLast(cat: Catalog, key: Key)
    ensures OpenKeys([UnclassifiedNode(cat)], Some(key)) == {}
  {
    var last := UnclassifiedNode(cat);
    BuiltLibraries(cat, SortLibraries(cat, UnclassifiedAmong(cat, cat.libraries)), DirectoryKey(""));
    OneNode(last, Some(key));
    NothingOpens(last.children, Some(key));
  }

  /** The focused record is among the loaded ones of its library. */
  ghost predicate RecordLoaded(cat: Catalog, t: string, objectId: string) {
    && t != "" && objectId != "" && t in cat.records && cat.records[t].status == Loaded
    && exists i :: 0 <= i < |cat.records[t].items| && cat.records[t].items[i].typeCode == t &&
        cat.records[t].items[i].objectId == objectId
  }

  /** Exactly these keys are expanded: what holds the library of the source, when its type is known; and that library
      itself, when it is in the tree and the focused record is loaded. */
  lemma ExpandedExactly(cat: Catalog, t: string, focusId: Option<string>, e: Key)
    ensures e in Expanded(cat, SelectedKey(cat, Some(t)), FocusedKey(cat, Some(t), focusId)) <==>
      || (t != "" && t in cat.objectTypes && (e.DirectoryKey? || e.UnclassifiedKey?) &&
          Holds(Tree(cat), e, LibraryKey(t)))
      || (focusId.Some? && RecordLoaded(cat, t, focusId.value) && e == LibraryKey(t) && ContainsKey(Tree(cat), e))
  {
    if t != "" && t in cat.objectTypes {
      HoldersExactly(cat, e, LibraryKey(t));
    } else {
      NoneOpens(DirectoryNodes(cat));
    }
    FocusTold(cat, t, focusId);
  }

  lemma FocusTold(cat: Catalog, t: string, focusId: Option<string>)
    ensures FocusedKey(cat, Some(t), focusId) ==
      if focusId.Some? && RecordLoaded(cat, t, focusId.value) then Some(LibraryKey(t)) else None
  {
  }

  /** Without a source nothing is selected or expanded. */
  lemma NothingExpanded(cat: Catalog, focusId: Option<string>)
    ensures SelectedKey(cat, None).None? && Expanded(cat, None, FocusedKey(cat, None, focusId)) == {}
  {
    NoneOpens(DirectoryNodes(cat));
  }

  /** The library of the source is selected, and the way to it is open, when its type is known and it is in the tree;
      the way to the focused record is open too, when that is loaded. */
  lemma SourceShown(cat: Catalog, t: string, objectId: string)
    requires t != "" && t in cat.objectTypes && ContainsKey(Tree(cat), LibraryKey(t))
    ensures var key, focused := SelectedKey(cat, Some(t)), FocusedKey(cat, Some(t), Some(objectId));
      && key == Some(LibraryKey(t))
      && Shown(Tree(cat), LibraryKey(t), Expanded(cat, key, focused))
      && (RecordLoaded(cat, t, objectId) ==>
          Shown(Tree(cat), RecordKey(t, objectId), Expanded(cat, key, focused)))
  {
    SelectionShown(cat, Some(t), FocusedKey(cat, Some(t), Some(objectId)));
    if RecordLoaded(cat, t, objectId) {
      FocusShown(cat, Some(t), Some(objectId));
    }
  }
}
