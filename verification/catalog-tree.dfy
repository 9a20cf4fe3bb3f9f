/** The catalog navigation tree, built from directories that name their parents, with cycles and lost parents. */
module CatalogTree {
  import opened Options
  import opened Sorting

  // ---- the input

  datatype Directory = Directory(code: string, name: string, parentCode: Option<string>, sortOrder: int)

  datatype Library = Library(objectTypeCode: string, directoryCode: string, sortOrder: int)

  datatype Record = Record(objectId: string, typeCode: string, code: Option<string>, name: Option<string>)

  datatype LoadStatus = Unloaded | Loading | Failed | Loaded

  datatype LibraryRecords = LibraryRecords(
    status: LoadStatus, items: seq<Record>, nextPage: Option<string>, error: Option<string>)

  /** `objectTypes` gives the name of each known type; `collate` stands for the order of `localeCompare`. */
  datatype Catalog = Catalog(
    directories: seq<Directory>, libraries: seq<Library>, objectTypes: map<string, string>,
    records: map<string, LibraryRecords>, collate: string -> int)

  // ---- the tree

  datatype Key =
    | DirectoryKey(code: string)
    | LibraryKey(code: string)
    | RecordKey(typeCode: string, objectId: string)
    | StateKey(typeCode: string, text: string)
    | RetryKey(typeCode: string)
    | MoreKey(typeCode: string, page: string)
    | UnclassifiedKey

  datatype Kind = DirectoryNode | LibraryNode | RecordNode | ActionNode | DiagnosticNode

  datatype Diagnostic = Unresolvable | ParentMissing | TypeMissing | DirectoryMissing

  datatype Node = Node(
    key: Key, title: string, kind: Kind, children: seq<Node>, searchTerms: Option<seq<string>>,
    loadStatus: Option<LoadStatus>, disabled: bool, diagnostics: seq<Diagnostic>)

  // ---- directories and their parents

  function Codes(cat: Catalog): set<string> {
    set d | d in cat.directories :: d.code
  }

  /** The parent code is given, not empty and known. */
  predicate HasParent(cat: Catalog, d: Directory) {
    d.parentCode.Some? && d.parentCode.value != "" && d.parentCode.value in Codes(cat)
  }

  predicate IsChildOf(cat: Catalog, d: Directory, code: string) {
    HasParent(cat, d) && d.parentCode.value == code
  }

  /** A parent code is given but not known. */
  predicate LostParent(cat: Catalog, d: Directory) {
    !HasParent(cat, d) && d.parentCode.Some? && d.parentCode.value != ""
  }

  /** The other directory is the one that this one names as its parent; an empty code names none. */
  predicate ParentIs(cat: Catalog, d: Directory, p: Directory) {
    p in cat.directories && p.code != "" && d.parentCode == Some(p.code)
  }

  /** The parent code of a directory leads to another one, or is lost, or names none. */
  lemma ParentExactly(cat: Catalog, d: Directory, code: string)
    ensures HasParent(cat, d) <==> exists p :: ParentIs(cat, d, p)
    ensures IsChildOf(cat, d, code) <==> exists p :: ParentIs(cat, d, p) && p.code == code
    ensures LostParent(cat, d) <==> d.parentCode !in {None, Some("")} && forall p :: !ParentIs(cat, d, p)
  {
    if HasParent(cat, d) {
      var p :| p in cat.directories && p.code == d.parentCode.value;
      assert ParentIs(cat, d, p);
    }
  }

  /** The code is noted for a lost parent, also for other directories that share it. */
  predicate DetachedAmong(cat: Catalog, ds: seq<Directory>, code: string) {
    exists d :: d in ds && d.code == code && LostParent(cat, d)
  }

  function Notes(cat: Catalog, code: string): seq<Diagnostic> {
    if DetachedAmong(cat, cat.directories, code) then [ParentMissing] else []
  }

  function ChildrenAmong(cat: Catalog, ds: seq<Directory>, code: string): (r: seq<Directory>)
    ensures forall d :: d in r <==> d in ds && IsChildOf(cat, d, code)
  {
    if ds == [] then []
    else (if IsChildOf(cat, ds[0], code) then [ds[0]] else []) + ChildrenAmong(cat, ds[1..], code)
  }

  function RootsAmong(cat: Catalog, ds: seq<Directory>): (r: seq<Directory>)
    ensures forall d :: d in r <==> d in ds && !HasParent(cat, d)
  {
    if ds == [] then []
    else (if HasParent(cat, ds[0]) then [] else [ds[0]]) + RootsAmong(cat, ds[1..])
  }

  function LibrariesAmong(libraries: seq<Library>, code: string): (r: seq<Library>)
    ensures forall l :: l in r <==> l in libraries && l.directoryCode == code
  {
    if libraries == [] then []
    else (if libraries[0].directoryCode == code then [libraries[0]] else []) + LibrariesAmong(libraries[1..], code)
  }

  function UnclassifiedAmong(cat: Catalog, libraries: seq<Library>): (r: seq<Library>)
    ensures forall l :: l in r <==> l in libraries && l.directoryCode !in Codes(cat)
  {
    if libraries == [] then []
    else (if libraries[0].directoryCode in Codes(cat) then [] else [libraries[0]]) +
         UnclassifiedAmong(cat, libraries[1..])
  }

  // ---- sorting

  predicate DirectoryBefore(cat: Catalog, a: Directory, b: Directory) {
    a.sortOrder < b.sortOrder || (a.sortOrder == b.sortOrder && cat.collate(a.code) <= cat.collate(b.code))
  }

  function DirectoryOrder(cat: Catalog): (Directory, Directory) -> bool {
    (a, b) => DirectoryBefore(cat, a, b)
  }

  function SortDirectories(cat: Catalog, ds: seq<Directory>): (r: seq<Directory>)
    ensures multiset(r) == multiset(ds)
  {
    Sort(ds, DirectoryOrder(cat))
  }

  predicate LibraryBefore(cat: Catalog, a: Library, b: Library) {
    a.sortOrder < b.sortOrder ||
    (a.sortOrder == b.sortOrder && cat.collate(a.objectTypeCode) <= cat.collate(b.objectTypeCode))
  }

  function LibraryOrder(cat: Catalog): (Library, Library) -> bool {
    (a, b) => LibraryBefore(cat, a, b)
  }

  function SortLibraries(cat: Catalog, ls: seq<Library>): (r: seq<Library>)
    ensures multiset(r) == multiset(ls)
  {
    Sort(ls, LibraryOrder(cat))
  }

  /** Sort orders ascend, and where they are equal codes do. */
  ghost predicate InDirectoryOrder(cat: Catalog, ds: seq<Directory>) {
    forall i, j :: 0 <= i < j < |ds| ==>
      && ds[i].sortOrder <= ds[j].sortOrder
      && (ds[i].sortOrder == ds[j].sortOrder ==> cat.collate(ds[i].code) <= cat.collate(ds[j].code))
  }

  /** Sort orders ascend, and where they are equal type codes do. */
  ghost predicate InLibraryOrder(cat: Catalog, ls: seq<Library>) {
    forall i, j :: 0 <= i < j < |ls| ==>
      && ls[i].sortOrder <= ls[j].sortOrder
      && (ls[i].sortOrder == ls[j].sortOrder ==>
          cat.collate(ls[i].objectTypeCode) <= cat.collate(ls[j].objectTypeCode))
  }

  /** Directories come out by their sort order, then by code, and none is lost or doubled. */
  lemma DirectoriesSorted(cat: Catalog, ds: seq<Directory>)
    ensures InDirectoryOrder(cat, SortDirectories(cat, ds))
    ensures multiset(SortDirectories(cat, ds)) == multiset(ds)
  {
    SortSorted(ds, DirectoryOrder(cat));
    DirectoryOrderTold(cat, SortDirectories(cat, ds));
  }

  lemma DirectoryOrderTold(cat: Catalog, ds: seq<Directory>)
    ensures Sorted(ds, DirectoryOrder(cat)) <==> InDirectoryOrder(cat, ds)
  {
    if Sorted(ds, DirectoryOrder(cat)) {
      forall i, j | 0 <= i < j < |ds|
        ensures DirectoryBefore(cat, ds[i], ds[j])
      {
        assert DirectoryOrder(cat)(ds[i], ds[j]);
      }
    }
  }

  lemma LibrariesSorted(cat: Catalog, ls: seq<Library>)
    ensures InLibraryOrder(cat, SortLibraries(cat, ls))
    ensures multiset(SortLibraries(cat, ls)) == multiset(ls)
  {
    SortSorted(ls, LibraryOrder(cat));
    LibraryOrderTold(cat, SortLibraries(cat, ls));
  }

  lemma LibraryOrderTold(cat: Catalog, ls: seq<Library>)
    ensures Sorted(ls, LibraryOrder(cat)) <==> InLibraryOrder(cat, ls)
  {
    if Sorted(ls, LibraryOrder(cat)) {
      forall i, j | 0 <= i < j < |ls|
        ensures LibraryBefore(cat, ls[i], ls[j])
      {
        assert LibraryOrder(cat)(ls[i], ls[j]);
      }
    }
  }

  // ---- nodes

  function RecordLabel(r: Record): string {
    if r.code.Some? && r.code.value != "" && r.name.Some? && r.name.value != "" then r.code.value + " · " + r.name.value
    else if r.name.Some? then r.name.value
    else if r.code.Some? then r.code.value
    else "未命名记录"
  }

  function Leaf(key: Key, title: string, kind: Kind, terms: Option<seq<string>>, disabled: bool): Node {
    Node(key, title, kind, [], terms, None, disabled, [])
  }

  function OrEmpty(s: Option<string>): string {
    if s.Some? then s.value else ""
  }

  function RecordNodes(typeCode: string, items: seq<Record>): seq<Node> {
    if items == [] then []
    else
      var r := items[0];
      [Leaf(RecordKey(typeCode, r.objectId), RecordLabel(r), RecordNode,
            Some([OrEmpty(r.code), OrEmpty(r.name)]), false)]
      + RecordNodes(typeCode, items[1..])
  }

  function StateNode(typeCode: string, text: string): Node {
    Leaf(StateKey(typeCode, text), text, DiagnosticNode, None, true)
  }

  function RecordChildren(typeCode: string, records: Option<LibraryRecords>): seq<Node> {
    if records.None? || records.value.status == Unloaded then [StateNode(typeCode, "展开以加载记录")]
    else if records.value.status == Loading then [StateNode(typeCode, "正在加载记录")]
    else if records.value.status == Failed then
      var title := if records.value.error.Some? then records.value.error.value else "记录读取失败，点击重试";
      [Leaf(RetryKey(typeCode), title, ActionNode, None, false)]
    else
      var nodes := RecordNodes(typeCode, records.value.items);
      (if nodes == [] then [StateNode(typeCode, "该记录库暂无记录")] else nodes) +
      (if records.value.nextPage.Some? then
         [Leaf(MoreKey(typeCode, records.value.nextPage.value), "加载更多记录", ActionNode, None, false)]
       else [])
  }

  function RecordsOf(cat: Catalog, typeCode: string): Option<LibraryRecords> {
    if typeCode in cat.records then Some(cat.records[typeCode]) else None
  }

  function BuildLibrary(cat: Catalog, l: Library): Node {
    var t := l.objectTypeCode;
    var known := t in cat.objectTypes;
    var title := if known then cat.objectTypes[t] else t;
    var records := RecordsOf(cat, t);
    Node(LibraryKey(t), title, LibraryNode, if known then RecordChildren(t, records) else [], Some([title, t]),
         Some(if records.Some? then records.value.status else Unloaded), !known, if known then [] else [TypeMissing])
  }

  function BuildLibraries(cat: Catalog, ls: seq<Library>): (r: seq<Node>)
    ensures |r| == |ls|
  {
    if ls == [] then [] else [BuildLibrary(cat, ls[0])] + BuildLibraries(cat, ls[1..])
  }

  /** What stands for a directory that is its own ancestor. */
  function CycleNode(d: Directory): Node {
    Node(DirectoryKey(d.code), d.name, DirectoryNode, [], None, None, true, [Unresolvable])
  }

  function SubDirectories(cat: Catalog, code: string): (r: seq<Directory>)
    ensures forall d :: d in r <==> d in cat.directories && IsChildOf(cat, d, code)
  {
    var among := ChildrenAmong(cat, cat.directories, code);
    var r := SortDirectories(cat, among);
    assert forall d :: d in r <==> d in multiset(r);
    assert forall d :: d in among <==> d in multiset(among);
    r
  }

  function LibraryChildren(cat: Catalog, code: string): seq<Node> {
    BuildLibraries(cat, SortLibraries(cat, LibrariesAmong(cat.libraries, code)))
  }

  /** A directory with its directories and libraries; a directory above it is not entered again. */
  function BuildDirectory(cat: Catalog, d: Directory, ancestors: set<string>): Node
    requires d in cat.directories && d.code !in ancestors
    decreases |Codes(cat) - ancestors|, 0
  {
    var within := ancestors + {d.code};
    Shrinks(cat, d.code, ancestors);
    Node(DirectoryKey(d.code), d.name, DirectoryNode,
         BuildDirectories(cat, SubDirectories(cat, d.code), within) + LibraryChildren(cat, d.code),
         Some([d.name, d.code]), None, false, Notes(cat, d.code))
  }

  function BuildDirectories(cat: Catalog, ds: seq<Directory>, ancestors: set<string>): seq<Node>
    requires forall d :: d in ds ==> d in cat.directories
    decreases |Codes(cat) - ancestors|, 1 + |ds|
  {
    if ds == [] then []
    else [if ds[0].code in ancestors then CycleNode(ds[0]) else BuildDirectory(cat, ds[0], ancestors)]
         + BuildDirectories(cat, ds[1..], ancestors)
  }

  /** Entering a directory leaves fewer codes that are not ancestors. */
  lemma Shrinks(cat: Catalog, code: string, ancestors: set<string>)
    requires code in Codes(cat) && code !in ancestors
    ensures |Codes(cat) - (ancestors + {code})| < |Codes(cat) - ancestors|
  {
    var before, after := Codes(cat) - ancestors, Codes(cat) - (ancestors + {code});
    assert before == after + {code};
  }

  // ---- what a tree holds

  predicate IsFull(n: Node) {
    n.key.DirectoryKey? && !n.disabled
  }

  function OwnCode(n: Node): set<string> {
    if IsFull(n) then {n.key.code} else {}
  }

  /** The codes of the directories that are built, not only named, somewhere in the nodes. */
  function FullCodes(nodes: seq<Node>): set<string> {
    if nodes == [] then {}
    else OwnCode(nodes[0]) + FullCodes(nodes[0].children) + FullCodes(nodes[1..])
  }

  predicate ContainsKey(nodes: seq<Node>, key: Key) {
    nodes != [] && (nodes[0].key == key || ContainsKey(nodes[0].children, key) || ContainsKey(nodes[1..], key))
  }

  /** The built directories somewhere in the nodes that have the key below them. */
  function OpenKeys(nodes: seq<Node>, key: Option<Key>): set<Key> {
    if nodes == [] || key.None? then {}
    else (if IsFull(nodes[0]) && ContainsKey(nodes[0].children, key.value) then {nodes[0].key} else {})
         + OpenKeys(nodes[0].children, key) + OpenKeys(nodes[1..], key)
  }

  /** How many nodes carry the key, anywhere in the nodes. */
  function CountIn(nodes: seq<Node>, key: Key): nat {
    if nodes == [] then 0
    else (if nodes[0].key == key then 1 else 0) + CountIn(nodes[0].children, key) + CountIn(nodes[1..], key)
  }

  // ---- the whole tree

  /** A directory is added at the top unless it is built somewhere already. */
  function AddOne(cat: Catalog, d: Directory, nodes: seq<Node>): seq<Node>
    requires d in cat.directories
  {
    if d.code in FullCodes(nodes) then nodes
    else nodes + [BuildDirectory(cat, d, {}).(diagnostics := [Unresolvable])]
  }

  /** The directories that no root leads to are added in order. */
  function AddUnreached(cat: Catalog, ds: seq<Directory>, nodes: seq<Node>): seq<Node>
    requires forall d :: d in ds ==> d in cat.directories
    decreases |ds|
  {
    if ds == [] then nodes else AddUnreached(cat, ds[1..], AddOne(cat, ds[0], nodes))
  }

  function Roots(cat: Catalog): (r: seq<Directory>)
    ensures forall d :: d in r <==> d in cat.directories && !HasParent(cat, d)
  {
    var among := RootsAmong(cat, cat.directories);
    var r := SortDirectories(cat, among);
    assert forall d :: d in r <==> d in multiset(r);
    assert forall d :: d in among <==> d in multiset(among);
    r
  }

  function AllSorted(cat: Catalog): (r: seq<Directory>)
    ensures forall d :: d in r <==> d in cat.directories
  {
    var r := SortDirectories(cat, cat.directories);
    assert forall d :: d in r <==> d in multiset(r);
    assert forall d :: d in cat.directories <==> d in multiset(cat.directories);
    r
  }

  function DirectoryNodes(cat: Catalog): seq<Node> {
    AddUnreached(cat, AllSorted(cat), BuildDirectories(cat, Roots(cat), {}))
  }

  function UnclassifiedNode(cat: Catalog): Node {
    Node(UnclassifiedKey, "未归类记录库", DiagnosticNode,
         BuildLibraries(cat, SortLibraries(cat, UnclassifiedAmong(cat, cat.libraries))),
         None, None, false, [DirectoryMissing])
  }

  function Tree(cat: Catalog): seq<Node> {
    if UnclassifiedAmong(cat, cat.libraries) == [] then DirectoryNodes(cat)
    else DirectoryNodes(cat) + [UnclassifiedNode(cat)]
  }
}
