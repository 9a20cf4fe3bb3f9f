/** With unique codes, each directory appears once exactly when every chain of parents ends. */
module CatalogTreeCount {
  import opened Sorting
  import opened CatalogTree
  import opened CatalogTreeTheorems

  ghost predicate UniqueCodes(ds: seq<Directory>) {
    forall i, j :: 0 <= i < j < |ds| ==> ds[i].code != ds[j].code
  }

  /** Following the parents reaches a directory without a parent after `n` steps. */
  ghost predicate AtDepth(cat: Catalog, d: Directory, n: nat)
    decreases n
  {
    if n == 0 then !HasParent(cat, d)
    else HasParent(cat, d) && exists p :: p in cat.directories && IsChildOf(cat, d, p.code) && AtDepth(cat, p, n - 1)
  }

  ghost predicate ChainEnds(cat: Catalog, d: Directory) {
    exists n: nat :: AtDepth(cat, d, n)
  }

  ghost predicate ChainsEnd(cat: Catalog) {
    forall d :: d in cat.directories ==> ChainEnds(cat, d)
  }

  lemma SameCode(ds: seq<Directory>, a: Directory, b: Directory)
    requires UniqueCodes(ds) && a in ds && b in ds && a.code == b.code
    ensures a == b
  {
    var i :| 0 <= i < |ds| && ds[i] == a;
    var j :| 0 <= j < |ds| && ds[j] == b;
  }

  lemma {:induction false} OneDepth(cat: Catalog, d: Directory, m: nat, n: nat)
    requires UniqueCodes(cat.directories) && AtDepth(cat, d, m) && AtDepth(cat, d, n)
    ensures m == n
    decreases m
  {
    if m > 0 && n > 0 {
      var p :| p in cat.directories && IsChildOf(cat, d, p.code) && AtDepth(cat, p, m - 1);
      var q :| q in cat.directories && IsChildOf(cat, d, q.code) && AtDepth(cat, q, n - 1);
      SameCode(cat.directories, p, q);
      OneDepth(cat, p, m - 1, n - 1);
    }
  }

  lemma ChildDepth(cat: Catalog, p: Directory, c: Directory, n: nat)
    requires p in cat.directories && IsChildOf(cat, c, p.code) && AtDepth(cat, p, n)
    ensures AtDepth(cat, c, n + 1)
  {
  }

  // ---- how often a code occurs in a list of directories

  function NumWith(ds: seq<Directory>, code: string): nat {
    if ds == [] then 0 else (if ds[0].code == code then 1 else 0) + NumWith(ds[1..], code)
  }

  lemma {:induction false} NumWithInsert(cat: Catalog, d: Directory, sorted: seq<Directory>, code: string)
    ensures NumWith(Insert(d, sorted, DirectoryOrder(cat)), code) ==
      NumWith(sorted, code) + if d.code == code then 1 else 0
  {
    if sorted == [] || DirectoryBefore(cat, d, sorted[0]) {
      assert ([d] + sorted)[1..] == sorted;
    } else {
      NumWithInsert(cat, d, sorted[1..], code);
    }
  }

  lemma {:induction false} NumWithSort(cat: Catalog, ds: seq<Directory>, code: string)
    ensures NumWith(SortDirectories(cat, ds), code) == NumWith(ds, code)
  {
    if ds != [] {
      NumWithSort(cat, ds[1..], code);
      NumWithInsert(cat, ds[0], SortDirectories(cat, ds[1..]), code);
    }
  }

  lemma {:induction false} NumWithNone(ds: seq<Directory>, code: string)
    requires forall d :: d in ds ==> d.code != code
    ensures NumWith(ds, code) == 0
  {
    if ds != [] {
      NumWithNone(ds[1..], code);
    }
  }

  /** Counting a list whose head may be kept or dropped. */
  lemma HeadCount(keep: bool, d: Directory, rest: seq<Directory>, code: string)
    ensures NumWith((if keep then [d] else []) + rest, code) ==
      (if keep && d.code == code then 1 else 0) + NumWith(rest, code)
  {
    var none: seq<Directory> := [];
    assert none + rest == rest && ([d] + rest)[1..] == rest;
  }

  lemma {:induction false} NumWithChildren(cat: Catalog, ds: seq<Directory>, parent: string, d: Directory)
    requires UniqueCodes(ds) && d in ds
    ensures NumWith(ChildrenAmong(cat, ds, parent), d.code) == if IsChildOf(cat, d, parent) then 1 else 0
  {
    var rest := ChildrenAmong(cat, ds[1..], parent);
    if ds[0] == d {
      NumWithNone(rest, d.code);
    } else {
      NumWithChildren(cat, ds[1..], parent, d);
      SameCodeHead(ds, d);
    }
    HeadCount(IsChildOf(cat, ds[0], parent), ds[0], rest, d.code);
  }

  lemma SameCodeHead(ds: seq<Directory>, d: Directory)
    requires UniqueCodes(ds) && d in ds && ds[0] != d
    ensures ds[0].code != d.code
  {
    var i :| 0 <= i < |ds| && ds[i] == d;
  }

  lemma {:induction false} NumWithRoots(cat: Catalog, ds: seq<Directory>, d: Directory)
    requires UniqueCodes(ds) && d in ds
    ensures NumWith(RootsAmong(cat, ds), d.code) == if HasParent(cat, d) then 0 else 1
  {
    var rest := RootsAmong(cat, ds[1..]);
    if ds[0] == d {
      NumWithNone(rest, d.code);
    } else {
      NumWithRoots(cat, ds[1..], d);
      SameCodeHead(ds, d);
    }
    HeadCount(!HasParent(cat, ds[0]), ds[0], rest, d.code);
  }

  lemma NumWithSub(cat: Catalog, parent: string, d: Directory)
    requires UniqueCodes(cat.directories) && d in cat.directories
    ensures NumWith(SubDirectories(cat, parent), d.code) == if IsChildOf(cat, d, parent) then 1 else 0
  {
    NumWithChildren(cat, cat.directories, parent, d);
    NumWithSort(cat, ChildrenAmong(cat, cat.directories, parent), d.code);
  }

  // ---- walking down from directories of one depth

  ghost predicate AllAtDepth(cat: Catalog, ds: seq<Directory>, n: nat) {
    forall d :: d in ds ==> d in cat.directories && AtDepth(cat, d, n)
  }

  ghost predicate AllAbove(cat: Catalog, ancestors: set<string>, n: nat) {
    forall a :: a in cat.directories && a.code in ancestors ==> exists k: nat :: k < n && AtDepth(cat, a, k)
  }

  lemma NotAncestor(cat: Catalog, d: Directory, ancestors: set<string>, n: nat)
    requires UniqueCodes(cat.directories) && d in cat.directories && AtDepth(cat, d, n) && AllAbove(cat, ancestors, n)
    ensures d.code !in ancestors
  {
    if d.code in ancestors {
      var k: nat :| k < n && AtDepth(cat, d, k);
      OneDepth(cat, d, k, n);
    }
  }

  /** The same facts one level down. */
  lemma Descend(cat: Catalog, d: Directory, ancestors: set<string>, n: nat)
    requires UniqueCodes(cat.directories) && d in cat.directories && AtDepth(cat, d, n) && AllAbove(cat, ancestors, n)
    ensures d.code !in ancestors
    ensures AllAtDepth(cat, SubDirectories(cat, d.code), n + 1)
    ensures AllAbove(cat, ancestors + {d.code}, n + 1)
    ensures |Codes(cat) - (ancestors + {d.code})| < |Codes(cat) - ancestors|
  {
    NotAncestor(cat, d, ancestors, n);
    Shrinks(cat, d.code, ancestors);
    forall c | c in SubDirectories(cat, d.code)
      ensures AtDepth(cat, c, n + 1)
    {
      ChildDepth(cat, d, c, n);
    }
    forall a | a in cat.directories && a.code in ancestors + {d.code}
      ensures exists k: nat :: k < n + 1 && AtDepth(cat, a, k)
    {
      if a.code == d.code {
        SameCode(cat.directories, a, d);
      }
    }
  }

  /** The count for a list of directories, none of which is an ancestor: its head, below its head, its rest. */
  lemma CountHead(cat: Catalog, ds: seq<Directory>, ancestors: set<string>, code: string)
    requires ds != [] && (forall d :: d in ds ==> d in cat.directories) && ds[0].code !in ancestors
    ensures CountIn(BuildDirectories(cat, ds, ancestors), DirectoryKey(code)) ==
      (if ds[0].code == code then 1 else 0)
      + CountIn(BuildDirectories(cat, SubDirectories(cat, ds[0].code), ancestors + {ds[0].code}), DirectoryKey(code))
      + CountIn(BuildDirectories(cat, ds[1..], ancestors), DirectoryKey(code))
  {
    CountBuilt(cat, ds[0], ancestors, DirectoryKey(code));
    var nodes := BuildDirectories(cat, ds, ancestors);
    assert nodes[0] == BuildDirectory(cat, ds[0], ancestors) && nodes[1..] == BuildDirectories(cat, ds[1..], ancestors);
  }

  /** A directory is met once for each time its parent is met, and once more where it is listed. */
  lemma {:induction false} CountChild(cat: Catalog, ds: seq<Directory>, ancestors: set<string>, n: nat,
                                      x: Directory, p: Directory)
    requires UniqueCodes(cat.directories) && AllAtDepth(cat, ds, n) && AllAbove(cat, ancestors, n)
    requires x in cat.directories && p in cat.directories && IsChildOf(cat, x, p.code)
    ensures var nodes := BuildDirectories(cat, ds, ancestors);
      CountIn(nodes, DirectoryKey(x.code)) == NumWith(ds, x.code) + CountIn(nodes, DirectoryKey(p.code))
    decreases |Codes(cat) - ancestors|, |ds|
  {
    if ds != [] {
      var d := ds[0];
      Descend(cat, d, ancestors, n);
      CountChild(cat, SubDirectories(cat, d.code), ancestors + {d.code}, n + 1, x, p);
      CountChild(cat, ds[1..], ancestors, n, x, p);
      NumWithSub(cat, d.code, x);
      CountHead(cat, ds, ancestors, x.code);
      CountHead(cat, ds, ancestors, p.code);
    }
  }

  /** A root is met only where it is listed. */
  lemma {:induction false} CountRoot(cat: Catalog, ds: seq<Directory>, ancestors: set<string>, n: nat, x: Directory)
    requires UniqueCodes(cat.directories) && AllAtDepth(cat, ds, n) && AllAbove(cat, ancestors, n)
    requires x in cat.directories && !HasParent(cat, x)
    ensures CountIn(BuildDirectories(cat, ds, ancestors), DirectoryKey(x.code)) == NumWith(ds, x.code)
    decreases |Codes(cat) - ancestors|, |ds|
  {
    if ds != [] {
      var d := ds[0];
      Descend(cat, d, ancestors, n);
      CountRoot(cat, SubDirectories(cat, d.code), ancestors + {d.code}, n + 1, x);
      CountRoot(cat, ds[1..], ancestors, n, x);
      NumWithSub(cat, d.code, x);
      CountHead(cat, ds, ancestors, x.code);
    }
  }

  /** The count below a built directory is the count below its subdirectories. */
  lemma CountBuilt(cat: Catalog, d: Directory, ancestors: set<string>, key: Key)
    requires d in cat.directories && d.code !in ancestors && key.DirectoryKey?
    ensures CountIn(BuildDirectory(cat, d, ancestors).children, key) ==
      CountIn(BuildDirectories(cat, SubDirectories(cat, d.code), ancestors + {d.code}), key)
  {
    var subs := BuildDirectories(cat, SubDirectories(cat, d.code), ancestors + {d.code});
    CountConcat(subs, LibraryChildren(cat, d.code), key);
    BuiltLibraries(cat, SortLibraries(cat, LibrariesAmong(cat.libraries, d.code)), key);
  }

  /** The directories built below a directory, and in a list of directories. */
  lemma FullBuilt(cat: Catalog, d: Directory, ancestors: set<string>)
    requires d in cat.directories && d.code !in ancestors
    ensures FullCodes(BuildDirectory(cat, d, ancestors).children) ==
      FullCodes(BuildDirectories(cat, SubDirectories(cat, d.code), ancestors + {d.code}))
  {
    FullConcat(BuildDirectories(cat, SubDirectories(cat, d.code), ancestors + {d.code}), LibraryChildren(cat, d.code));
    BuiltLibraries(cat, SortLibraries(cat, LibrariesAmong(cat.libraries, d.code)), DirectoryKey(""));
  }

  lemma FullHead(cat: Catalog, ds: seq<Directory>, ancestors: set<string>)
    requires ds != [] && (forall d :: d in ds ==> d in cat.directories) && ds[0].code !in ancestors
    ensures FullCodes(BuildDirectories(cat, ds, ancestors)) ==
      {ds[0].code}
      + FullCodes(BuildDirectories(cat, SubDirectories(cat, ds[0].code), ancestors + {ds[0].code}))
      + FullCodes(BuildDirectories(cat, ds[1..], ancestors))
  {
    FullBuilt(cat, ds[0], ancestors);
    var nodes := BuildDirectories(cat, ds, ancestors);
    assert nodes[0] == BuildDirectory(cat, ds[0], ancestors) && nodes[1..] == BuildDirectories(cat, ds[1..], ancestors);
  }

  /** Whatever is met under directories whose chains end is built there, and its own chain ends. */
  lemma {:induction false} MetIsBuilt(cat: Catalog, ds: seq<Directory>, ancestors: set<string>, n: nat)
    requires UniqueCodes(cat.directories) && AllAtDepth(cat, ds, n) && AllAbove(cat, ancestors, n)
    ensures var nodes := BuildDirectories(cat, ds, ancestors);
      && (forall code :: CountIn(nodes, DirectoryKey(code)) > 0 ==> code in FullCodes(nodes))
      && (forall d :: d in cat.directories && d.code in FullCodes(nodes) ==> ChainEnds(cat, d))
    decreases |Codes(cat) - ancestors|, |ds|
  {
    if ds != [] {
      var d := ds[0];
      Descend(cat, d, ancestors, n);
      MetIsBuilt(cat, SubDirectories(cat, d.code), ancestors + {d.code}, n + 1);
      MetIsBuilt(cat, ds[1..], ancestors, n);
      FullHead(cat, ds, ancestors);
      forall code | CountIn(BuildDirectories(cat, ds, ancestors), DirectoryKey(code)) > 0
        ensures code in FullCodes(BuildDirectories(cat, ds, ancestors))
      {
        CountHead(cat, ds, ancestors, code);
      }
      forall e | e in cat.directories && e.code == d.code
        ensures ChainEnds(cat, e)
      {
        SameCode(cat.directories, e, d);
      }
    }
  }

  lemma RootsAtDepth(cat: Catalog)
    ensures AllAtDepth(cat, Roots(cat), 0) && AllAbove(cat, {}, 0)
  {
  }

  /** A directory whose chain ends is met exactly once from the roots. */
  lemma {:induction false} OnceFromRoots(cat: Catalog, x: Directory, n: nat)
    requires UniqueCodes(cat.directories) && x in cat.directories && AtDepth(cat, x, n)
    ensures CountIn(BuildDirectories(cat, Roots(cat), {}), DirectoryKey(x.code)) == 1
    decreases n
  {
    RootsAtDepth(cat);
    NumWithRoots(cat, cat.directories, x);
    NumWithSort(cat, RootsAmong(cat, cat.directories), x.code);
    if n == 0 {
      CountRoot(cat, Roots(cat), {}, 0, x);
    } else {
      var p :| p in cat.directories && IsChildOf(cat, x, p.code) && AtDepth(cat, p, n - 1);
      OnceFromRoots(cat, p, n - 1);
      CountChild(cat, Roots(cat), {}, 0, x, p);
    }
  }

  lemma {:induction false} NothingUnreached(cat: Catalog, ds: seq<Directory>, nodes: seq<Node>)
    requires forall d :: d in ds ==> d in cat.directories && d.code in FullCodes(nodes)
    ensures AddUnreached(cat, ds, nodes) == nodes
    decreases |ds|
  {
    if ds != [] {
      NothingUnreached(cat, ds[1..], nodes);
    }
  }

  /** When every chain ends, the roots reach everything. */
  lemma RootsReachAll(cat: Catalog)
    requires UniqueCodes(cat.directories) && ChainsEnd(cat)
    ensures DirectoryNodes(cat) == BuildDirectories(cat, Roots(cat), {})
  {
    var nodes := BuildDirectories(cat, Roots(cat), {});
    RootsAtDepth(cat);
    MetIsBuilt(cat, Roots(cat), {}, 0);
    forall d | d in cat.directories
      ensures d.code in FullCodes(nodes)
    {
      assert ChainEnds(cat, d);
      var n: nat :| AtDepth(cat, d, n);
      OnceFromRoots(cat, d, n);
    }
    NothingUnreached(cat, AllSorted(cat), nodes);
  }

  /** The node stands for a directory without a known parent. */
  ghost predicate IsRootNode(cat: Catalog, n: Node) {
    exists d :: d in cat.directories && !HasParent(cat, d) && n.key == DirectoryKey(d.code)
  }

  lemma {:induction false} RootNodes(cat: Catalog, ds: seq<Directory>)
    requires forall d :: d in ds ==> d in cat.directories && !HasParent(cat, d)
    ensures forall n :: n in BuildDirectories(cat, ds, {}) ==> IsRootNode(cat, n)
    decreases |ds|
  {
    if ds != [] {
      RootNodes(cat, ds[1..]);
      assert ds[0] in ds && IsRootNode(cat, BuildDirectory(cat, ds[0], {}));
    }
  }

  /** When every chain ends, only directories without a known parent are at the top. */
  lemma TopAreRoots(cat: Catalog)
    requires UniqueCodes(cat.directories) && ChainsEnd(cat)
    ensures forall n :: n in DirectoryNodes(cat) ==> IsRootNode(cat, n)
  {
    RootsReachAll(cat);
    RootNodes(cat, Roots(cat));
  }

  /** The unclassified node holds no directory. */
  lemma TreeDirectoryCount(cat: Catalog, code: string)
    ensures CountIn(Tree(cat), DirectoryKey(code)) == CountIn(DirectoryNodes(cat), DirectoryKey(code))
  {
    CountConcat(DirectoryNodes(cat), [UnclassifiedNode(cat)], DirectoryKey(code));
    BuiltLibraries(cat, SortLibraries(cat, UnclassifiedAmong(cat, cat.libraries)), DirectoryKey(code));
  }

  lemma OnceWhenChainsEnd(cat: Catalog, d: Directory)
    requires UniqueCodes(cat.directories) && ChainsEnd(cat) && d in cat.directories
    ensures CountIn(Tree(cat), DirectoryKey(d.code)) == 1
  {
    RootsReachAll(cat);
    TreeDirectoryCount(cat, d.code);
    assert ChainEnds(cat, d);
    var n: nat :| AtDepth(cat, d, n);
    OnceFromRoots(cat, d, n);
  }

  // ---- a chain that does not end shows a directory twice

  /** Every built directory names each of its subdirectories among its children. */
  ghost predicate NamesChildren(cat: Catalog, nodes: seq<Node>)
    decreases nodes
  {
    nodes == [] ||
    (&& (IsFull(nodes[0]) ==> forall c :: c in cat.directories && IsChildOf(cat, c, nodes[0].key.code) ==>
           CountIn(nodes[0].children, DirectoryKey(c.code)) > 0)
     && NamesChildren(cat, nodes[0].children) && NamesChildren(cat, nodes[1..]))
  }

  lemma {:induction false} NamesConcat(cat: Catalog, a: seq<Node>, b: seq<Node>)
    requires NamesChildren(cat, a) && NamesChildren(cat, b)
    ensures NamesChildren(cat, a + b)
  {
    if a == [] {
      assert a + b == b;
    } else {
      assert (a + b)[1..] == a[1..] + b;
      NamesConcat(cat, a[1..], b);
    }
  }

  lemma {:induction false} NoDirectoriesName(cat: Catalog, nodes: seq<Node>)
    requires FullCodes(nodes) == {}
    ensures NamesChildren(cat, nodes)
    decreases nodes
  {
    if nodes != [] {
      assert OwnCode(nodes[0]) <= FullCodes(nodes);
      NoDirectoriesName(cat, nodes[0].children);
      NoDirectoriesName(cat, nodes[1..]);
    }
  }

  lemma {:induction false} ListedIsMet(cat: Catalog, ds: seq<Directory>, ancestors: set<string>, d: Directory)
    requires d in ds && forall e :: e in ds ==> e in cat.directories
    ensures CountIn(BuildDirectories(cat, ds, ancestors), DirectoryKey(d.code)) > 0
    decreases |ds|
  {
    if ds[0] != d {
      ListedIsMet(cat, ds[1..], ancestors, d);
    }
  }

  /** The children of a built directory name all its subdirectories. */
  lemma SubdirectoriesMet(cat: Catalog, d: Directory, ancestors: set<string>, c: Directory)
    requires d in cat.directories && d.code !in ancestors
    requires c in cat.directories && IsChildOf(cat, c, d.code)
    ensures CountIn(BuildDirectory(cat, d, ancestors).children, DirectoryKey(c.code)) > 0
  {
    ListedIsMet(cat, SubDirectories(cat, d.code), ancestors + {d.code}, c);
    CountBuilt(cat, d, ancestors, DirectoryKey(c.code));
  }

  lemma LibrariesName(cat: Catalog, code: string)
    ensures NamesChildren(cat, LibraryChildren(cat, code))
  {
    BuiltLibraries(cat, SortLibraries(cat, LibrariesAmong(cat.libraries, code)), DirectoryKey(""));
    NoDirectoriesName(cat, LibraryChildren(cat, code));
  }

  lemma {:induction false} DirectoryNames(cat: Catalog, d: Directory, ancestors: set<string>)
    requires d in cat.directories && d.code !in ancestors
    ensures NamesChildren(cat, [BuildDirectory(cat, d, ancestors)])
    decreases |Codes(cat) - ancestors|, 0
  {
    Shrinks(cat, d.code, ancestors);
    DirectoriesName(cat, SubDirectories(cat, d.code), ancestors + {d.code});
    LibrariesName(cat, d.code);
    NamesConcat(cat, BuildDirectories(cat, SubDirectories(cat, d.code), ancestors + {d.code}),
                LibraryChildren(cat, d.code));
    forall c | c in cat.directories && IsChildOf(cat, c, d.code)
      ensures CountIn(BuildDirectory(cat, d, ancestors).children, DirectoryKey(c.code)) > 0
    {
      SubdirectoriesMet(cat, d, ancestors, c);
    }
  }

  lemma {:induction false} DirectoriesName(cat: Catalog, ds: seq<Directory>, ancestors: set<string>)
    requires forall d :: d in ds ==> d in cat.directories
    ensures NamesChildren(cat, BuildDirectories(cat, ds, ancestors))
    decreases |Codes(cat) - ancestors|, 1 + |ds|
  {
    if ds != [] {
      if ds[0].code !in ancestors {
        DirectoryNames(cat, ds[0], ancestors);
      }
      DirectoriesName(cat, ds[1..], ancestors);
    }
  }

  lemma {:induction false} UnreachedNames(cat: Catalog, ds: seq<Directory>, nodes: seq<Node>)
    requires (forall d :: d in ds ==> d in cat.directories) && NamesChildren(cat, nodes)
    ensures NamesChildren(cat, AddUnreached(cat, ds, nodes))
    decreases |ds|
  {
    if ds != [] {
      if ds[0].code in FullCodes(nodes) {
        UnreachedNames(cat, ds[1..], nodes);
      } else {
        var built := BuildDirectory(cat, ds[0], {});
        DirectoryNames(cat, ds[0], {});
        NamesConcat(cat, nodes, [built.(diagnostics := [Unresolvable])]);
        UnreachedNames(cat, ds[1..], nodes + [built.(diagnostics := [Unresolvable])]);
      }
    }
  }

  /** The nodes below the top that carry a key. */
  function CountBelow(nodes: seq<Node>, key: Key): nat {
    if nodes == [] then 0 else CountIn(nodes[0].children, key) + CountBelow(nodes[1..], key)
  }

  function CountTop(nodes: seq<Node>, key: Key): nat {
    if nodes == [] then 0 else (if nodes[0].key == key then 1 else 0) + CountTop(nodes[1..], key)
  }

  lemma {:induction false} TopAndBelow(nodes: seq<Node>, key: Key)
    ensures CountIn(nodes, key) == CountTop(nodes, key) + CountBelow(nodes, key)
  {
    if nodes != [] {
      TopAndBelow(nodes[1..], key);
    }
  }

  lemma {:induction false} TopConcat(a: seq<Node>, b: seq<Node>, key: Key)
    ensures CountTop(a + b, key) == CountTop(a, key) + CountTop(b, key)
  {
    if a == [] {
      assert a + b == b;
    } else {
      assert (a + b)[1..] == a[1..] + b;
      TopConcat(a[1..], b, key);
    }
  }

  /** Where the parent is built, the child is met below the top. */
  lemma {:induction false} ChildBelow(cat: Catalog, nodes: seq<Node>, p: Directory, c: Directory)
    requires NamesChildren(cat, nodes) && p.code in FullCodes(nodes)
    requires c in cat.directories && IsChildOf(cat, c, p.code)
    ensures CountBelow(nodes, DirectoryKey(c.code)) > 0
    decreases nodes
  {
    if p.code in FullCodes(nodes[0].children) {
      ChildBelow(cat, nodes[0].children, p, c);
      TopAndBelow(nodes[0].children, DirectoryKey(c.code));
    } else if p.code in FullCodes(nodes[1..]) {
      ChildBelow(cat, nodes[1..], p, c);
    } else {
      assert IsFull(nodes[0]) && nodes[0].key.code == p.code;
    }
  }

  lemma {:induction false} TopStays(cat: Catalog, ds: seq<Directory>, nodes: seq<Node>, key: Key)
    requires forall d :: d in ds ==> d in cat.directories
    ensures CountTop(AddUnreached(cat, ds, nodes), key) >= CountTop(nodes, key)
    decreases |ds|
  {
    if ds != [] {
      if ds[0].code in FullCodes(nodes) {
        TopStays(cat, ds[1..], nodes, key);
      } else {
        var added := BuildDirectory(cat, ds[0], {}).(diagnostics := [Unresolvable]);
        TopConcat(nodes, [added], key);
        TopStays(cat, ds[1..], nodes + [added], key);
      }
    }
  }

  ghost predicate OnlyEnding(cat: Catalog, nodes: seq<Node>) {
    forall d :: d in cat.directories && d.code in FullCodes(nodes) ==> ChainEnds(cat, d)
  }

  /** The first directory without an end that comes up is added at the top. */
  lemma {:induction false} EndlessAtTop(cat: Catalog, ds: seq<Directory>, nodes: seq<Node>) returns (u: Directory)
    requires UniqueCodes(cat.directories) && (forall d :: d in ds ==> d in cat.directories)
    requires OnlyEnding(cat, nodes) && exists d :: d in ds && !ChainEnds(cat, d)
    ensures u in cat.directories && !ChainEnds(cat, u)
    ensures CountTop(AddUnreached(cat, ds, nodes), DirectoryKey(u.code)) > 0
    decreases |ds|
  {
    var d := ds[0];
    if d.code in FullCodes(nodes) {
      u := EndlessAtTop(cat, ds[1..], nodes);
    } else {
      var built := BuildDirectory(cat, d, {});
      var added := built.(diagnostics := [Unresolvable]);
      if ChainEnds(cat, d) {
        var n: nat :| AtDepth(cat, d, n);
        NoneAbove(cat, n);
        MetIsBuilt(cat, [d], {}, n);
        assert BuildDirectories(cat, [d], {}) == [built];
        FullConcat(nodes, [added]);
        assert FullCodes([added]) == FullCodes([built]);
        u := EndlessAtTop(cat, ds[1..], nodes + [added]);
      } else {
        u := d;
        TopConcat(nodes, [added], DirectoryKey(u.code));
        TopStays(cat, ds[1..], nodes + [added], DirectoryKey(u.code));
      }
    }
  }

  lemma NoneAbove(cat: Catalog, n: nat)
    ensures AllAbove(cat, {}, n)
  {
  }

  /** With unique codes, every directory appears exactly once if and only if every chain of parents ends. */
  lemma OnceIffChainsEnd(cat: Catalog)
    requires UniqueCodes(cat.directories)
    ensures ChainsEnd(cat) <==>
      forall d :: d in cat.directories ==> CountIn(Tree(cat), DirectoryKey(d.code)) == 1
  {
    if ChainsEnd(cat) {
      forall d | d in cat.directories
        ensures CountIn(Tree(cat), DirectoryKey(d.code)) == 1
      {
        OnceWhenChainsEnd(cat, d);
      }
    } else {
      var u := TwiceWhenEndless(cat);
    }
  }

  lemma TwiceWhenEndless(cat: Catalog) returns (u: Directory)
    requires UniqueCodes(cat.directories) && !ChainsEnd(cat)
    ensures u in cat.directories && CountIn(Tree(cat), DirectoryKey(u.code)) >= 2
  {
    var first := BuildDirectories(cat, Roots(cat), {});
    RootsAtDepth(cat);
    MetIsBuilt(cat, Roots(cat), {}, 0);
    u := EndlessAtTop(cat, AllSorted(cat), first);
    assert HasParent(cat, u) by {
      assert !AtDepth(cat, u, 0);
    }
    var p :| p in cat.directories && p.code == u.parentCode.value;
    DirectoriesName(cat, Roots(cat), {});
    UnreachedNames(cat, AllSorted(cat), first);
    UnreachedAdded(cat, AllSorted(cat), first);
    ChildBelow(cat, DirectoryNodes(cat), p, u);
    TopAndBelow(DirectoryNodes(cat), DirectoryKey(u.code));
    TreeDirectoryCount(cat, u.code);
  }

  // ---- libraries

  lemma {:induction false} LibrariesOfInsert(cat: Catalog, l: Library, sorted: seq<Library>, t: string)
    ensures LibrariesOf(Insert(l, sorted, LibraryOrder(cat)), t) ==
      LibrariesOf(sorted, t) + if l.objectTypeCode == t then 1 else 0
  {
    if sorted == [] || LibraryBefore(cat, l, sorted[0]) {
      assert ([l] + sorted)[1..] == sorted;
    } else {
      LibrariesOfInsert(cat, l, sorted[1..], t);
    }
  }

  lemma {:induction false} LibrariesOfSort(cat: Catalog, ls: seq<Library>, t: string)
    ensures LibrariesOf(SortLibraries(cat, ls), t) == LibrariesOf(ls, t)
  {
    if ls != [] {
      LibrariesOfSort(cat, ls[1..], t);
      LibrariesOfInsert(cat, ls[0], SortLibraries(cat, ls[1..]), t);
    }
  }

  lemma HeadLibraries(keep: bool, l: Library, rest: seq<Library>, t: string)
    ensures LibrariesOf((if keep then [l] else []) + rest, t) ==
      (if keep && l.objectTypeCode == t then 1 else 0) + LibrariesOf(rest, t)
  {
    var none: seq<Library> := [];
    assert none + rest == rest && ([l] + rest)[1..] == rest;
  }

  /** The libraries of a type, each counted as often as its directory is met in the nodes. */
  function CountByDirectory(cat: Catalog, ls: seq<Library>, nodes: seq<Node>, t: string): nat {
    if ls == [] then 0
    else
      (if ls[0].objectTypeCode == t && ls[0].directoryCode in Codes(cat)
       then CountIn(nodes, DirectoryKey(ls[0].directoryCode)) else 0)
      + CountByDirectory(cat, ls[1..], nodes, t)
  }

  lemma {:induction false} CountByDirectorySplit(cat: Catalog, ls: seq<Library>, nodes: seq<Node>, t: string)
    requires nodes != [] && nodes[0].key.DirectoryKey? && nodes[0].key.code in Codes(cat)
    ensures CountByDirectory(cat, ls, nodes, t) ==
      LibrariesOf(LibrariesAmong(ls, nodes[0].key.code), t)
      + CountByDirectory(cat, ls, nodes[0].children, t) + CountByDirectory(cat, ls, nodes[1..], t)
  {
    if ls != [] {
      CountByDirectorySplit(cat, ls[1..], nodes, t);
      var rest := LibrariesAmong(ls[1..], nodes[0].key.code);
      HeadLibraries(ls[0].directoryCode == nodes[0].key.code, ls[0], rest, t);
    }
  }

  lemma {:induction false} CountByDirectorySame(cat: Catalog, ls: seq<Library>, a: seq<Node>, b: seq<Node>, t: string)
    requires forall code :: code in Codes(cat) ==> CountIn(a, DirectoryKey(code)) == CountIn(b, DirectoryKey(code))
    ensures CountByDirectory(cat, ls, a, t) == CountByDirectory(cat, ls, b, t)
  {
    if ls != [] {
      CountByDirectorySame(cat, ls[1..], a, b, t);
    }
  }

  lemma {:induction false} CountByDirectoryNone(cat: Catalog, ls: seq<Library>, t: string)
    ensures CountByDirectory(cat, ls, [], t) == 0
  {
    if ls != [] {
      CountByDirectoryNone(cat, ls[1..], t);
    }
  }

  /** Below directories whose chains end, a library is met as often as its directory. */
  lemma {:induction false} CountLibraries(cat: Catalog, ds: seq<Directory>, ancestors: set<string>, n: nat, t: string)
    requires UniqueCodes(cat.directories) && AllAtDepth(cat, ds, n) && AllAbove(cat, ancestors, n)
    ensures var nodes := BuildDirectories(cat, ds, ancestors);
      CountIn(nodes, LibraryKey(t)) == CountByDirectory(cat, cat.libraries, nodes, t)
    decreases |Codes(cat) - ancestors|, |ds|
  {
    if ds == [] {
      CountByDirectoryNone(cat, cat.libraries, t);
    } else {
      var d := ds[0];
      Descend(cat, d, ancestors, n);
      CountLibraries(cat, SubDirectories(cat, d.code), ancestors + {d.code}, n + 1, t);
      CountLibraries(cat, ds[1..], ancestors, n, t);
      CountLibrariesBuilt(cat, d, ancestors, t);
      CountLibrariesCons(cat, BuildDirectory(cat, d, ancestors), BuildDirectories(cat, ds[1..], ancestors), t);
    }
  }

  /** One built directory, given the count below it. */
  lemma CountLibrariesBuilt(cat: Catalog, d: Directory, ancestors: set<string>, t: string)
    requires d in cat.directories && d.code !in ancestors
    requires var below := BuildDirectories(cat, SubDirectories(cat, d.code), ancestors + {d.code});
      CountIn(below, LibraryKey(t)) == CountByDirectory(cat, cat.libraries, below, t)
    ensures var children := BuildDirectory(cat, d, ancestors).children;
      CountIn(children, LibraryKey(t)) ==
      CountByDirectory(cat, cat.libraries, children, t) + LibrariesOf(LibrariesAmong(cat.libraries, d.code), t)
  {
    var children := BuildDirectory(cat, d, ancestors).children;
    var below := BuildDirectories(cat, SubDirectories(cat, d.code), ancestors + {d.code});
    CountOwnLibraries(cat, d, ancestors, t);
    forall code | code in Codes(cat)
      ensures CountIn(children, DirectoryKey(code)) == CountIn(below, DirectoryKey(code))
    {
      CountBuilt(cat, d, ancestors, DirectoryKey(code));
    }
    CountByDirectorySame(cat, cat.libraries, children, below, t);
  }

  /** A directory node in front of others. */
  lemma CountLibrariesCons(cat: Catalog, n: Node, later: seq<Node>, t: string)
    requires n.key.DirectoryKey? && n.key.code in Codes(cat)
    requires CountIn(n.children, LibraryKey(t)) ==
      CountByDirectory(cat, cat.libraries, n.children, t) + LibrariesOf(LibrariesAmong(cat.libraries, n.key.code), t)
    requires CountIn(later, LibraryKey(t)) == CountByDirectory(cat, cat.libraries, later, t)
    ensures CountIn([n] + later, LibraryKey(t)) == CountByDirectory(cat, cat.libraries, [n] + later, t)
  {
    assert ([n] + later)[1..] == later;
    CountByDirectorySplit(cat, cat.libraries, [n] + later, t);
  }

  lemma CountOwnLibraries(cat: Catalog, d: Directory, ancestors: set<string>, t: string)
    requires d in cat.directories && d.code !in ancestors
    ensures CountIn(BuildDirectory(cat, d, ancestors).children, LibraryKey(t)) ==
      CountIn(BuildDirectories(cat, SubDirectories(cat, d.code), ancestors + {d.code}), LibraryKey(t))
      + LibrariesOf(LibrariesAmong(cat.libraries, d.code), t)
  {
    var among := LibrariesAmong(cat.libraries, d.code);
    CountConcat(BuildDirectories(cat, SubDirectories(cat, d.code), ancestors + {d.code}),
                LibraryChildren(cat, d.code), LibraryKey(t));
    BuiltLibraries(cat, SortLibraries(cat, among), LibraryKey(t));
    LibrariesOfSort(cat, among, t);
  }

  lemma {:induction false} KnownAndUnclassified(cat: Catalog, ls: seq<Library>, nodes: seq<Node>, t: string)
    requires forall code :: code in Codes(cat) ==> CountIn(nodes, DirectoryKey(code)) == 1
    ensures CountByDirectory(cat, ls, nodes, t) + LibrariesOf(UnclassifiedAmong(cat, ls), t) == LibrariesOf(ls, t)
  {
    if ls != [] {
      KnownAndUnclassified(cat, ls[1..], nodes, t);
      var rest := UnclassifiedAmong(cat, ls[1..]);
      HeadLibraries(ls[0].directoryCode !in Codes(cat), ls[0], rest, t);
    }
  }

  /** When every chain ends, every library appears exactly once: a type as often as the catalog lists it. */
  lemma LibrariesOnce(cat: Catalog, t: string)
    requires UniqueCodes(cat.directories) && ChainsEnd(cat)
    ensures CountIn(Tree(cat), LibraryKey(t)) == LibrariesOf(cat.libraries, t)
  {
    var nodes := BuildDirectories(cat, Roots(cat), {});
    RootsReachAll(cat);
    RootsAtDepth(cat);
    CountLibraries(cat, Roots(cat), {}, 0, t);
    forall code | code in Codes(cat)
      ensures CountIn(nodes, DirectoryKey(code)) == 1
    {
      var d :| d in cat.directories && d.code == code;
      OnceWhenChainsEnd(cat, d);
      TreeDirectoryCount(cat, code);
    }
    KnownAndUnclassified(cat, cat.libraries, nodes, t);
    var unclassified := UnclassifiedAmong(cat, cat.libraries);
    LibrariesOfSort(cat, unclassified, t);
    BuiltLibraries(cat, SortLibraries(cat, unclassified), LibraryKey(t));
    CountConcat(nodes, [UnclassifiedNode(cat)], LibraryKey(t));
  }
}
