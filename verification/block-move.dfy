/** Moving the selected block of a document up or down past its neighbour. */
module BlockMove {
  import opened BlockText

  datatype Direction = Up | Down

  /** The document, the range of the selected block's parent, and the selection. */
  datatype Document = Document(tokens: seq<Token>, start: nat, end: nat, from: nat, selected: bool)

  ghost predicate Valid(d: Document) {
    && d.start <= d.from < d.end <= |d.tokens|
    && var bs := Children(d); AllBlocks(bs) && Index(d) < |bs| && d.from == d.start + Offset(bs, Index(d))
  }

  /** The blocks of the parent. */
  function Children(d: Document): seq<seq<Token>> {
    if d.start <= d.end <= |d.tokens| then Blocks(d.tokens[d.start..d.end]) else []
  }

  /** The place of the selected block among them. */
  function Index(d: Document): nat {
    IndexAt(Children(d), d.from - d.start)
  }

  function Neighbour(i: nat, dir: Direction): int {
    if dir == Up then i - 1 else i + 1
  }

  function Delete(t: seq<Token>, from: nat, to: nat): seq<Token>
    requires from <= to <= |t|
  {
    t[..from] + t[to..]
  }

  function Insert(t: seq<Token>, at: nat, node: seq<Token>): seq<Token>
    requires at <= |t|
  {
    t[..at] + node + t[at..]
  }

  predicate CanMove(d: Document, dir: Direction) {
    d.selected && 0 <= Neighbour(Index(d), dir) < |Children(d)|
  }

  function Swapped(bs: seq<seq<Token>>, i: nat): seq<seq<Token>>
    requires i + 1 < |bs|
  {
    bs[i := bs[i + 1]][i + 1 := bs[i]]
  }

  /** The document in parts: before the parent, its blocks, after the parent. */
  lemma Parts(d: Document)
    requires Valid(d)
    ensures d.tokens == d.tokens[..d.start] + Flat(Children(d)) + d.tokens[d.end..]
  {
  }

  lemma {:induction false} FlatAround(bs: seq<seq<Token>>, i: nat)
    requires i + 1 < |bs|
    ensures Flat(bs) == Flat(bs[..i]) + bs[i] + bs[i + 1] + Flat(bs[i + 2..])
  {
    if i == 0 {
      assert bs[1..][1..] == bs[2..];
      FrontTwo(bs[0], bs[1], Flat(bs[2..]));
    } else {
      FlatAround(bs[1..], i - 1);
      assert bs[1..][..i - 1] == bs[..i][1..] && bs[1..][i + 1..] == bs[i + 2..];
      FrontFive(bs[0], Flat(bs[..i][1..]), bs[i], bs[i + 1], Flat(bs[i + 2..]));
    }
  }

  lemma FrontTwo(a: seq<Token>, b: seq<Token>, rest: seq<Token>)
    ensures a + (b + rest) == [] + a + b + rest
  {
  }

  lemma FrontFive(x: seq<Token>, p: seq<Token>, a: seq<Token>, b: seq<Token>, rest: seq<Token>)
    ensures x + (p + a + b + rest) == (x + p) + a + b + rest
  {
  }

  lemma FlatSwapped(bs: seq<seq<Token>>, i: nat)
    requires i + 1 < |bs|
    ensures Flat(Swapped(bs, i)) == Flat(bs[..i]) + bs[i + 1] + bs[i] + Flat(bs[i + 2..])
  {
    FlatAround(Swapped(bs, i), i);
    assert Swapped(bs, i)[..i] == bs[..i] && Swapped(bs, i)[i + 2..] == bs[i + 2..];
  }

  /** Deleting `b` and inserting it before `a`, or deleting `a` and inserting it after `b`. */
  lemma CutAndPaste(p: seq<Token>, a: seq<Token>, b: seq<Token>, q: seq<Token>)
    ensures var t := p + a + b + q;
      && Insert(Delete(t, |p| + |a|, |p| + |a| + |b|), |p|, b) == p + b + a + q
      && Insert(Delete(t, |p|, |p| + |a|), |p| + |b|, a) == p + b + a + q
  {
    var t := p + a + b + q;
    assert Delete(t, |p| + |a|, |p| + |a| + |b|) == p + a + q;
    assert Delete(t, |p|, |p| + |a|) == p + b + q;
  }

  /** What lies before the blocks at `i` and `i + 1`, and after them. */
  function Before(d: Document, i: nat): seq<Token>
    requires Valid(d) && i + 1 < |Children(d)|
  {
    d.tokens[..d.start] + Flat(Children(d)[..i])
  }

  function After(d: Document, i: nat): seq<Token>
    requires Valid(d) && i + 1 < |Children(d)|
  {
    Flat(Children(d)[i + 2..]) + d.tokens[d.end..]
  }

  lemma Around(d: Document, i: nat)
    requires Valid(d) && i + 1 < |Children(d)|
    ensures var bs := Children(d);
      && d.tokens == Before(d, i) + bs[i] + bs[i + 1] + After(d, i)
      && |Before(d, i)| == d.start + Offset(bs, i)
      && |Before(d, i)| + |bs[i]| == d.start + Offset(bs, i + 1)
  {
    var bs := Children(d);
    Parts(d);
    FlatAround(bs, i);
    Enclose(d.tokens[..d.start], Flat(bs[..i]), bs[i], bs[i + 1], Flat(bs[i + 2..]), d.tokens[d.end..]);
    OffsetNext(bs, i);
  }

  lemma Enclose(x: seq<Token>, p: seq<Token>, a: seq<Token>, b: seq<Token>, q: seq<Token>, y: seq<Token>)
    ensures x + (p + a + b + q) + y == (x + p) + a + b + (q + y)
  {
  }

  /** The first of the two blocks that change places. */
  function First(d: Document, dir: Direction): nat
    requires CanMove(d, dir)
  {
    if dir == Up then Index(d) - 1 else Index(d)
  }

  /** Where the neighbour's size says the selected block goes. */
  function Target(from: nat, sibling: nat, dir: Direction): int {
    if dir == Up then from - sibling else from + sibling
  }

  /** Deletes the node at the selection, then inserts and selects it at the target. */
  function Carry(d: Document, node: seq<Token>, sibling: nat, dir: Direction): Document
    requires d.from + |node| <= |d.tokens|
    requires 0 <= Target(d.from, sibling, dir) <= |d.tokens| - |node|
  {
    var target := Target(d.from, sibling, dir);
    d.(tokens := Insert(Delete(d.tokens, d.from, d.from + |node|), target, node), from := target)
  }

  lemma CarryUp(d: Document, p: seq<Token>, a: seq<Token>, b: seq<Token>, q: seq<Token>)
    requires d.tokens == p + a + b + q && d.from == |p| + |a|
    ensures Carry(d, b, |a|, Up) == d.(tokens := p + b + a + q, from := |p|)
  {
    CutAndPaste(p, a, b, q);
  }

  lemma CarryDown(d: Document, p: seq<Token>, a: seq<Token>, b: seq<Token>, q: seq<Token>)
    requires d.tokens == p + a + b + q && d.from == |p|
    ensures Carry(d, a, |b|, Down) == d.(tokens := p + b + a + q, from := |p| + |b|)
  {
    CutAndPaste(p, a, b, q);
  }

  lemma SelectedAround(d: Document, dir: Direction)
    requires Valid(d) && CanMove(d, dir)
    ensures var i, bs := First(d, dir), Children(d);
      && d.tokens == Before(d, i) + bs[i] + bs[i + 1] + After(d, i)
      && d.from == if dir == Up then |Before(d, i)| + |bs[i]| else |Before(d, i)|
  {
    Around(d, First(d, dir));
  }

  lemma Room(d: Document, node: seq<Token>, sibling: seq<Token>, dir: Direction,
             p: seq<Token>, q: seq<Token>)
    requires d.tokens == if dir == Up then p + sibling + node + q else p + node + sibling + q
    requires d.from == if dir == Up then |p| + |sibling| else |p|
    ensures d.from + |node| <= |d.tokens|
    ensures 0 <= Target(d.from, |sibling|, dir) <= |d.tokens| - |node|
  {
  }

  lemma MoveFits(d: Document, dir: Direction)
    requires Valid(d) && CanMove(d, dir)
    ensures var node, sibling := Children(d)[Index(d)], Children(d)[Neighbour(Index(d), dir)];
      d.from + |node| <= |d.tokens| && 0 <= Target(d.from, |sibling|, dir) <= |d.tokens| - |node|
  {
    var i := First(d, dir);
    SelectedAround(d, dir);
    Room(d, Children(d)[Index(d)], Children(d)[Neighbour(Index(d), dir)], dir, Before(d, i), After(d, i));
  }

  function Moved(d: Document, dir: Direction): Document
    requires Valid(d)
  {
    if !CanMove(d, dir) then d
    else
      MoveFits(d, dir);
      Carry(d, Children(d)[Index(d)], |Children(d)[Neighbour(Index(d), dir)]|, dir)
  }

  /** The document after a move: the two blocks have changed places, all else is as it was. */
  lemma MovedIs(d: Document, dir: Direction)
    requires Valid(d) && CanMove(d, dir)
    ensures var i, bs := First(d, dir), Children(d);
      Moved(d, dir) == d.(tokens := Before(d, i) + bs[i + 1] + bs[i] + After(d, i),
                          from := if dir == Up then |Before(d, i)| else |Before(d, i)| + |bs[i + 1]|)
  {
    var i, bs := First(d, dir), Children(d);
    SelectedAround(d, dir);
    if dir == Up {
      CarryUp(d, Before(d, i), bs[i], bs[i + 1], After(d, i));
    } else {
      CarryDown(d, Before(d, i), bs[i], bs[i + 1], After(d, i));
    }
  }

  lemma MiddleOf(x: seq<Token>, m: seq<Token>, y: seq<Token>)
    ensures (x + m + y)[|x|..|x| + |m|] == m
    ensures (x + m + y)[..|x|] == x && (x + m + y)[|x| + |m|..] == y
  {
  }

  lemma SameLength(d: Document, i: nat)
    requires Valid(d) && i + 1 < |Children(d)|
    ensures |Flat(Swapped(Children(d), i))| == |Flat(Children(d))| == d.end - d.start
  {
    FlatAround(Children(d), i);
    FlatSwapped(Children(d), i);
  }

  /** The parent's content after a move, and what is around it. */
  lemma MovedContent(d: Document, dir: Direction)
    requires Valid(d) && CanMove(d, dir)
    ensures var r, i := Moved(d, dir), First(d, dir);
      && r.tokens == d.tokens[..d.start] + Flat(Swapped(Children(d), i)) + d.tokens[d.end..]
      && r.end <= |r.tokens|
      && r.tokens[r.start..r.end] == Flat(Swapped(Children(d), i))
      && r.tokens[..r.start] == d.tokens[..d.start] && r.tokens[r.end..] == d.tokens[d.end..]
  {
    var i, bs := First(d, dir), Children(d);
    MovedIs(d, dir);
    FlatSwapped(bs, i);
    Enclose(d.tokens[..d.start], Flat(bs[..i]), bs[i + 1], bs[i], Flat(bs[i + 2..]), d.tokens[d.end..]);
    SameLength(d, i);
    MiddleOf(d.tokens[..d.start], Flat(Swapped(bs, i)), d.tokens[d.end..]);
  }

  lemma SwappedOffsets(bs: seq<seq<Token>>, i: nat)
    requires i + 1 < |bs|
    ensures Offset(Swapped(bs, i), i) == Offset(bs, i)
    ensures Offset(Swapped(bs, i), i + 1) == Offset(bs, i) + |bs[i + 1]|
  {
    assert Swapped(bs, i)[..i] == bs[..i];
    OffsetNext(Swapped(bs, i), i);
  }

  lemma OffsetInside(bs: seq<seq<Token>>, j: nat)
    requires AllBlocks(bs) && j < |bs|
    ensures Offset(bs, j) < |Flat(bs)|
  {
    assert bs == bs[..j] + bs[j..];
    FlatJoin(bs[..j], bs[j..]);
    assert IsBlock(bs[j]);
  }

  /** A document whose parent holds blocks, with a selection at the offset of one of them. */
  lemma ValidFrom(r: Document, bs: seq<seq<Token>>, j: nat)
    requires r.start <= r.end <= |r.tokens| && r.tokens[r.start..r.end] == Flat(bs)
    requires AllBlocks(bs) && j < |bs| && r.from == r.start + Offset(bs, j)
    ensures Valid(r) && Children(r) == bs && Index(r) == j
  {
    ReadsBack(bs);
    IndexAtOffset(bs, j);
    OffsetInside(bs, j);
  }

  lemma MovedFrom(d: Document, dir: Direction)
    requires Valid(d) && CanMove(d, dir)
    ensures Moved(d, dir).from ==
      d.start + Offset(Swapped(Children(d), First(d, dir)), Neighbour(Index(d), dir))
  {
    var i := First(d, dir);
    MovedIs(d, dir);
    Around(d, i);
    SwappedOffsets(Children(d), i);
  }

  lemma SwappedAll(bs: seq<seq<Token>>, i: nat)
    requires AllBlocks(bs) && i + 1 < |bs|
    ensures AllBlocks(Swapped(bs, i))
  {
  }

  /** A move swaps the block with its neighbour, lands on the boundary of that place, keeps the block
      selected, and leaves everything outside the parent alone. */
  lemma MoveSwaps(d: Document, dir: Direction)
    requires Valid(d) && CanMove(d, dir)
    ensures var r := Moved(d, dir);
      && Valid(r)
      && Children(r) == Swapped(Children(d), First(d, dir))
      && Index(r) == Neighbour(Index(d), dir)
      && r.tokens[..r.start] == d.tokens[..d.start] && r.tokens[r.end..] == d.tokens[d.end..]
      && r.start == d.start && r.end == d.end && r.selected
  {
    var i := First(d, dir);
    MovedContent(d, dir);
    MovedFrom(d, dir);
    SwappedAll(Children(d), i);
    ValidFrom(Moved(d, dir), Swapped(Children(d), i), Neighbour(Index(d), dir));
  }

  /** The block selected after a move is the block selected before. */
  lemma StaysSelected(d: Document, dir: Direction)
    requires Valid(d) && CanMove(d, dir)
    ensures Valid(Moved(d, dir))
    ensures Children(Moved(d, dir))[Index(Moved(d, dir))] == Children(d)[Index(d)]
  {
    MoveSwaps(d, dir);
  }

  function Opposite(dir: Direction): Direction {
    if dir == Up then Down else Up
  }

  lemma SwapBack(bs: seq<seq<Token>>, i: nat)
    requires i + 1 < |bs|
    ensures Swapped(Swapped(bs, i), i) == bs
  {
  }

  /** A document is told by its parent's blocks, what is around the parent, and the selected place. */
  lemma SameDocument(a: Document, b: Document)
    requires Valid(a) && Valid(b) && Children(a) == Children(b) && Index(a) == Index(b)
    requires a.start == b.start && a.end == b.end && a.selected == b.selected
    requires a.tokens[..a.start] == b.tokens[..b.start] && a.tokens[a.end..] == b.tokens[b.end..]
    ensures a == b
  {
    Parts(a);
    Parts(b);
  }

  /** Moving a block and moving it back restores the document. */
  lemma MoveBack(d: Document, dir: Direction)
    requires Valid(d) && CanMove(d, dir)
    ensures Valid(Moved(d, dir)) && CanMove(Moved(d, dir), Opposite(dir))
    ensures Moved(Moved(d, dir), Opposite(dir)) == d
  {
    var r, i := Moved(d, dir), First(d, dir);
    MoveSwaps(d, dir);
    assert First(r, Opposite(dir)) == i;
    MoveSwaps(r, Opposite(dir));
    SwapBack(Children(d), i);
    SameDocument(Moved(r, Opposite(dir)), d);
  }

  class Editor {
    var tokens: seq<Token>
    var start: nat
    var end: nat
    var from: nat
    var selected: bool

    ghost function Now(): Document
      reads this
    {
      Document(tokens, start, end, from, selected)
    }

    method CanMoveSelected(dir: Direction) returns (can: bool)
      requires Valid(Now())
      ensures can <==> CanMove(Now(), dir)
    {
      if !selected {
        return false;
      }
      var children := Blocks(tokens[start..end]);
      var target := Neighbour(IndexAt(children, from - start), dir);
      can := 0 <= target < |children|;
    }

    /** The transaction: delete the node, insert it at the target computed before, select it there. */
    method Dispatch(node: seq<Token>, sibling: nat, dir: Direction)
      requires from + |node| <= |tokens|
      requires 0 <= Target(from, sibling, dir) <= |tokens| - |node|
      modifies this`tokens, this`from
      ensures Now() == Carry(old(Now()), node, sibling, dir)
    {
      var target := Target(from, sibling, dir);
      tokens := Delete(tokens, from, from + |node|);
      tokens := Insert(tokens, target, node);
      from := target;
    }

    /** The selected block and its neighbour. */
    method Siblings(dir: Direction) returns (node: seq<Token>, sibling: seq<Token>)
      requires Valid(Now()) && CanMove(Now(), dir)
      ensures node == Children(Now())[Index(Now())]
      ensures sibling == Children(Now())[Neighbour(Index(Now()), dir)]
    {
      var children := Blocks(tokens[start..end]);
      var index := IndexAt(children, from - start);
      node, sibling := children[index], children[Neighbour(index, dir)];
    }

    method MoveSelected(dir: Direction) returns (moved: bool)
      requires Valid(Now())
      modifies this`tokens, this`from
      ensures moved <==> old(CanMove(Now(), dir))
      ensures Now() == Moved(old(Now()), dir) && Valid(Now())
    {
      moved := CanMoveSelected(dir);
      if moved {
        MoveSwaps(Now(), dir);
        var node, sibling := Siblings(dir);
        MoveFits(Now(), dir);
        Dispatch(node, |sibling|, dir);
      }
    }
  }
}
