/** A document as the tokens its positions count, and the blocks those tokens spell. */
module BlockText {

  /** An opening or closing boundary of a node, or a leaf: a character or a node without content. */
  datatype Token = Open(kind: string) | Close | Leaf(content: string)

  function Turn(t: Token): int {
    match t
    case Open(_) => 1
    case Close => -1
    case Leaf(_) => 0
  }

  function Depth(t: seq<Token>): int {
    if t == [] then 0 else Depth(t[..|t| - 1]) + Turn(t[|t| - 1])
  }

  /** One block: its outermost node closes at its last token and not before. */
  ghost predicate IsBlock(t: seq<Token>) {
    t != [] && Depth(t) == 0 && forall k :: 0 < k < |t| ==> Depth(t[..k]) > 0
  }

  ghost predicate AllBlocks(bs: seq<seq<Token>>) {
    forall i :: 0 <= i < |bs| ==> IsBlock(bs[i])
  }

  function Flat(bs: seq<seq<Token>>): seq<Token> {
    if bs == [] then [] else bs[0] + Flat(bs[1..])
  }

  /** The length of the block that starts `t`, having read `k` tokens of it. */
  function BlockLength(t: seq<Token>, k: nat): (n: nat)
    requires k < |t|
    ensures k < n <= |t|
    decreases |t| - k
  {
    if Depth(t[..k + 1]) <= 0 || k + 1 == |t| then k + 1 else BlockLength(t, k + 1)
  }

  /** The blocks that the tokens spell. */
  function Blocks(t: seq<Token>): (bs: seq<seq<Token>>)
    ensures Flat(bs) == t
  {
    if t == [] then []
    else
      var n := BlockLength(t, 0);
      assert t == t[..n] + t[n..];
      [t[..n]] + Blocks(t[n..])
  }

  lemma {:induction false} LengthOfFirst(b: seq<Token>, rest: seq<Token>, k: nat)
    requires IsBlock(b) && k < |b|
    ensures BlockLength(b + rest, k) == |b|
    decreases |b| - k
  {
    assert (b + rest)[..k + 1] == b[..k + 1];
    if k + 1 == |b| {
      assert b[..k + 1] == b;
    } else {
      assert Depth(b[..k + 1]) > 0;
      LengthOfFirst(b, rest, k + 1);
    }
  }

  /** Reading back what blocks spell gives those blocks. */
  lemma {:induction false} ReadsBack(bs: seq<seq<Token>>)
    requires AllBlocks(bs)
    ensures Blocks(Flat(bs)) == bs
  {
    if bs != [] {
      var b, rest := bs[0], Flat(bs[1..]);
      LengthOfFirst(b, rest, 0);
      assert (b + rest)[..|b|] == b && (b + rest)[|b|..] == rest;
      ReadsBack(bs[1..]);
    }
  }

  lemma {:induction false} FlatJoin(a: seq<seq<Token>>, b: seq<seq<Token>>)
    ensures Flat(a + b) == Flat(a) + Flat(b)
  {
    if a == [] {
      assert a + b == b;
    } else {
      assert (a + b)[1..] == a[1..] + b;
      FlatJoin(a[1..], b);
    }
  }

  // ---- positions inside the parent

  function Offset(bs: seq<seq<Token>>, i: nat): nat
    requires i <= |bs|
  {
    |Flat(bs[..i])|
  }

  /** How many blocks lie wholly before an offset. */
  function IndexAt(bs: seq<seq<Token>>, offset: int): (i: nat)
    ensures i <= |bs|
  {
    if bs == [] || offset < |bs[0]| then 0 else 1 + IndexAt(bs[1..], offset - |bs[0]|)
  }

  lemma {:induction false} IndexAtOffset(bs: seq<seq<Token>>, i: nat)
    requires i < |bs| && AllBlocks(bs)
    ensures IndexAt(bs, Offset(bs, i)) == i
  {
    assert IsBlock(bs[i]);
    if i > 0 {
      assert bs[..i][1..] == bs[1..][..i - 1];
      IndexAtOffset(bs[1..], i - 1);
    }
  }

  lemma OffsetNext(bs: seq<seq<Token>>, i: nat)
    requires i < |bs|
    ensures Offset(bs, i + 1) == Offset(bs, i) + |bs[i]|
  {
    assert bs[..i + 1] == bs[..i] + [bs[i]];
    FlatJoin(bs[..i], [bs[i]]);
    assert Flat([bs[i]]) == bs[i] + Flat([]) == bs[i];
  }
}
