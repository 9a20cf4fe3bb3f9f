/** Blocks are trees: the tokens that count as one block are exactly those that some node spells. */
module BlockTree {
  import opened BlockText
  import opened BlockMove

  datatype Tree = Atom(content: string) | Element(kind: string, children: seq<Tree>)

  /** A node without content is one position; any other has a boundary on both sides of its content. */
  function Spell(x: Tree): seq<Token>
    decreases x, 0
  {
    match x
    case Atom(content) => [Leaf(content)]
    case Element(kind, children) => [Open(kind)] + SpellAll(children) + [Close]
  }

  function SpellAll(xs: seq<Tree>): seq<Token>
    decreases xs, 1
  {
    if xs == [] then [] else Spell(xs[0]) + SpellAll(xs[1..])
  }

  lemma {:induction false} DepthJoin(a: seq<Token>, b: seq<Token>)
    ensures Depth(a + b) == Depth(a) + Depth(b)
    decreases |b|
  {
    if b == [] {
      assert a + b == a;
    } else {
      var n := |b| - 1;
      assert (a + b)[..|a| + n] == a + b[..n];
      DepthJoin(a, b[..n]);
    }
  }

  /** Nothing is closed that was not opened, and all is closed at the end. */
  ghost predicate Balanced(t: seq<Token>) {
    Depth(t) == 0 && forall k :: 0 <= k <= |t| ==> Depth(t[..k]) >= 0
  }

  lemma BalancedJoin(a: seq<Token>, b: seq<Token>)
    requires Balanced(a) && Balanced(b)
    ensures Balanced(a + b)
  {
    DepthJoin(a, b);
    forall k | 0 <= k <= |a + b|
      ensures Depth((a + b)[..k]) >= 0
    {
      if k <= |a| {
        assert (a + b)[..k] == a[..k];
      } else {
        assert (a + b)[..k] == a + b[..k - |a|];
        DepthJoin(a, b[..k - |a|]);
      }
    }
  }

  lemma BlockBalanced(t: seq<Token>)
    requires IsBlock(t)
    ensures Balanced(t)
  {
    assert t[..|t|] == t;
  }

  /** A balanced content between two boundaries is one block. */
  lemma Wrapped(kind: string, content: seq<Token>)
    requires Balanced(content)
    ensures IsBlock([Open(kind)] + content + [Close])
  {
    var t := [Open(kind)] + content + [Close];
    assert Depth([Open(kind)]) == 1 && Depth([Close]) == -1;
    DepthJoin([Open(kind)] + content, [Close]);
    DepthJoin([Open(kind)], content);
    forall k | 0 < k < |t|
      ensures Depth(t[..k]) > 0
    {
      assert t[..k] == [Open(kind)] + content[..k - 1];
      DepthJoin([Open(kind)], content[..k - 1]);
    }
  }

  lemma {:induction false} SpelledBlock(x: Tree)
    ensures IsBlock(Spell(x))
    decreases x, 0
  {
    if x.Element? {
      SpelledBalanced(x.children);
      Wrapped(x.kind, SpellAll(x.children));
    }
  }

  lemma {:induction false} SpelledBalanced(xs: seq<Tree>)
    ensures Balanced(SpellAll(xs))
    decreases xs, 1
  {
    if xs != [] {
      SpelledBlock(xs[0]);
      BlockBalanced(Spell(xs[0]));
      SpelledBalanced(xs[1..]);
      BalancedJoin(Spell(xs[0]), SpellAll(xs[1..]));
    }
  }

  /** A block of more than one token is a balanced content between two boundaries. */
  lemma Unwrapped(t: seq<Token>)
    requires IsBlock(t) && |t| > 1
    ensures t[0].Open? && t[|t| - 1] == Close && Balanced(t[1..|t| - 1])
    ensures t == [t[0]] + t[1..|t| - 1] + [Close]
  {
    var n := |t| - 1;
    assert t[..1] == [t[0]] && Depth(t[..1]) > 0 && Depth([t[0]]) == Turn(t[0]);
    assert Depth(t) == Depth(t[..n]) + Turn(t[n]);
    forall k | 0 <= k <= n - 1
      ensures Depth(t[1..n][..k]) >= 0
    {
      assert t[..k + 1] == [t[0]] + t[1..n][..k];
      DepthJoin([t[0]], t[1..n][..k]);
    }
    assert t[..n] == [t[0]] + t[1..n];
    DepthJoin([t[0]], t[1..n]);
  }

  /** The tokens of the first block: the shortest start at which all is closed. */
  lemma {:induction false} FirstBlock(t: seq<Token>, k: nat)
    requires Balanced(t) && k < |t| && forall j :: 0 < j <= k ==> Depth(t[..j]) > 0
    ensures IsBlock(t[..BlockLength(t, k)])
    decreases |t| - k
  {
    assert t[..|t|] == t;
    if Depth(t[..k + 1]) > 0 {
      FirstBlock(t, k + 1);
    } else {
      var b := t[..k + 1];
      forall j | 0 < j < |b|
        ensures Depth(b[..j]) > 0
      {
        assert b[..j] == t[..j];
      }
    }
  }

  lemma BalancedRest(a: seq<Token>, b: seq<Token>)
    requires Balanced(a + b) && Depth(a) == 0
    ensures Balanced(b)
  {
    DepthJoin(a, b);
    forall k | 0 <= k <= |b|
      ensures Depth(b[..k]) >= 0
    {
      assert (a + b)[..|a| + k] == a + b[..k];
      DepthJoin(a, b[..k]);
    }
  }

  /** The node that a block spells. */
  lemma {:induction false} Parse(t: seq<Token>) returns (x: Tree)
    requires IsBlock(t)
    ensures Spell(x) == t
    decreases |t|, 0
  {
    if |t| == 1 {
      assert t == [] + [t[0]] && Depth(t) == Turn(t[0]);
      x := Atom(t[0].content);
    } else {
      Unwrapped(t);
      var children := ParseAll(t[1..|t| - 1]);
      x := Element(t[0].kind, children);
    }
  }

  /** The nodes that a balanced content spells. */
  lemma {:induction false} ParseAll(t: seq<Token>) returns (xs: seq<Tree>)
    requires Balanced(t)
    ensures SpellAll(xs) == t
    decreases |t|, 1
  {
    xs := [];
    if t != [] {
      var n := BlockLength(t, 0);
      FirstBlock(t, 0);
      assert t == t[..n] + t[n..];
      BalancedRest(t[..n], t[n..]);
      var first := Parse(t[..n]);
      var rest := ParseAll(t[n..]);
      xs := [first] + rest;
      assert xs[1..] == rest;
    }
  }

  /** Some tokens are a block exactly when a node spells them. */
  lemma BlockExactly(t: seq<Token>)
    ensures IsBlock(t) <==> exists x :: Spell(x) == t
  {
    if IsBlock(t) {
      var x := Parse(t);
    }
    if x :| Spell(x) == t {
      SpelledBlock(x);
    }
  }

  /** The blocks of a content are the nodes it holds, each by itself. */
  lemma {:induction false} BlocksOfNodes(xs: seq<Tree>)
    ensures |Blocks(SpellAll(xs))| == |xs|
    ensures forall i :: 0 <= i < |xs| ==> Blocks(SpellAll(xs))[i] == Spell(xs[i])
  {
    if xs != [] {
      var b, rest := Spell(xs[0]), SpellAll(xs[1..]);
      SpelledBlock(xs[0]);
      LengthOfFirst(b, rest, 0);
      assert (b + rest)[..|b|] == b && (b + rest)[|b|..] == rest;
      BlocksOfNodes(xs[1..]);
      assert Blocks(SpellAll(xs)) == [b] + Blocks(rest);
    }
  }

  // ---- when a block can move

  lemma WholeOffset(bs: seq<seq<Token>>)
    ensures Offset(bs, |bs|) == |Flat(bs)|
  {
    assert bs[..|bs|] == bs;
  }

  lemma {:induction false} OffsetGrows(bs: seq<seq<Token>>, i: nat, j: nat)
    requires AllBlocks(bs) && i < j <= |bs|
    ensures Offset(bs, i) < Offset(bs, j)
    decreases j
  {
    OffsetNext(bs, j - 1);
    assert IsBlock(bs[j - 1]);
    if i < j - 1 {
      OffsetGrows(bs, i, j - 1);
    }
  }

  /** One block does not start another. */
  lemma OneStart(a: seq<Token>, b: seq<Token>)
    requires IsBlock(a) && IsBlock(b) && (a <= b || b <= a)
    ensures a == b
  {
    assert a <= b ==> a == b[..|a|];
    assert b <= a ==> b == a[..|b|];
  }

  lemma {:induction false} FlatSplit(bs: seq<seq<Token>>, i: nat)
    requires i < |bs|
    ensures Flat(bs) == Flat(bs[..i]) + bs[i] + Flat(bs[i + 1..])
  {
    if i == 0 {
      FrontFour([], [], bs[0], Flat(bs[1..]));
    } else {
      FlatSplit(bs[1..], i - 1);
      assert bs[1..][..i - 1] == bs[..i][1..] && bs[1..][i..] == bs[i + 1..];
      FrontFour(bs[0], Flat(bs[..i][1..]), bs[i], Flat(bs[i + 1..]));
    }
  }

  lemma FrontFour(x: seq<Token>, p: seq<Token>, a: seq<Token>, rest: seq<Token>)
    ensures x + (p + a + rest) == (x + p) + a + rest
    ensures [] + a + rest == a + rest
  {
  }

  lemma InMiddle(t: seq<Token>, x: seq<Token>, p: seq<Token>, b: seq<Token>, q: seq<Token>, y: seq<Token>)
    requires t == x + (p + b + q) + y
    ensures var n := |x| + |p|; n + |b| <= |t| && t[n..n + |b|] == b
  {
  }

  lemma OffsetEnds(bs: seq<seq<Token>>, i: nat)
    requires AllBlocks(bs) && i < |bs|
    ensures Offset(bs, i) + |bs[i]| == Offset(bs, i + 1) <= |Flat(bs)|
  {
    OffsetNext(bs, i);
    WholeOffset(bs);
    if i + 1 < |bs| {
      OffsetGrows(bs, i + 1, |bs|);
    }
  }

  lemma SelectedStands(d: Document)
    requires Valid(d)
    ensures var b := Children(d)[Index(d)];
      IsBlock(b) && d.from + |b| <= d.end && d.tokens[d.from..d.from + |b|] == b
  {
    var bs, i := Children(d), Index(d);
    OffsetEnds(bs, i);
    Parts(d);
    StandsIn(d, bs, i);
  }

  lemma StandsIn(d: Document, bs: seq<seq<Token>>, i: nat)
    requires d.start <= d.end <= |d.tokens| && i < |bs|
    requires d.tokens == d.tokens[..d.start] + Flat(bs) + d.tokens[d.end..]
    ensures var n := d.start + Offset(bs, i); n + |bs[i]| <= |d.tokens| && d.tokens[n..n + |bs[i]|] == bs[i]
  {
    FlatSplit(bs, i);
    InMiddle(d.tokens, d.tokens[..d.start], Flat(bs[..i]), bs[i], Flat(bs[i + 1..]), d.tokens[d.end..]);
  }

  /** The selected block can move up exactly when something of its parent stands before it, and down exactly when
      something of its parent stands behind it. */
  lemma CanMoveExactly(d: Document)
    requires Valid(d)
    ensures CanMove(d, Up) <==> d.selected && d.start < d.from
    ensures CanMove(d, Down) <==>
      d.selected && exists e :: d.from < e < d.end && IsBlock(d.tokens[d.from..e])
  {
    var bs, i := Children(d), Index(d);
    SelectedStands(d);
    OffsetNext(bs, i);
    WholeOffset(bs);
    if i > 0 {
      OffsetGrows(bs, 0, i);
    }
    var end := d.from + |bs[i]|;
    if i + 1 < |bs| {
      OffsetGrows(bs, i + 1, |bs|);
      assert IsBlock(d.tokens[d.from..end]);
    }
    forall e | d.from < e < d.end && IsBlock(d.tokens[d.from..e])
      ensures e == end
    {
      StartsTogether(d.tokens, d.from, e, end);
      OneStart(d.tokens[d.from..e], bs[i]);
    }
  }

  lemma StartsTogether(t: seq<Token>, from: nat, a: nat, b: nat)
    requires from <= a <= |t| && from <= b <= |t|
    ensures t[from..a] <= t[from..b] || t[from..b] <= t[from..a]
  {
  }
}
