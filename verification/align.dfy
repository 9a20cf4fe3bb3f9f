/** Aligning the selected nodes of a diagram. */
module Align {
  import opened Options
  import opened RealExtremes

  datatype Item = Item(
    id: string, x: real, y: real,
    width: Option<real>, height: Option<real>, measuredWidth: Option<real>, measuredHeight: Option<real>)

  datatype Axis = Horizontal | Vertical

  datatype Anchor = Start | End | Center

  /** "left", "right", "horizontalCenter" and their vertical counterparts: an anchor on an axis. */
  datatype Command = Command(axis: Axis, anchor: Anchor)

  function WidthOf(n: Item): real {
    if n.width.Some? then n.width.value else if n.measuredWidth.Some? then n.measuredWidth.value else 192.0
  }

  function HeightOf(n: Item): real {
    if n.height.Some? then n.height.value else if n.measuredHeight.Some? then n.measuredHeight.value else 96.0
  }

  function Size(axis: Axis, n: Item): real {
    if axis == Horizontal then WidthOf(n) else HeightOf(n)
  }

  function Position(axis: Axis, n: Item): real {
    if axis == Horizontal then n.x else n.y
  }

  function EndOf(axis: Axis, n: Item): real {
    Position(axis, n) + Size(axis, n)
  }

  function MoveTo(axis: Axis, n: Item, p: real): Item {
    if axis == Horizontal then n.(x := p) else n.(y := p)
  }

  function Positions(axis: Axis, ns: seq<Item>): seq<real> {
    seq(|ns|, i requires 0 <= i < |ns| => Position(axis, ns[i]))
  }

  function Ends(axis: Axis, ns: seq<Item>): seq<real> {
    seq(|ns|, i requires 0 <= i < |ns| => EndOf(axis, ns[i]))
  }

  /** The near and the far edge of a group. */
  function Near(axis: Axis, ns: seq<Item>): (r: real)
    requires ns != []
    ensures forall i :: 0 <= i < |ns| ==> r <= Position(axis, ns[i])
    ensures exists i :: 0 <= i < |ns| && r == Position(axis, ns[i])
  {
    var ps := Positions(axis, ns);
    assert forall i :: 0 <= i < |ns| ==> ps[i] == Position(axis, ns[i]);
    Least(ps)
  }

  function Far(axis: Axis, ns: seq<Item>): (r: real)
    requires ns != []
    ensures forall i :: 0 <= i < |ns| ==> EndOf(axis, ns[i]) <= r
    ensures exists i :: 0 <= i < |ns| && r == EndOf(axis, ns[i])
  {
    var es := Ends(axis, ns);
    assert forall i :: 0 <= i < |ns| ==> es[i] == EndOf(axis, ns[i]);
    Greatest(es)
  }

  function Selected(ns: seq<Item>, ids: set<string>): (r: seq<Item>)
    ensures forall n :: n in r <==> n in ns && n.id in ids
  {
    if ns == [] then []
    else (if ns[0].id in ids then [ns[0]] else []) + Selected(ns[1..], ids)
  }

  // ---- align

  function Anchored(c: Command, near: real, far: real, n: Item): real {
    match c.anchor
    case Start => near
    case End => far - Size(c.axis, n)
    case Center => near + (far - near) / 2.0 - Size(c.axis, n) / 2.0
  }

  function AlignOne(ids: set<string>, c: Command, near: real, far: real, n: Item): Item {
    if n.id in ids then MoveTo(c.axis, n, Anchored(c, near, far, n)) else n
  }

  function AlignEach(ns: seq<Item>, ids: set<string>, c: Command, near: real, far: real): (r: seq<Item>)
    ensures |r| == |ns|
    ensures forall i :: 0 <= i < |ns| ==> r[i] == AlignOne(ids, c, near, far, ns[i])
  {
    seq(|ns|, i requires 0 <= i < |ns| => AlignOne(ids, c, near, far, ns[i]))
  }

  function AlignNodes(ns: seq<Item>, ids: set<string>, c: Command): seq<Item> {
    var selected := Selected(ns, ids);
    if |selected| < 2 then ns
    else AlignEach(ns, ids, c, Near(c.axis, selected), Far(c.axis, selected))
  }

  /** Aligning keeps the selection: selecting after aligning is aligning what was selected. */
  lemma {:induction false} SelectedAligned(ns: seq<Item>, ids: set<string>, c: Command, near: real, far: real)
    ensures Selected(AlignEach(ns, ids, c, near, far), ids) == AlignEach(Selected(ns, ids), ids, c, near, far)
  {
    if ns != [] {
      SelectedAligned(ns[1..], ids, c, near, far);
      var all, rest := AlignEach(ns, ids, c, near, far), AlignEach(ns[1..], ids, c, near, far);
      assert all[1..] == rest;
      assert all[0].id == ns[0].id;
      if ns[0].id in ids {
        assert Selected(all, ids) == [all[0]] + Selected(rest, ids);
      } else {
        assert Selected(all, ids) == Selected(rest, ids);
      }
    }
  }

  /** The edge, or the centre, on which the selected nodes are aligned. */
  function Line(c: Command, n: Item): real {
    match c.anchor
    case Start => Position(c.axis, n)
    case End => EndOf(c.axis, n)
    case Center => Position(c.axis, n) + Size(c.axis, n) / 2.0
  }

  /** Moving one node along an axis puts it where asked, keeps its size and leaves the rest of it alone. */
  lemma MovedItem(axis: Axis, n: Item, p: real)
    ensures var m := MoveTo(axis, n, p);
      && Position(axis, m) == p
      && (forall other :: Size(other, m) == Size(other, n))
      && (forall other :: other != axis ==> Position(other, m) == Position(other, n))
      && m.id == n.id
  {
  }

  /** Where a node is anchored depends only on the edges, and puts it on a line that all nodes share. */
  lemma AnchoredLine(c: Command, near: real, far: real, m: Item, n: Item)
    ensures Line(c, MoveTo(c.axis, m, Anchored(c, near, far, m))) ==
      Line(c, MoveTo(c.axis, n, Anchored(c, near, far, n)))
  {
    MovedItem(c.axis, m, Anchored(c, near, far, m));
    MovedItem(c.axis, n, Anchored(c, near, far, n));
  }

  /** Only selected nodes move, only along the axis, and they end up on one line. */
  lemma AlignedOnOneLine(ns: seq<Item>, ids: set<string>, c: Command, i: nat, j: nat)
    requires |Selected(ns, ids)| >= 2 && i < |ns| && j < |ns|
    ensures var r := AlignNodes(ns, ids, c);
      && |r| == |ns|
      && r[i] == MoveTo(c.axis, ns[i], Position(c.axis, r[i]))
      && (ns[i].id !in ids ==> r[i] == ns[i])
      && (ns[i].id in ids && ns[j].id in ids ==> Line(c, r[i]) == Line(c, r[j]))
  {
    var s := Selected(ns, ids);
    var near, far := Near(c.axis, s), Far(c.axis, s);
    AnchoredLine(c, near, far, ns[i], ns[j]);
    assert AlignNodes(ns, ids, c) == AlignEach(ns, ids, c, near, far);
  }

  /** A node between two edges is anchored between them. */
  lemma AnchoredInside(c: Command, near: real, far: real, n: Item)
    requires near <= Position(c.axis, n) && EndOf(c.axis, n) <= far
    ensures near <= Anchored(c, near, far, n) && Anchored(c, near, far, n) + Size(c.axis, n) <= far
  {
  }

  /** Aligned nodes stay between the old edges of the group. */
  lemma AlignedInside(ns: seq<Item>, ids: set<string>, c: Command, i: nat)
    requires |Selected(ns, ids)| >= 2 && i < |ns| && ns[i].id in ids
    ensures var r, s := AlignNodes(ns, ids, c), Selected(ns, ids);
      Near(c.axis, s) <= Position(c.axis, r[i]) && EndOf(c.axis, r[i]) <= Far(c.axis, s)
  {
    var s := Selected(ns, ids);
    var near, far := Near(c.axis, s), Far(c.axis, s);
    assert ns[i] in s;
    var k :| 0 <= k < |s| && s[k] == ns[i];
    AnchoredInside(c, near, far, s[k]);
    MovedItem(c.axis, ns[i], Anchored(c, near, far, ns[i]));
    assert AlignNodes(ns, ids, c)[i] == AlignOne(ids, c, near, far, ns[i]);
  }

  /** The edges of anchored nodes, from the sizes of the outermost two. */
  lemma AnchorFromEdges(c: Command, near: real, far: real, a: Item, b: Item, n: Item)
    requires Position(c.axis, a) == Anchored(c, near, far, a) && Position(c.axis, b) == Anchored(c, near, far, b)
    requires Position(c.axis, a) <= Position(c.axis, b) && EndOf(c.axis, a) <= EndOf(c.axis, b)
    ensures Anchored(c, Position(c.axis, a), EndOf(c.axis, b), n) == Anchored(c, near, far, n)
  {
    if c.anchor == Center {
      var m := near + (far - near) / 2.0;
      assert Position(c.axis, a) == m - Size(c.axis, a) / 2.0;
      assert EndOf(c.axis, b) == m + Size(c.axis, b) / 2.0;
      assert Size(c.axis, a) == Size(c.axis, b);
    }
  }

  /** Nodes anchored between two edges give the same anchor again. */
  lemma AnchorStays(c: Command, near: real, far: real, a: seq<Item>, n: Item)
    requires a != [] && forall i :: 0 <= i < |a| ==> Position(c.axis, a[i]) == Anchored(c, near, far, a[i])
    ensures Anchored(c, Near(c.axis, a), Far(c.axis, a), n) == Anchored(c, near, far, n)
  {
    var left, right := Near(c.axis, a), Far(c.axis, a);
    var i :| 0 <= i < |a| && left == Position(c.axis, a[i]);
    var j :| 0 <= j < |a| && right == EndOf(c.axis, a[j]);
    assert left <= Position(c.axis, a[j]) && EndOf(c.axis, a[i]) <= right;
    AnchorFromEdges(c, near, far, a[i], a[j], n);
  }

  lemma AllAnchored(s: seq<Item>, ids: set<string>, c: Command, near: real, far: real)
    requires forall n :: n in s ==> n.id in ids
    ensures var a := AlignEach(s, ids, c, near, far);
      forall i :: 0 <= i < |a| ==> Position(c.axis, a[i]) == Anchored(c, near, far, a[i])
  {
    var a := AlignEach(s, ids, c, near, far);
    forall i | 0 <= i < |a|
      ensures Position(c.axis, a[i]) == Anchored(c, near, far, a[i])
    {
      assert s[i] in s;
      MovedItem(c.axis, s[i], Anchored(c, near, far, s[i]));
    }
  }

  /** Aligning twice is aligning once. */
  lemma AlignTwice(ns: seq<Item>, ids: set<string>, c: Command)
    ensures AlignNodes(AlignNodes(ns, ids, c), ids, c) == AlignNodes(ns, ids, c)
  {
    var s := Selected(ns, ids);
    if |s| >= 2 {
      var near, far := Near(c.axis, s), Far(c.axis, s);
      var s' := AlignEach(s, ids, c, near, far);
      SelectedAligned(ns, ids, c, near, far);
      AllAnchored(s, ids, c, near, far);
      AlignedAgain(ns, ids, c, near, far, s');
    }
  }

  lemma AlignedAgain(ns: seq<Item>, ids: set<string>, c: Command, near: real, far: real, a: seq<Item>)
    requires a != [] && forall i :: 0 <= i < |a| ==> Position(c.axis, a[i]) == Anchored(c, near, far, a[i])
    ensures var once := AlignEach(ns, ids, c, near, far);
      AlignEach(once, ids, c, Near(c.axis, a), Far(c.axis, a)) == once
  {
    var once := AlignEach(ns, ids, c, near, far);
    var twice := AlignEach(once, ids, c, Near(c.axis, a), Far(c.axis, a));
    forall i | 0 <= i < |ns|
      ensures twice[i] == once[i]
    {
      AnchorStays(c, near, far, a, once[i]);
      MovedItem(c.axis, ns[i], Anchored(c, near, far, ns[i]));
    }
  }

  // ---- the same, told by the fields of the nodes

  /** The width of a node: its own, else the measured one, else 192. */
  predicate Wide(n: Item, w: real) {
    n.width == Some(w) || (n.width == None && (n.measuredWidth == Some(w) || (n.measuredWidth == None && w == 192.0)))
  }

  /** The height of a node: its own, else the measured one, else 96. */
  predicate High(n: Item, h: real) {
    n.height == Some(h) ||
    (n.height == None && (n.measuredHeight == Some(h) || (n.measuredHeight == None && h == 96.0)))
  }

  /** Where the leftmost of the nodes starts, and where the rightmost ends. */
  ghost predicate Across(ns: seq<Item>, left: real, right: real) {
    && (forall n :: n in ns ==> left <= n.x) && (exists n :: n in ns && n.x == left)
    && (forall n, w :: n in ns && Wide(n, w) ==> n.x + w <= right)
    && (exists n, w :: n in ns && Wide(n, w) && n.x + w == right)
  }

  /** Where the topmost of the nodes starts, and where the lowest ends. */
  ghost predicate Down(ns: seq<Item>, top: real, bottom: real) {
    && (forall n :: n in ns ==> top <= n.y) && (exists n :: n in ns && n.y == top)
    && (forall n, h :: n in ns && High(n, h) ==> n.y + h <= bottom)
    && (exists n, h :: n in ns && High(n, h) && n.y + h == bottom)
  }

  lemma EdgesAcross(ns: seq<Item>, left: real, right: real)
    requires ns != [] && Across(ns, left, right)
    ensures left == Near(Horizontal, ns) && right == Far(Horizontal, ns)
  {
    var n :| n in ns && n.x == left;
    var i :| 0 <= i < |ns| && ns[i] == n;
    assert Near(Horizontal, ns) <= Position(Horizontal, ns[i]);
    var m, w :| m in ns && Wide(m, w) && m.x + w == right;
    var k :| 0 <= k < |ns| && ns[k] == m;
    assert EndOf(Horizontal, ns[k]) <= Far(Horizontal, ns);
    var j :| 0 <= j < |ns| && Far(Horizontal, ns) == EndOf(Horizontal, ns[j]);
    assert Wide(ns[j], WidthOf(ns[j]));
  }

  lemma EdgesDown(ns: seq<Item>, top: real, bottom: real)
    requires ns != [] && Down(ns, top, bottom)
    ensures top == Near(Vertical, ns) && bottom == Far(Vertical, ns)
  {
    var n :| n in ns && n.y == top;
    var i :| 0 <= i < |ns| && ns[i] == n;
    assert Near(Vertical, ns) <= Position(Vertical, ns[i]);
    var m, h :| m in ns && High(m, h) && m.y + h == bottom;
    var k :| 0 <= k < |ns| && ns[k] == m;
    assert EndOf(Vertical, ns[k]) <= Far(Vertical, ns);
    var j :| 0 <= j < |ns| && Far(Vertical, ns) == EndOf(Vertical, ns[j]);
    assert High(ns[j], HeightOf(ns[j]));
  }

  /** Aligned left, every selected node starts where the leftmost one starts; right, it ends where the rightmost one
      ends; and at the horizontal centre its middle is halfway between. Only `x` changes. */
  lemma AlignedAcross(ns: seq<Item>, ids: set<string>, anchor: Anchor, i: nat, w: real, left: real, right: real)
    requires |Selected(ns, ids)| >= 2 && i < |ns| && ns[i].id in ids
    requires Wide(ns[i], w) && Across(Selected(ns, ids), left, right)
    ensures var m := AlignNodes(ns, ids, Command(Horizontal, anchor))[i];
      && m == ns[i].(x := m.x)
      && (anchor == Start ==> m.x == left)
      && (anchor == End ==> m.x + w == right)
      && (anchor == Center ==> m.x + w / 2.0 == (left + right) / 2.0)
  {
    EdgesAcross(Selected(ns, ids), left, right);
    assert AlignNodes(ns, ids, Command(Horizontal, anchor))[i] ==
      AlignOne(ids, Command(Horizontal, anchor), left, right, ns[i]);
  }

  /** Aligned at the top, every selected node starts where the topmost one starts; at the bottom, it ends where the
      lowest one ends; and at the vertical centre its middle is halfway between. Only `y` changes. */
  lemma AlignedDown(ns: seq<Item>, ids: set<string>, anchor: Anchor, i: nat, h: real, top: real, bottom: real)
    requires |Selected(ns, ids)| >= 2 && i < |ns| && ns[i].id in ids
    requires High(ns[i], h) && Down(Selected(ns, ids), top, bottom)
    ensures var m := AlignNodes(ns, ids, Command(Vertical, anchor))[i];
      && m == ns[i].(y := m.y)
      && (anchor == Start ==> m.y == top)
      && (anchor == End ==> m.y + h == bottom)
      && (anchor == Center ==> m.y + h / 2.0 == (top + bottom) / 2.0)
  {
    EdgesDown(Selected(ns, ids), top, bottom);
    assert AlignNodes(ns, ids, Command(Vertical, anchor))[i] ==
      AlignOne(ids, Command(Vertical, anchor), top, bottom, ns[i]);
  }
}
