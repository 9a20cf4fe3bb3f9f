/** Sizes of rooms on a floor plan, and the layout that packs them in rows. */
module Floorplan {
  import opened Options
  import opened RoomOrder

  datatype Profile = Interior | Technical

  const INSET: int := 20
  const GAP: int := 14
  const ROW_WIDTH: int := 780
  const HEADER: int := 44
  const SCALE: real := 56.0

  datatype Block = Block(room: Room, x: int, y: int, width: int, height: int, selected: bool)

  datatype Mode = Coordinate | Fallback

  datatype Layout = Layout(rooms: seq<Block>, width: int, height: int, mode: Mode)

  /** Rounds half up, as `Math.round` does. */
  function Round(x: real): (r: int)
    ensures r as real - 0.5 <= x < r as real + 0.5
  {
    (x + 0.5).Floor
  }

  function Max(a: int, b: int): int {
    if a >= b then a else b
  }

  function Clamp(value: int, min: int, max: int): (r: int)
    requires min <= max
    ensures min <= r <= max
    ensures min <= value <= max ==> r == value
  {
    var low := Max(min, value);
    if low <= max then low else max
  }

  function PositiveOrZero(room: Room, code: string): Option<real> {
    if code in room.fields && room.fields[code] >= 0.0 then Some(room.fields[code]) else None
  }

  function Positive(room: Room, code: string): Option<real> {
    if code in room.fields && room.fields[code] > 0.0 then Some(room.fields[code]) else None
  }

  function Or(value: Option<real>, default_: real): real {
    if value.Some? then value.value else default_
  }

  /** Size of a room in a row; `root` stands for the square root. */
  function RoomSize(room: Room, profile: Profile, root: real -> real): (size: (int, int))
    ensures profile == Interior ==> 108 <= size.0 <= 230 && 78 <= size.1 <= 172
    ensures profile == Technical ==> 118 <= size.0 <= 238 && 82 <= size.1 <= 168
  {
    match profile
    case Technical =>
      var scaled := root(Power(room)) * 7.5;
      (Clamp(Round(118.0 + scaled), 118, 238), Clamp(Round(82.0 + scaled * 0.55), 82, 168))
    case Interior =>
      (Clamp(Round(Or(Positive(room, "length_m"), 3.2) * 34.0), 108, 230),
       Clamp(Round(Or(Positive(room, "width_m"), 2.8) * 34.0), 78, 172))
  }

  /** Within half a pixel of an exact length, and at the nearer bound when that is out of range. */
  predicate SizedFor(size: int, exact: real, least: int, most: int) {
    if exact < least as real then size == least
    else if exact > most as real then size == most
    else -0.5 <= size as real - exact <= 0.5
  }

  /** The measure that is given, when it is greater than zero, or else the usual one. */
  predicate Measures(room: Room, code: string, usual: real, measure: real) {
    if code in room.fields && room.fields[code] > 0.0 then measure == room.fields[code] else measure == usual
  }

  /** An interior room is drawn 34 pixels to the metre, length across and width down, and 3.2 by 2.8 metres where no
      measure is given. */
  lemma DrawnToScale(room: Room, length: real, width: real, root: real -> real)
    requires Measures(room, "length_m", 3.2, length) && Measures(room, "width_m", 2.8, width)
    ensures var (w, h) := RoomSize(room, Interior, root);
      SizedFor(w, 34.0 * length, 108, 230) && SizedFor(h, 34.0 * width, 78, 172)
  {
  }

  /** A technical room is drawn by the root of its power, which is zero where none is given. */
  lemma DrawnToPower(room: Room, power: real, root: real -> real)
    requires power == if "power_w" in room.fields && room.fields["power_w"] >= 0.0 then room.fields["power_w"] else 0.0
    ensures var (w, h) := RoomSize(room, Technical, root);
      SizedFor(w, 118.0 + 7.5 * root(power), 118, 238) && SizedFor(h, 82.0 + 4.125 * root(power), 82, 168)
  {
    ScaledRoot(root(power));
  }

  lemma ScaledRoot(r: real)
    ensures (r * 7.5) * 0.55 == 4.125 * r
  {
  }

  /** The square root grows with its argument. */
  ghost predicate Grows(root: real -> real) {
    forall x, y :: 0.0 <= x <= y ==> root(x) <= root(y)
  }

  function Power(room: Room): real {
    Or(PositiveOrZero(room, "power_w"), 0.0)
  }

  /** A technical room of more power is drawn no smaller. */
  lemma PowerGrows(a: Room, b: Room, root: real -> real)
    requires Grows(root) && Power(a) <= Power(b)
    ensures RoomSize(a, Technical, root).0 <= RoomSize(b, Technical, root).0
    ensures RoomSize(a, Technical, root).1 <= RoomSize(b, Technical, root).1
  {
    assert root(Power(a)) <= root(Power(b));
  }

  // ---- rows

  /** The tallest room so far in the row of room `i`. */
  function RowHeight(blocks: seq<Block>, i: nat): int
    requires i < |blocks|
  {
    if i > 0 && blocks[i].y == blocks[i - 1].y then Max(RowHeight(blocks, i - 1), blocks[i].height)
    else blocks[i].height
  }

  predicate Fits(left: Block, width: int) {
    left.x + left.width + GAP + width <= ROW_WIDTH
  }

  /** Room `i` follows room `i - 1` in its row when it fits, and else opens the next row. */
  predicate Flows(blocks: seq<Block>, i: nat)
    requires i < |blocks|
  {
    if i == 0 then blocks[0].x == INSET && blocks[0].y == INSET + HEADER
    else
      var left := blocks[i - 1];
      if Fits(left, blocks[i].width) then
        blocks[i].x == left.x + left.width + GAP && blocks[i].y == left.y
      else
        blocks[i].x == INSET && blocks[i].y == left.y + RowHeight(blocks, i - 1) + GAP
  }

  ghost predicate InRows(blocks: seq<Block>) {
    forall i :: 0 <= i < |blocks| ==> Flows(blocks, i) && 0 < blocks[i].width <= 760 && 0 < blocks[i].height
  }

  /** The widest row, but at least the row width. */
  function RowsWidth(blocks: seq<Block>): int {
    if blocks == [] then ROW_WIDTH
    else
      var last := blocks[|blocks| - 1];
      Max(RowsWidth(blocks[..|blocks| - 1]), last.x + last.width + GAP + INSET)
  }

  function RowsBottom(blocks: seq<Block>): int {
    if blocks == [] then INSET + HEADER
    else blocks[|blocks| - 1].y + RowHeight(blocks, |blocks| - 1)
  }

  lemma {:induction false} RowHeightPrefix(blocks: seq<Block>, more: seq<Block>, i: nat)
    requires i < |blocks|
    ensures RowHeight(blocks + more, i) == RowHeight(blocks, i)
  {
    if i > 0 {
      RowHeightPrefix(blocks, more, i - 1);
    }
  }

  /** Where the packing cursor is after some rooms, and how tall their last row is. */
  ghost predicate CursorAfter(blocks: seq<Block>, x: int, y: int, rowHeight: int) {
    if blocks == [] then x == INSET && y == INSET + HEADER && rowHeight == 0
    else
      var last := blocks[|blocks| - 1];
      x == last.x + last.width + GAP && y == last.y && rowHeight == RowHeight(blocks, |blocks| - 1)
  }

  /** Placing one more room where the cursor is, after a line break when it does not fit. */
  lemma PlaceNext(blocks: seq<Block>, x: int, y: int, rowHeight: int, block: Block, breaks: bool)
    requires InRows(blocks) && CursorAfter(blocks, x, y, rowHeight)
    requires 0 < block.width <= 760 && 0 < block.height
    requires breaks == (x > INSET && x + block.width > ROW_WIDTH)
    requires block.x == if breaks then INSET else x
    requires block.y == if breaks then y + rowHeight + GAP else y
    ensures InRows(blocks + [block])
    ensures CursorAfter(blocks + [block], block.x + block.width + GAP, block.y,
                        Max(if breaks then 0 else rowHeight, block.height))
  {
    var n := |blocks|;
    if n > 0 {
      LastPositive(blocks);
      PlaceAfter(blocks, blocks[n - 1], RowHeight(blocks, n - 1), block, breaks);
    }
    forall i | 0 <= i < n
      ensures Flows(blocks + [block], i)
    {
      FlowsAppend(blocks, [block], i);
    }
  }

  lemma PlaceAfter(blocks: seq<Block>, last: Block, rowHeight: int, block: Block, breaks: bool)
    requires blocks != [] && last == blocks[|blocks| - 1] && last.x >= INSET && last.width > 0
    requires rowHeight == RowHeight(blocks, |blocks| - 1) && rowHeight > 0 && block.height > 0
    requires breaks == (last.x + last.width + GAP + block.width > ROW_WIDTH)
    requires block.x == if breaks then INSET else last.x + last.width + GAP
    requires block.y == if breaks then last.y + rowHeight + GAP else last.y
    ensures Flows(blocks + [block], |blocks|)
    ensures RowHeight(blocks + [block], |blocks|) == Max(if breaks then 0 else rowHeight, block.height)
  {
    RowHeightPrefix(blocks, [block], |blocks| - 1);
    assert (blocks + [block])[|blocks| - 1] == last;
  }

  lemma FlowsAppend(blocks: seq<Block>, more: seq<Block>, i: nat)
    requires i < |blocks|
    ensures Flows(blocks + more, i) <==> Flows(blocks, i)
  {
    if i > 0 {
      RowHeightPrefix(blocks, more, i - 1);
    }
  }

  lemma {:induction false} LastPositive(blocks: seq<Block>)
    requires InRows(blocks) && blocks != []
    ensures blocks[|blocks| - 1].x >= INSET && RowHeight(blocks, |blocks| - 1) > 0
  {
    RoomInRow(blocks, |blocks| - 1);
    RowsDescend(blocks, |blocks| - 1, |blocks| - 1);
  }

  ghost predicate Depicts(block: Block, room: Room, selectedId: Option<string>, size: Room -> (int, int)) {
    && block.room == room
    && block.selected == (Some(room.id) == selectedId)
    && block.width == size(room).0 && block.height == size(room).1
  }

  /** The blocks stand for the first rooms, one each and in order. */
  ghost predicate DepictsAll(blocks: seq<Block>, rooms: seq<Room>, selectedId: Option<string>,
                             size: Room -> (int, int)) {
    && |blocks| <= |rooms|
    && forall i :: 0 <= i < |blocks| ==> Depicts(blocks[i], rooms[i], selectedId, size)
  }

  lemma DepictsNext(blocks: seq<Block>, rooms: seq<Room>, selectedId: Option<string>, size: Room -> (int, int),
                    block: Block)
    requires DepictsAll(blocks, rooms, selectedId, size) && |blocks| < |rooms|
    requires Depicts(block, rooms[|blocks|], selectedId, size)
    ensures DepictsAll(blocks + [block], rooms, selectedId, size)
  {
  }

  /** Every room has a size that fits in a row. */
  ghost predicate Placeable(size: Room -> (int, int)) {
    forall room :: 0 < size(room).0 <= 760 && 0 < size(room).1
  }

  /** The loop of the packing after its first rooms: the blocks, the cursor, the row and the canvas. */
  ghost predicate Packed(blocks: seq<Block>, rooms: seq<Room>, selectedId: Option<string>, size: Room -> (int, int),
                         x: int, y: int, rowHeight: int, canvasWidth: int) {
    && DepictsAll(blocks, rooms, selectedId, size)
    && InRows(blocks) && CursorAfter(blocks, x, y, rowHeight)
    && canvasWidth == RowsWidth(blocks)
  }

  lemma PackedNext(blocks: seq<Block>, rooms: seq<Room>, selectedId: Option<string>, size: Room -> (int, int),
                   x: int, y: int, rowHeight: int, canvasWidth: int, block: Block, breaks: bool)
    requires Packed(blocks, rooms, selectedId, size, x, y, rowHeight, canvasWidth) && |blocks| < |rooms|
    requires Depicts(block, rooms[|blocks|], selectedId, size) && 0 < block.width <= 760 && 0 < block.height
    requires breaks == (x > INSET && x + block.width > ROW_WIDTH)
    requires block.x == if breaks then INSET else x
    requires block.y == if breaks then y + rowHeight + GAP else y
    ensures var right := block.x + block.width + GAP;
      Packed(blocks + [block], rooms, selectedId, size, right, block.y,
             Max(if breaks then 0 else rowHeight, block.height), Max(canvasWidth, right + INSET))
  {
    PlaceNext(blocks, x, y, rowHeight, block, breaks);
    DepictsNext(blocks, rooms, selectedId, size, block);
    assert (blocks + [block])[..|blocks|] == blocks;
  }

  method PackRooms(rooms: seq<Room>, selectedId: Option<string>, size: Room -> (int, int)) returns (layout: Layout)
    requires Placeable(size)
    ensures |layout.rooms| == |rooms| && DepictsAll(layout.rooms, rooms, selectedId, size)
    ensures InRows(layout.rooms)
    ensures layout.width == RowsWidth(layout.rooms)
    ensures layout.height == Max(240, RowsBottom(layout.rooms) + INSET)
    ensures layout.mode == Fallback
  {
    var x := INSET;
    var y := INSET + HEADER;
    var rowHeight := 0;
    var canvasWidth := ROW_WIDTH;
    var blocks: seq<Block> := [];
    for n := 0 to |rooms|
      invariant |blocks| == n
      invariant Packed(blocks, rooms, selectedId, size, x, y, rowHeight, canvasWidth)
    {
      var sides := size(rooms[n]);
      var width, height := sides.0, sides.1;
      var breaks := x > INSET && x + width > ROW_WIDTH;
      ghost var left, top, row := x, y, rowHeight;
      if breaks {
        x := INSET;
        y := y + rowHeight + GAP;
        rowHeight := 0;
      }
      var block := Block(rooms[n], x, y, width, height, Some(rooms[n].id) == selectedId);
      assert Depicts(block, rooms[n], selectedId, size) && 0 < width <= 760 && 0 < height;
      PackedNext(blocks, rooms, selectedId, size, left, top, row, canvasWidth, block, breaks);
      blocks := blocks + [block];
      x := x + width + GAP;
      rowHeight := Max(rowHeight, height);
      canvasWidth := Max(canvasWidth, x + INSET);
    }
    CursorAtBottom(blocks, x, y, rowHeight);
    layout := Layout(blocks, canvasWidth, Max(240, y + rowHeight + INSET), Fallback);
  }

  lemma CursorAtBottom(blocks: seq<Block>, x: int, y: int, rowHeight: int)
    requires CursorAfter(blocks, x, y, rowHeight)
    ensures y + rowHeight == RowsBottom(blocks)
  {
  }

  // ---- what rows guarantee

  lemma {:induction false} RowHeightCovers(blocks: seq<Block>, i: nat, j: nat)
    requires InRows(blocks) && i <= j < |blocks| && blocks[i].y == blocks[j].y
    ensures blocks[i].height <= RowHeight(blocks, j)
    decreases j
  {
    if i < j {
      SameRowBefore(blocks, i, j);
      RowHeightCovers(blocks, i, j - 1);
    }
  }

  lemma SameRowBefore(blocks: seq<Block>, i: nat, j: nat)
    requires InRows(blocks) && i < j < |blocks| && blocks[i].y == blocks[j].y
    ensures blocks[j - 1].y == blocks[j].y
  {
    RowsDescend(blocks, i, j - 1);
    RowsDescend(blocks, j - 1, j);
  }

  /** Later rooms are never higher up. */
  lemma {:induction false} RowsDescend(blocks: seq<Block>, i: nat, j: nat)
    requires InRows(blocks) && i <= j < |blocks|
    ensures blocks[i].y <= blocks[j].y
    ensures RowHeight(blocks, j) > 0
    decreases j
  {
    assert Flows(blocks, j);
    if j > 0 {
      RowsDescend(blocks, if i < j then i else j - 1, j - 1);
    }
  }

  /** Two rooms of one row are apart sideways, two rooms of different rows are apart downwards. */
  lemma {:induction false} RoomsApart(blocks: seq<Block>, i: nat, j: nat)
    requires InRows(blocks) && i < j < |blocks|
    ensures blocks[i].y == blocks[j].y ==> blocks[i].x + blocks[i].width + 14 <= blocks[j].x
    ensures blocks[i].y != blocks[j].y ==> blocks[i].y + blocks[i].height + 14 <= blocks[j].y
    decreases j
  {
    if i < j - 1 {
      RoomsApart(blocks, i, j - 1);
    }
    if Fits(blocks[j - 1], blocks[j].width) {
      assert Flows(blocks, j);
    } else {
      NextRow(blocks, i, j);
    }
  }

  /** A room that opens a row is below every room before it. */
  lemma NextRow(blocks: seq<Block>, i: nat, j: nat)
    requires InRows(blocks) && i < j < |blocks| && !Fits(blocks[j - 1], blocks[j].width)
    requires blocks[i].y != blocks[j - 1].y ==> blocks[i].y + blocks[i].height + GAP <= blocks[j - 1].y
    ensures blocks[i].y < blocks[j].y && blocks[i].y + blocks[i].height + GAP <= blocks[j].y
  {
    assert Flows(blocks, j);
    RowsDescend(blocks, i, j - 1);
    if blocks[i].y == blocks[j - 1].y {
      RowHeightCovers(blocks, i, j - 1);
    }
  }

  /** Every room stays between the side insets, below the header and above the bottom inset. */
  lemma RoomsInside(blocks: seq<Block>, i: nat)
    requires InRows(blocks) && i < |blocks|
    ensures 20 <= blocks[i].x && blocks[i].x + blocks[i].width <= 780
    ensures 64 <= blocks[i].y && blocks[i].y + blocks[i].height <= RowsBottom(blocks)
  {
    RoomInRow(blocks, i);
    assert Flows(blocks, 0);
    RowsDescend(blocks, 0, i);
    AboveBottom(blocks, i);
  }

  lemma AboveBottom(blocks: seq<Block>, i: nat)
    requires InRows(blocks) && i < |blocks|
    ensures blocks[i].y + blocks[i].height <= RowsBottom(blocks)
  {
    var last := |blocks| - 1;
    if blocks[i].y == blocks[last].y {
      RowHeightCovers(blocks, i, last);
    } else {
      RowsDescend(blocks, i, last);
      RoomsApart(blocks, i, last);
    }
  }

  lemma {:induction false} RoomInRow(blocks: seq<Block>, i: nat)
    requires InRows(blocks) && i < |blocks|
    ensures INSET <= blocks[i].x && blocks[i].x + blocks[i].width <= ROW_WIDTH
  {
    assert Flows(blocks, i);
    if i > 0 {
      RoomInRow(blocks, i - 1);
    }
  }

  /** The canvas is at least as wide as a row and at most one gap and one inset wider. */
  lemma {:induction false} CanvasWidth(blocks: seq<Block>)
    requires InRows(blocks)
    ensures 780 <= RowsWidth(blocks) <= 814
  {
    if blocks != [] {
      var n := |blocks| - 1;
      InRowsPrefix(blocks, n);
      RoomInRow(blocks, n);
      CanvasWidth(blocks[..n]);
    }
  }

  /** The tallest room of a row is one of its rooms, and no room before it in the row is taller. */
  lemma {:induction false} RowHeightReached(blocks: seq<Block>, j: nat) returns (i: nat)
    requires InRows(blocks) && j < |blocks|
    ensures i <= j && blocks[i].y == blocks[j].y && blocks[i].height == RowHeight(blocks, j)
    ensures forall k :: 0 <= k <= j && blocks[k].y == blocks[j].y ==> blocks[k].height <= blocks[i].height
  {
    i := j;
    if j > 0 && blocks[j].y == blocks[j - 1].y && RowHeight(blocks, j - 1) > blocks[j].height {
      i := RowHeightReached(blocks, j - 1);
    }
    forall k | 0 <= k <= j && blocks[k].y == blocks[j].y
      ensures blocks[k].height <= blocks[i].height
    {
      RowHeightCovers(blocks, k, j);
    }
  }

  /** The rows end where some room ends and none ends below. */
  lemma BottomReached(blocks: seq<Block>) returns (i: nat)
    requires InRows(blocks) && blocks != []
    ensures i < |blocks| && blocks[i].y + blocks[i].height == RowsBottom(blocks)
    ensures forall k :: 0 <= k < |blocks| ==> blocks[k].y + blocks[k].height <= RowsBottom(blocks)
  {
    i := RowHeightReached(blocks, |blocks| - 1);
    forall k | 0 <= k < |blocks|
      ensures blocks[k].y + blocks[k].height <= RowsBottom(blocks)
    {
      AboveBottom(blocks, k);
    }
  }

  /** The canvas is 780 wide, or 34 more than where some room ends, whichever is most. */
  lemma {:induction false} CanvasExactly(blocks: seq<Block>)
    ensures RowsWidth(blocks) == 780 ||
      exists i :: 0 <= i < |blocks| && blocks[i].x + blocks[i].width + 34 == RowsWidth(blocks)
    ensures RowsWidth(blocks) >= 780 &&
      forall i :: 0 <= i < |blocks| ==> blocks[i].x + blocks[i].width + 34 <= RowsWidth(blocks)
  {
    if blocks != [] {
      var n := |blocks| - 1;
      CanvasExactly(blocks[..n]);
      if i :| 0 <= i < n && blocks[..n][i].x + blocks[..n][i].width + 34 == RowsWidth(blocks[..n]) {
        assert blocks[i] == blocks[..n][i];
      }
      forall i | 0 <= i < |blocks|
        ensures blocks[i].x + blocks[i].width + 34 <= RowsWidth(blocks)
      {
        assert i < n ==> blocks[i] == blocks[..n][i];
      }
    }
  }

  lemma InRowsPrefix(blocks: seq<Block>, n: nat)
    requires InRows(blocks) && n <= |blocks|
    ensures InRows(blocks[..n])
  {
    forall i | 0 <= i < n
      ensures Flows(blocks[..n], i)
    {
      assert Flows(blocks, i);
      assert blocks == blocks[..n] + blocks[n..];
      FlowsAppend(blocks[..n], blocks[n..], i);
    }
  }
}
