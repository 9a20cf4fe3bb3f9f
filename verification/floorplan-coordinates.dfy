/** Rooms drawn at their plan coordinates, and the choice between the two layouts. */
module FloorplanCoordinates {
  import opened Options
  import opened RoomOrder
  import opened Floorplan
  import opened RealExtremes

  /** A room with all four plan measures, in metres; `y` grows upwards. */
  datatype Plan = Plan(room: Room, x: real, y: real, length: real, width: real)

  function PlanOf(room: Room): Option<Plan> {
    var x, y := PositiveOrZero(room, "plan_x"), PositiveOrZero(room, "plan_y");
    var length, width := Positive(room, "length_m"), Positive(room, "width_m");
    if x.None? || y.None? || length.None? || width.None? then None
    else Some(Plan(room, x.value, y.value, length.value, width.value))
  }

  /** The plans of all rooms, or none when one room lacks a measure. */
  function PlansOf(rooms: seq<Room>): (r: Option<seq<Plan>>)
    ensures r.Some? <==> forall i :: 0 <= i < |rooms| ==> PlanOf(rooms[i]).Some?
    ensures r.Some? ==>
      && |r.value| == |rooms|
      && forall i :: 0 <= i < |rooms| ==> PlanOf(rooms[i]) == Some(r.value[i])
  {
    if rooms == [] then Some([])
    else
      var n := |rooms| - 1;
      var earlier, last := PlansOf(rooms[..n]), PlanOf(rooms[n]);
      if earlier.None? || last.None? then None else Some(earlier.value + [last.value])
  }

  /** The rectangle that the plan covers. */
  datatype Extent = Extent(minX: real, minY: real, maxX: real, maxY: real)

  function ExtentOf(plans: seq<Plan>): (e: Extent)
    requires plans != []
    ensures forall i :: 0 <= i < |plans| ==>
      && e.minX <= plans[i].x && plans[i].x + plans[i].length <= e.maxX
      && e.minY <= plans[i].y && plans[i].y + plans[i].width <= e.maxY
    ensures exists i :: 0 <= i < |plans| && plans[i].x == e.minX
    ensures exists i :: 0 <= i < |plans| && plans[i].y == e.minY
    ensures exists i :: 0 <= i < |plans| && plans[i].x + plans[i].length == e.maxX
    ensures exists i :: 0 <= i < |plans| && plans[i].y + plans[i].width == e.maxY
  {
    var xs := seq(|plans|, i requires 0 <= i < |plans| => plans[i].x);
    var ys := seq(|plans|, i requires 0 <= i < |plans| => plans[i].y);
    var rights := seq(|plans|, i requires 0 <= i < |plans| => plans[i].x + plans[i].length);
    var tops := seq(|plans|, i requires 0 <= i < |plans| => plans[i].y + plans[i].width);
    assert forall i :: 0 <= i < |plans| ==>
      xs[i] == plans[i].x && ys[i] == plans[i].y &&
      rights[i] == plans[i].x + plans[i].length && tops[i] == plans[i].y + plans[i].width;
    Extent(Least(xs), Least(ys), Greatest(rights), Greatest(tops))
  }

  /** The drawing turns the plan upside down: `y` on the canvas grows downwards. */
  function Place(p: Plan, e: Extent, selectedId: Option<string>): Block {
    Block(p.room,
          INSET + Round((p.x - e.minX) * SCALE),
          INSET + Round((e.maxY - p.y - p.width) * SCALE),
          Round(p.length * SCALE),
          Round(p.width * SCALE),
          Some(p.room.id) == selectedId)
  }

  function AtLeastOne(x: real): real {
    if x >= 1.0 then x else 1.0
  }

  function CoordinateLayout(plans: seq<Plan>, selectedId: Option<string>): Layout
    requires plans != []
  {
    var e := ExtentOf(plans);
    Layout(seq(|plans|, i requires 0 <= i < |plans| => Place(plans[i], e, selectedId)),
           Max(360, Round(AtLeastOne(e.maxX - e.minX) * SCALE) + INSET * 2),
           Max(240, Round(AtLeastOne(e.maxY - e.minY) * SCALE) + INSET * 2),
           Coordinate)
  }

  // ---- rounding

  /** Rounding two lengths apart and together differs by at most one. */
  lemma RoundApart(a: real, b: real, total: real)
    requires a + b <= total
    ensures Round(a) + Round(b) <= Round(total) + 1
  {
  }

  // ---- what the layout guarantees

  /** Every room keeps 20 pixels on its near sides and at least 19 on its far sides. */
  lemma Margins(plans: seq<Plan>, selectedId: Option<string>, i: nat)
    requires i < |plans|
    ensures var l := CoordinateLayout(plans, selectedId); var b := l.rooms[i];
      && 20 <= b.x && b.x + b.width <= l.width - 19
      && 20 <= b.y && b.y + b.height <= l.height - 19
  {
    var e, p := ExtentOf(plans), plans[i];
    Scaled(p.x - e.minX, p.length, AtLeastOne(e.maxX - e.minX));
    Scaled(e.maxY - p.y - p.width, p.width, AtLeastOne(e.maxY - e.minY));
  }

  lemma Scaled(start: real, size: real, total: real)
    requires 0.0 <= start && start + size <= total
    ensures 0 <= Round(start * SCALE)
    ensures Round(start * SCALE) + Round(size * SCALE) <= Round(total * SCALE) + 1
  {
    RoundApart(start * SCALE, size * SCALE, total * SCALE);
  }

  /** Rooms that lie side by side in the plan overlap by at most one pixel on that axis. */
  lemma SideBySide(plans: seq<Plan>, selectedId: Option<string>, i: nat, j: nat)
    requires i < |plans| && j < |plans|
    ensures var rooms := CoordinateLayout(plans, selectedId).rooms;
      && (plans[i].x + plans[i].length <= plans[j].x ==> rooms[i].x + rooms[i].width <= rooms[j].x + 1)
      && (plans[i].y + plans[i].width <= plans[j].y ==> rooms[j].y + rooms[j].height <= rooms[i].y + 1)
  {
    var e, p, q := ExtentOf(plans), plans[i], plans[j];
    if p.x + p.length <= q.x {
      RoundApart((p.x - e.minX) * SCALE, p.length * SCALE, (q.x - e.minX) * SCALE);
    }
    if p.y + p.width <= q.y {
      RoundApart((e.maxY - q.y - q.width) * SCALE, q.width * SCALE, (e.maxY - p.y - p.width) * SCALE);
    }
  }

  /** Every edge is drawn within half a pixel of its exact place, and sizes within half a pixel. */
  lemma WithinHalfPixel(plans: seq<Plan>, selectedId: Option<string>, i: nat)
    requires i < |plans|
    ensures var e, p, b := ExtentOf(plans), plans[i], CoordinateLayout(plans, selectedId).rooms[i];
      && b.room == p.room
      && -0.5 <= b.x as real - (20.0 + 56.0 * (p.x - e.minX)) <= 0.5
      && -0.5 <= b.y as real - (20.0 + 56.0 * (e.maxY - (p.y + p.width))) <= 0.5
      && -0.5 <= b.width as real - 56.0 * p.length <= 0.5
      && -0.5 <= b.height as real - 56.0 * p.width <= 0.5
  {
  }

  /** How far a length is above the bound at which it rounds up to its pixel. */
  function Above(x: real): (r: real)
    ensures 0.0 <= r < 1.0
  {
    x + 0.5 - Round(x) as real
  }

  /** Two lengths and a gap, rounded apart and together. */
  lemma RoundExactly(a: real, b: real, gap: real, c: real)
    requires gap >= 0.0 && c == a + b + gap
    ensures Round(a) + Round(b) == Round(c) + 1 <==> Above(a) + Above(b) + gap < 0.5
    ensures Round(a) + Round(b) < Round(c) <==> Above(a) + Above(b) + gap >= 1.5
  {
  }

  /** What two lengths and a gap leave over when all are rounded, in pixels. */
  function Slack(start: real, size: real, gap: real): real {
    Above(start * SCALE) + Above(size * SCALE) + gap * SCALE
  }

  /** What is drawn overlaps, by one pixel, exactly when less than half a pixel is left over, and there is
      a pixel in between exactly when one and a half are. */
  predicate Parted(near: int, extent: int, far: int, slack: real) {
    && (near + extent == far + 1 <==> slack < 0.5)
    && (near + extent < far <==> slack >= 1.5)
  }

  lemma SlackExactly(start: real, size: real, gap: real, next: real, near: int, extent: int, far: int)
    requires gap >= 0.0 && next == start + size + gap
    requires near == INSET + Round(start * SCALE) && extent == Round(size * SCALE) && far == INSET + Round(next * SCALE)
    ensures Parted(near, extent, far, Slack(start, size, gap))
  {
    RoundExactly(start * SCALE, size * SCALE, gap * SCALE, next * SCALE);
  }

  /** Rooms side by side in the plan overlap, by one pixel, exactly when the roundings and the gap leave
      less than half a pixel, and there is a pixel between them exactly when they leave one and a half. */
  lemma OverlapExactly(p: Plan, q: Plan, e: Extent, left: Block, right: Block, selectedId: Option<string>)
    requires p.x + p.length <= q.x && left == Place(p, e, selectedId) && right == Place(q, e, selectedId)
    ensures Parted(left.x, left.width, right.x, Slack(p.x - e.minX, p.length, q.x - p.x - p.length))
  {
    SlackExactly(p.x - e.minX, p.length, q.x - p.x - p.length, q.x - e.minX, left.x, left.width, right.x);
  }

  /** The same for rooms one behind the other; the drawing puts the far one on top. */
  lemma OverlapExactlyDown(p: Plan, q: Plan, e: Extent, lower: Block, upper: Block, selectedId: Option<string>)
    requires p.y + p.width <= q.y && lower == Place(p, e, selectedId) && upper == Place(q, e, selectedId)
    ensures Parted(upper.y, upper.height, lower.y, Slack(e.maxY - q.y - q.width, q.width, q.y - p.y - p.width))
  {
    SlackExactly(e.maxY - q.y - q.width, q.width, q.y - p.y - p.width, e.maxY - p.y - p.width,
                 upper.y, upper.height, lower.y);
  }

  function Placed(id: string, x: real, length: real): Room {
    Room(id, id, map["plan_x" := x, "plan_y" := 0.0, "length_m" := length, "width_m" := 1.0])
  }

  const HALF_PIXEL: real := 0.5 / SCALE

  /** Three rooms in a row, the first two half a pixel long. */
  function Slivers(): (rooms: seq<Room>)
    ensures Distinct(IdsInOrder(rooms)) && "" !in Ids(rooms)
  {
    var rooms := [Placed("a", 0.0, HALF_PIXEL), Placed("b", HALF_PIXEL, HALF_PIXEL),
                  Placed("c", 2.0 * HALF_PIXEL, 1.0)];
    SliverIds(rooms);
    rooms
  }

  lemma SliverIds(rooms: seq<Room>)
    requires |rooms| == 3 && rooms[0].id == "a" && rooms[1].id == "b" && rooms[2].id == "c"
    ensures Distinct(IdsInOrder(rooms)) && "" !in Ids(rooms)
  {
    assert forall i :: 0 <= i < 3 ==> IdsInOrder(rooms)[i] == rooms[i].id;
    assert rooms[0].id[0] == 'a' && rooms[1].id[0] == 'b' && rooms[2].id[0] == 'c';
  }

  lemma SliverPlans() returns (plans: seq<Plan>, half: real)
    ensures HasCoordinates(Slivers()) && PlansOf(Slivers()) == Some(plans)
    ensures |plans| == 3 && half == HALF_PIXEL && half > 0.0
    ensures plans[0].x == 0.0 && plans[1].x == half && plans[1].length == half && plans[2].x == 2.0 * half
  {
    var rooms := Slivers();
    assert PlanOf(rooms[0]) == Some(Plan(rooms[0], 0.0, 0.0, HALF_PIXEL, 1.0));
    assert PlanOf(rooms[1]) == Some(Plan(rooms[1], HALF_PIXEL, 0.0, HALF_PIXEL, 1.0));
    assert PlanOf(rooms[2]) == Some(Plan(rooms[2], 2.0 * HALF_PIXEL, 0.0, 1.0, 1.0));
    plans, half := PlansOf(rooms).value, HALF_PIXEL;
  }

  lemma LeastZero(plans: seq<Plan>)
    requires plans != [] && plans[0].x == 0.0 && forall i :: 0 <= i < |plans| ==> plans[i].x >= 0.0
    ensures ExtentOf(plans).minX == 0.0
  {
    var i :| 0 <= i < |plans| && plans[i].x == ExtentOf(plans).minX;
  }

  /** Half a pixel from the edge and half a pixel long, then the next room at once. */
  lemma NoSlack(start: real, size: real, gap: real)
    requires start == HALF_PIXEL && size == HALF_PIXEL && gap == 0.0
    ensures Slack(start, size, gap) == 0.0
  {
    assert HALF_PIXEL * SCALE == 0.5;
    assert Round(0.5) == 1;
  }

  lemma HalfPixelOverlap(plans: seq<Plan>, half: real)
    requires |plans| == 3 && half == HALF_PIXEL && half > 0.0
    requires plans[0].x == 0.0 && plans[1].x == half && plans[1].length == half && plans[2].x == 2.0 * half
    ensures var rooms := CoordinateLayout(plans, None).rooms; Parted(rooms[1].x, rooms[1].width, rooms[2].x, 0.0)
  {
    LeastZero(plans);
    var e, rooms := ExtentOf(plans), CoordinateLayout(plans, None).rooms;
    HalfPixelParted(plans[1], plans[2], e, rooms[1], rooms[2]);
  }

  lemma HalfPixelParted(p: Plan, q: Plan, e: Extent, left: Block, right: Block)
    requires e.minX == 0.0 && p.x == HALF_PIXEL && p.length == HALF_PIXEL && q.x == 2.0 * HALF_PIXEL
    requires left == Place(p, e, None) && right == Place(q, e, None)
    ensures Parted(left.x, left.width, right.x, 0.0)
  {
    NoSlack(p.x - e.minX, p.length, q.x - p.x - p.length);
    OverlapExactly(p, q, e, left, right, None);
  }

  // ---- the whole layout

  predicate HasCoordinates(rooms: seq<Room>) {
    rooms != [] && forall i :: 0 <= i < |rooms| ==> PlanOf(rooms[i]).Some?
  }

  function Sizes(profile: Profile, root: real -> real): Room -> (int, int) {
    room => RoomSize(room, profile, root)
  }

  /** The drawing of some rooms in the given order: at their coordinates or in rows. */
  ghost predicate Draws(layout: Layout, rooms: seq<Room>, selectedId: Option<string>, profile: Profile,
                        root: real -> real) {
    if profile == Interior && HasCoordinates(rooms) then
      PlansOf(rooms).Some? && layout == CoordinateLayout(PlansOf(rooms).value, selectedId)
    else
      && layout.mode == Fallback
      && |layout.rooms| == |rooms| && DepictsAll(layout.rooms, rooms, selectedId, Sizes(profile, root))
      && InRows(layout.rooms)
      && layout.width == RowsWidth(layout.rooms)
      && layout.height == Max(240, RowsBottom(layout.rooms) + INSET)
  }

  /** An interior whose rooms all have coordinates is drawn at these, and all else in rows. */
  method DrawRooms(rooms: seq<Room>, selectedId: Option<string>, profile: Profile, root: real -> real)
    returns (layout: Layout)
    ensures Draws(layout, rooms, selectedId, profile, root)
  {
    if profile == Interior && rooms != [] {
      var plans := PlansOf(rooms);
      if plans.Some? {
        return CoordinateLayout(plans.value, selectedId);
      }
    }
    layout := PackRooms(rooms, selectedId, Sizes(profile, root));
  }

  /** The four measures of a plan are given: the corner not below zero, the sides greater than zero. */
  predicate HasMeasures(room: Room) {
    && "plan_x" in room.fields && room.fields["plan_x"] >= 0.0
    && "plan_y" in room.fields && room.fields["plan_y"] >= 0.0
    && "length_m" in room.fields && room.fields["length_m"] > 0.0
    && "width_m" in room.fields && room.fields["width_m"] > 0.0
  }

  predicate Near(pixels: int, exact: real) {
    -0.5 <= pixels as real - exact <= 0.5
  }

  function Measure(room: Room, code: string): real {
    if code in room.fields then room.fields[code] else 0.0
  }

  /** A block that shows the room at its measures, in a plan with this left and this upper edge. */
  predicate AtMeasures(b: Block, room: Room, left: real, top: real) {
    var far := Measure(room, "plan_y") + Measure(room, "width_m");
    && b.room == room
    && Near(b.x, 20.0 + 56.0 * (Measure(room, "plan_x") - left)) && Near(b.y, 20.0 + 56.0 * (top - far))
    && Near(b.width, 56.0 * Measure(room, "length_m")) && Near(b.height, 56.0 * Measure(room, "width_m"))
  }

  /** On this axis some room starts at the near edge and some room ends at the far edge, and none goes beyond. */
  ghost predicate Edges(rooms: seq<Room>, place: string, size: string, near: real, far: real) {
    && (forall i :: 0 <= i < |rooms| ==>
        near <= Measure(rooms[i], place) && Measure(rooms[i], place) + Measure(rooms[i], size) <= far)
    && (exists i :: 0 <= i < |rooms| && Measure(rooms[i], place) == near)
    && (exists i :: 0 <= i < |rooms| && Measure(rooms[i], place) + Measure(rooms[i], size) == far)
  }

  /** The canvas has 40 pixels more than the plan, which counts as a metre at least, and never less than `least`. */
  predicate Spans(pixels: int, extent: real, least: int) {
    var exact := 40.0 + 56.0 * (if extent < 1.0 then 1.0 else extent);
    if exact < least as real - 0.5 then pixels == least else pixels >= least && (pixels == least || Near(pixels, exact))
  }

  /** The plan has the room's measures. */
  predicate PlanFor(room: Room, p: Plan) {
    && p.room == room && p.x == Measure(room, "plan_x") && p.y == Measure(room, "plan_y")
    && p.length == Measure(room, "length_m") && p.width == Measure(room, "width_m")
  }

  lemma MeasuresPlan(room: Room)
    ensures HasMeasures(room) <==> PlanOf(room).Some?
    ensures HasMeasures(room) ==> PlanFor(room, PlanOf(room).value)
  {
  }

  ghost predicate AllMeasured(rooms: seq<Room>) {
    forall i :: 0 <= i < |rooms| ==> HasMeasures(rooms[i])
  }

  lemma MeasuredPlans(rooms: seq<Room>)
    ensures HasCoordinates(rooms) <==> rooms != [] && AllMeasured(rooms)
  {
    forall i | 0 <= i < |rooms|
      ensures HasMeasures(rooms[i]) <==> PlanOf(rooms[i]).Some?
    {
      MeasuresPlan(rooms[i]);
    }
  }

  /** Coordinates are used for an interior with rooms that all have the four measures, and for nothing else. */
  lemma ModeExactly(layout: Layout, rooms: seq<Room>, selectedId: Option<string>, profile: Profile, root: real -> real)
    requires Draws(layout, rooms, selectedId, profile, root)
    ensures layout.mode == Coordinate <==> profile == Interior && rooms != [] && AllMeasured(rooms)
  {
    MeasuredPlans(rooms);
  }

  lemma BlockAtMeasures(room: Room, plans: seq<Plan>, selectedId: Option<string>, i: nat)
    requires i < |plans| && PlanFor(room, plans[i])
    ensures var e := ExtentOf(plans); AtMeasures(CoordinateLayout(plans, selectedId).rooms[i], room, e.minX, e.maxY)
  {
    WithinHalfPixel(plans, selectedId, i);
  }

  ghost predicate PlansFor(rooms: seq<Room>, plans: seq<Plan>) {
    |plans| == |rooms| && forall i :: 0 <= i < |rooms| ==> PlanFor(rooms[i], plans[i])
  }

  lemma PlansMatch(rooms: seq<Room>, plans: seq<Plan>)
    requires AllMeasured(rooms) && PlansOf(rooms) == Some(plans)
    ensures PlansFor(rooms, plans)
  {
    forall i | 0 <= i < |rooms|
      ensures PlanFor(rooms[i], plans[i])
    {
      MeasuresPlan(rooms[i]);
    }
  }

  lemma EdgesAcross(rooms: seq<Room>, plans: seq<Plan>)
    requires rooms != [] && PlansFor(rooms, plans)
    ensures Edges(rooms, "plan_x", "length_m", ExtentOf(plans).minX, ExtentOf(plans).maxX)
  {
    var e := ExtentOf(plans);
    var i :| 0 <= i < |plans| && plans[i].x == e.minX;
    assert Measure(rooms[i], "plan_x") == e.minX;
    var k :| 0 <= k < |plans| && plans[k].x + plans[k].length == e.maxX;
    assert Measure(rooms[k], "plan_x") + Measure(rooms[k], "length_m") == e.maxX;
  }

  lemma EdgesUp(rooms: seq<Room>, plans: seq<Plan>)
    requires rooms != [] && PlansFor(rooms, plans)
    ensures Edges(rooms, "plan_y", "width_m", ExtentOf(plans).minY, ExtentOf(plans).maxY)
  {
    var e := ExtentOf(plans);
    var i :| 0 <= i < |plans| && plans[i].y == e.minY;
    assert Measure(rooms[i], "plan_y") == e.minY;
    var k :| 0 <= k < |plans| && plans[k].y + plans[k].width == e.maxY;
    assert Measure(rooms[k], "plan_y") + Measure(rooms[k], "width_m") == e.maxY;
  }

  ghost predicate AllAtMeasures(blocks: seq<Block>, rooms: seq<Room>, left: real, top: real) {
    |blocks| == |rooms| && forall i :: 0 <= i < |rooms| ==> AtMeasures(blocks[i], rooms[i], left, top)
  }

  lemma BlocksAtMeasures(rooms: seq<Room>, plans: seq<Plan>, selectedId: Option<string>)
    requires rooms != [] && PlansFor(rooms, plans)
    ensures var e := ExtentOf(plans); AllAtMeasures(CoordinateLayout(plans, selectedId).rooms, rooms, e.minX, e.maxY)
  {
    forall i | 0 <= i < |rooms|
      ensures AtMeasures(CoordinateLayout(plans, selectedId).rooms[i], rooms[i],
                         ExtentOf(plans).minX, ExtentOf(plans).maxY)
    {
      BlockAtMeasures(rooms[i], plans, selectedId, i);
    }
  }

  lemma CanvasSpans(plans: seq<Plan>, selectedId: Option<string>)
    requires plans != []
    ensures var l, e := CoordinateLayout(plans, selectedId), ExtentOf(plans);
      Spans(l.width, e.maxX - e.minX, 360) && Spans(l.height, e.maxY - e.minY, 240)
  {
  }

  /** Drawn at coordinates, every room is where its own measures put it, with `plan_y` growing upwards, and the canvas
      is as large as the plan and its margins. */
  lemma DrawnFromMeasures(layout: Layout, rooms: seq<Room>, selectedId: Option<string>, root: real -> real)
    returns (left: real, bottom: real, right: real, top: real)
    requires Draws(layout, rooms, selectedId, Interior, root) && rooms != [] && AllMeasured(rooms)
    ensures Edges(rooms, "plan_x", "length_m", left, right) && Edges(rooms, "plan_y", "width_m", bottom, top)
    ensures AllAtMeasures(layout.rooms, rooms, left, top)
    ensures Spans(layout.width, right - left, 360) && Spans(layout.height, top - bottom, 240)
  {
    MeasuredPlans(rooms);
    var plans := PlansOf(rooms).value;
    var e := ExtentOf(plans);
    left, bottom, right, top := e.minX, e.minY, e.maxX, e.maxY;
    PlansMatch(rooms, plans);
    EdgesAcross(rooms, plans);
    EdgesUp(rooms, plans);
    BlocksAtMeasures(rooms, plans, selectedId);
    CanvasSpans(plans, selectedId);
  }

  lemma OverlapIn(layout: Layout, rooms: seq<Room>, plans: seq<Plan>, half: real, root: real -> real)
    requires Draws(layout, rooms, None, Interior, root)
    requires HasCoordinates(rooms) && PlansOf(rooms) == Some(plans)
    requires |plans| == 3 && half == HALF_PIXEL && half > 0.0
    requires plans[0].x == 0.0 && plans[1].x == half && plans[1].length == half && plans[2].x == 2.0 * half
    ensures |layout.rooms| == 3
    ensures layout.rooms[1].x + layout.rooms[1].width == layout.rooms[2].x + 1
  {
    HalfPixelOverlap(plans, half);
  }

  /** Rooms that touch in the plan can be drawn with a pixel of overlap. */
  lemma OverlapHappens(layout: Layout, root: real -> real)
    requires Draws(layout, Slivers(), None, Interior, root)
    ensures |layout.rooms| == 3
    ensures layout.rooms[1].x + layout.rooms[1].width == layout.rooms[2].x + 1
  {
    var plans, half := SliverPlans();
    OverlapIn(layout, Slivers(), plans, half, root);
  }

  /** The rooms of a drawing, in drawing order. */
  function Drawn(layout: Layout): (r: seq<Room>)
    ensures |r| == |layout.rooms| && forall i :: 0 <= i < |r| ==> r[i] == layout.rooms[i].room
  {
    seq(|layout.rooms|, i requires 0 <= i < |layout.rooms| => layout.rooms[i].room)
  }

  /** A drawing shows every room once, in the given order, with the selected one marked. */
  lemma DrawsAll(layout: Layout, rooms: seq<Room>, selectedId: Option<string>, profile: Profile, root: real -> real)
    requires Draws(layout, rooms, selectedId, profile, root)
    ensures Drawn(layout) == rooms
    ensures forall i :: 0 <= i < |layout.rooms| ==> (layout.rooms[i].selected <==> Some(rooms[i].id) == selectedId)
  {
    if profile != Interior || !HasCoordinates(rooms) {
      forall i | 0 <= i < |rooms|
        ensures layout.rooms[i].room == rooms[i] && layout.rooms[i].selected == (Some(rooms[i].id) == selectedId)
      {
        assert Depicts(layout.rooms[i], rooms[i], selectedId, Sizes(profile, root));
      }
    }
  }

  method BuildFloorplanRooms(objects: seq<Room>, relations: seq<Relation>, selectedId: Option<string>, profile: Profile,
                             collate: string -> int, root: real -> real)
    returns (layout: Layout, ghost ordered: seq<Room>)
    ensures Drawn(layout) == ordered && Draws(layout, ordered, selectedId, profile, root)
    ensures multiset(Drawn(layout)) == multiset(objects) <==> Distinct(IdsInOrder(objects)) && "" !in Ids(objects)
  {
    var rooms;
    ghost var g, blocks;
    rooms, g, blocks := OrderRooms(objects, relations, collate);
    ordered := rooms;
    layout := DrawRooms(rooms, selectedId, profile, root);
    DrawsAll(layout, rooms, selectedId, profile, root);
  }
}
