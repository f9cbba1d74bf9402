/** The floating sticky-note icon of the older content script
    (src/pages/Content/components/DraggableIcon.tsx): its position is
    clamped into the viewport, a press counts as a drag only once the
    pointer has moved more than 5 pixels on some axis, and a click that was
    not a drag creates a note in the middle of the visible page. Storage
    writes are returned as values; the timers that delay the bounds update
    (100 ms) and the flag reset (10 ms) are separate events. */
module DraggableIcon {
  import opened Types
  import Container

  /** The box the icon's top-left corner may occupy. */
  datatype Bounds = Bounds(left: real, top: real, right: real, bottom: real)

  /** The icon's state: its position (nothing is rendered while it is
      unknown), the current bounds, the drag flag, and the drag start. */
  datatype Icon = Icon(position: Option<Position>, bounds: Option<Bounds>,
                       dragging: bool, dragStart: Option<Position>)

  /** A transition's new state and the position it writes to storage, if any. */
  datatype Stepped = Stepped(icon: Icon, write: Option<Position>)

  const DefaultPosition: Position := Position(20.0, 20.0)
  const DragThreshold: real := 5.0

  function Abs(v: real): (r: real)
    ensures r >= 0.0 && (r == v || r == -v)
  {
    if v < 0.0 then -v else v
  }

  /** `Math.max(lo, Math.min(hi, v))`. */
  function ClampAxis(lo: real, hi: real, v: real): (r: real)
    ensures lo <= r
    ensures lo <= hi ==> r <= hi
    ensures lo <= v <= hi ==> r == v
    ensures r == lo || r == hi || r == v
  {
    var capped := if hi < v then hi else v;
    if lo < capped then capped else lo
  }

  predicate Inside(p: Position, b: Bounds) {
    b.left <= p.x <= b.right && b.top <= p.y <= b.bottom
  }

  /** `constrainPosition`. */
  function Constrain(p: Position, b: Bounds): (r: Position)
    ensures r.x >= b.left && r.y >= b.top
    ensures b.left <= b.right ==> r.x <= b.right
    ensures b.top <= b.bottom ==> r.y <= b.bottom
    ensures Inside(p, b) ==> r == p
  {
    Position(ClampAxis(b.left, b.right, p.x), ClampAxis(b.top, b.bottom, p.y))
  }

  /** Clamping twice is clamping once, even for a box narrower than the icon
      (then every position is pushed to the left/top edge). */
  lemma ConstrainIdempotent(p: Position, b: Bounds)
    ensures Constrain(Constrain(p, b), b) == Constrain(p, b)
  {
    var q := Constrain(p, b);
    if b.right < b.left {
      assert q.x == b.left;
    }
    if b.bottom < b.top {
      assert q.y == b.top;
    }
  }

  /** `calculateBounds`: nothing until the icon is mounted; then the
      viewport less the icon's own size. */
  function CalculateBounds(mounted: bool, vp: Viewport, iconWidth: real, iconHeight: real): (r: Option<Bounds>)
    ensures r.Some? <==> mounted
    ensures r.Some? ==> r.value.left == 0.0 && r.value.top == 0.0
    ensures r.Some? ==> r.value.right + iconWidth == vp.innerWidth && r.value.bottom + iconHeight == vp.innerHeight
  {
    if mounted then Some(Bounds(0.0, 0.0, vp.innerWidth - iconWidth, vp.innerHeight - iconHeight))
    else None
  }

  /** When the icon fits in the window, a clamped icon lies wholly inside the
      window. */
  lemma ClampedIconIsVisible(p: Position, vp: Viewport, iconWidth: real, iconHeight: real)
    requires 0.0 <= iconWidth <= vp.innerWidth && 0.0 <= iconHeight <= vp.innerHeight
    ensures var q := Constrain(p, CalculateBounds(true, vp, iconWidth, iconHeight).value);
      0.0 <= q.x && q.x + iconWidth <= vp.innerWidth && 0.0 <= q.y && q.y + iconHeight <= vp.innerHeight
  {
  }

  /** The initial load: the stored position, or (20, 20) when none is stored. */
  function Load(stored: Option<Position>): (icon: Icon)
    ensures icon.position.Some?
    ensures stored.None? ==> icon.position.value == DefaultPosition
    ensures stored.Some? ==> icon.position == stored
    ensures !icon.dragging
  {
    Icon(Some(stored.GetOr(DefaultPosition)), None, false, None)
  }

  /** A freshly installed icon starts at (20, 20) and stays there: in a
      window with room for the icon beyond that point, the first bounds
      update moves nothing and writes nothing. A stored position outside the
      window is pulled inside and written back. */
  lemma FirstBoundsUpdate(stored: Option<Position>, vp: Viewport, iconWidth: real, iconHeight: real)
    requires 20.0 <= vp.innerWidth - iconWidth && 20.0 <= vp.innerHeight - iconHeight
    ensures stored.None? ==>
      var r := UpdateBounds(Load(stored), CalculateBounds(true, vp, iconWidth, iconHeight));
      r.write.None? && r.icon.position == Some(DefaultPosition)
    ensures stored.Some? && !Inside(stored.value, CalculateBounds(true, vp, iconWidth, iconHeight).value) ==>
      var r := UpdateBounds(Load(stored), CalculateBounds(true, vp, iconWidth, iconHeight));
      r.write.Some? && Inside(r.write.value, CalculateBounds(true, vp, iconWidth, iconHeight).value)
  {
  }

  /** Another tab changed the stored position; a removed entry leaves the
      icon without a position. */
  function StorageChanged(icon: Icon, newValue: Option<Position>): (r: Icon)
    ensures r.position == newValue
    ensures r.bounds == icon.bounds && r.dragging == icon.dragging && r.dragStart == icon.dragStart
  {
    icon.(position := newValue)
  }

  /** `updateBounds` (resize, or the delayed first run): store the new
      bounds and pull the position inside them, writing state and storage
      only when clamping moved it. */
  function UpdateBounds(icon: Icon, newBounds: Option<Bounds>): (r: Stepped)
    ensures newBounds.None? ==> r.icon == icon && r.write.None?
    ensures newBounds.Some? ==> r.icon.bounds == newBounds
    ensures r.write.Some? <==> newBounds.Some? && icon.position.Some?
                                && Constrain(icon.position.value, newBounds.value) != icon.position.value
    ensures r.write.Some? ==> r.icon.position == r.write
    ensures r.write.None? ==> r.icon.position == icon.position
    ensures r.icon.dragging == icon.dragging && r.icon.dragStart == icon.dragStart
  {
    match newBounds
    case None => Stepped(icon, None)
    case Some(b) =>
      var withBounds := icon.(bounds := Some(b));
      match icon.position
      case None => Stepped(withBounds, None)
      case Some(p) =>
        var q := Constrain(p, b);
        if q.x != p.x || q.y != p.y then Stepped(withBounds.(position := Some(q)), Some(q))
        else Stepped(withBounds, None)
  }

  /** After a bounds update for a box the icon fits in, the icon is inside
      the box; a second update with the same bounds writes nothing. */
  lemma UpdateBoundsSettles(icon: Icon, b: Bounds)
    requires icon.position.Some? && b.left <= b.right && b.top <= b.bottom
    ensures Inside(UpdateBounds(icon, Some(b)).icon.position.value, b)
    ensures UpdateBounds(UpdateBounds(icon, Some(b)).icon, Some(b)).write.None?
  {
    ConstrainIdempotent(icon.position.value, b);
  }

  /** `handleDragStart`: the press is not (yet) a drag. */
  function DragStart(icon: Icon, at: Position): (r: Icon)
    ensures !r.dragging && r.dragStart == Some(at)
    ensures r.position == icon.position && r.bounds == icon.bounds
  {
    icon.(dragging := false, dragStart := Some(at))
  }

  /** The pointer is more than the threshold away from `start` on some axis. */
  predicate Moved(start: Position, at: Position) {
    Abs(at.x - start.x) > DragThreshold || Abs(at.y - start.y) > DragThreshold
  }

  /** `handleDrag`: the flag turns on once the pointer has moved far enough
      and stays on; the icon follows the pointer and the position is
      written to storage. */
  function Drag(icon: Icon, at: Position): (r: Stepped)
    ensures r.icon.dragging <==> icon.dragging || (icon.dragStart.Some? && Moved(icon.dragStart.value, at))
    ensures r.icon.position == Some(at) && r.write == Some(at)
    ensures r.icon.dragStart == icon.dragStart && r.icon.bounds == icon.bounds
  {
    var turnsOn := match icon.dragStart
      case Some(start) => Abs(at.x - start.x) > 5.0 || Abs(at.y - start.y) > 5.0
      case None => false;
    var flagged := if turnsOn then icon.(dragging := true) else icon;
    Stepped(flagged.(position := Some(at)), Some(at))
  }

  /** A sequence of drag events. */
  function DragPath(icon: Icon, path: seq<Position>): (r: Icon)
    ensures |path| > 0 ==> r.position == Some(path[|path| - 1])
    ensures r.dragStart == icon.dragStart && r.bounds == icon.bounds
    decreases |path|
  {
    if |path| == 0 then icon else DragPath(Drag(icon, path[0]).icon, path[1..])
  }

  /** The 10 ms timer after `handleDragStop`. */
  function DragStopTimer(icon: Icon): (r: Icon)
    ensures !r.dragging && r.dragStart.None?
    ensures r.position == icon.position && r.bounds == icon.bounds
  {
    icon.(dragging := false, dragStart := None)
  }

  /** `handleClick`: the request to create an empty note at the middle of
      the visible page, unless the press was a drag. */
  function Click(icon: Icon, vp: Viewport): (r: Option<Position>)
    ensures r.Some? <==> !icon.dragging
    ensures r.Some? ==> r.value.x * 2.0 == vp.innerWidth && (r.value.y - vp.scrollY) * 2.0 == vp.innerHeight
  {
    if icon.dragging then None
    else Some(Position(vp.innerWidth / 2.0, vp.innerHeight / 2.0 + vp.scrollY))
  }

  /** The click places the note where the newer container's "middle"
      request does. */
  lemma ClickAgreesWithContainer(icon: Icon, vp: Viewport, lastClick: Position)
    requires !icon.dragging
    ensures Click(icon, vp) == Some(Container.CreatePosition(Container.Middle, lastClick, vp))
  {
  }

  /** A press whose pointer never leaves the 5-pixel box around its start is
      still a click: it creates a note. */
  lemma {:induction false} JitterIsAClick(icon: Icon, start: Position, path: seq<Position>, vp: Viewport)
    requires forall i :: 0 <= i < |path| ==> !Moved(start, path[i])
    ensures !DragPath(DragStart(icon, start), path).dragging
    ensures Click(DragPath(DragStart(icon, start), path), vp).Some?
    decreases |path|
  {
    var pressed := DragStart(icon, start);
    if |path| > 0 {
      var next := Drag(pressed, path[0]).icon;
      assert next == DragStart(next, start);
      JitterIsAClick(next, start, path[1..], vp);
    }
  }

  /** Once a drag has gone past the threshold, later drag events keep the
      flag on, so the release click creates nothing. */
  lemma {:induction false} DragStaysADrag(icon: Icon, path: seq<Position>, vp: Viewport)
    requires icon.dragging
    ensures DragPath(icon, path).dragging
    ensures Click(DragPath(icon, path), vp).None?
    decreases |path|
  {
    if |path| > 0 {
      DragStaysADrag(Drag(icon, path[0]).icon, path[1..], vp);
    }
  }

  /** After the stop timer, the next press starts fresh: a click is a click. */
  lemma StopTimerReenablesClick(icon: Icon, vp: Viewport)
    ensures Click(DragStopTimer(icon), vp).Some?
  {
  }
}
