/** SnapLingo's drag selection (`SelectionView`): the start point latched
    on the first drag change, the current point, and the selection
    rectangle spanned by the two. Coordinates are exact reals. */
module Selection {
  import opened Wrappers

  datatype Point = Point(x: real, y: real)

  datatype Rect = Rect(x: real, y: real, width: real, height: real)

  const ZeroRect := Rect(0.0, 0.0, 0.0, 0.0)

  /** The view's drag state: `startPoint`, `currentPoint`, `selectionRect`. */
  datatype DragState = DragState(start: Option<Point>, current: Option<Point>, rect: Rect)

  const InitialDrag := DragState(None, None, ZeroRect)

  function Min(a: real, b: real): real {
    if a <= b then a else b
  }

  function Abs(a: real): real {
    if a < 0.0 then -a else a
  }

  /** The rectangle with `p` and `q` at opposite corners. */
  function Span(p: Point, q: Point): (r: Rect)
    ensures r.width >= 0.0 && r.height >= 0.0
    ensures r.x == Min(p.x, q.x) && r.y == Min(p.y, q.y)
    ensures r.x + r.width == (if p.x <= q.x then q.x else p.x)
    ensures r.y + r.height == (if p.y <= q.y then q.y else p.y)
  {
    Rect(Min(p.x, q.x), Min(p.y, q.y), Abs(p.x - q.x), Abs(p.y - q.y))
  }

  /** `updateSelectionRect`: the span of the two points, or the old
      rectangle when either point is missing. */
  function UpdateSelectionRect(state: DragState): (r: Rect)
    ensures state.start.None? || state.current.None? ==> r == state.rect
    ensures state.start.Some? && state.current.Some? ==> r == Span(state.start.value, state.current.value)
  {
    match (state.start, state.current)
    case (Some(s), Some(c)) => Span(s, c)
    case _ => state.rect
  }

  /** One `onChanged` event: the gesture's start location and its current
      location. */
  datatype DragEvent = DragEvent(startLocation: Point, location: Point)

  /** `onChanged`: latch the start point if none is set, move the current
      point, update the rectangle. */
  function DragChanged(state: DragState, e: DragEvent): (r: DragState)
    ensures r.start == Some(if state.start.Some? then state.start.value else e.startLocation)
    ensures r.current == Some(e.location)
    ensures r.rect == Span(r.start.value, e.location)
  {
    var latched := if state.start.None? then state.(start := Some(e.startLocation)) else state;
    var moved := latched.(current := Some(e.location));
    moved.(rect := UpdateSelectionRect(moved))
  }

  /** `onEnded`: move the current point and update the rectangle; the
      result's rectangle is the one handed to the capture. */
  function DragEnded(state: DragState, location: Point): (r: DragState)
    ensures r.start == state.start && r.current == Some(location)
    ensures state.start.Some? ==> r.rect == Span(state.start.value, location)
    ensures state.start.None? ==> r.rect == state.rect
  {
    var moved := state.(current := Some(location));
    moved.(rect := UpdateSelectionRect(moved))
  }

  /** The state after a run of `onChanged` events. */
  function ApplyChanges(state: DragState, events: seq<DragEvent>): DragState
    decreases |events|
  {
    if events == [] then state else ApplyChanges(DragChanged(state, events[0]), events[1..])
  }

  // ---------------------------------------------------------------- lemmas

  /** The rectangle does not depend on which point is the start. */
  lemma SpanSymmetric(p: Point, q: Point)
    ensures Span(p, q) == Span(q, p)
  {
  }

  /** Both points lie in the closed rectangle, at opposite corners. */
  lemma SpanCorners(p: Point, q: Point)
    ensures var r := Span(p, q);
      && (p.x == r.x || p.x == r.x + r.width) && (p.y == r.y || p.y == r.y + r.height)
      && (q.x == r.x || q.x == r.x + r.width) && (q.y == r.y || q.y == r.y + r.height)
      && p.x + q.x == r.x + (r.x + r.width) && p.y + q.y == r.y + (r.y + r.height)
  {
  }

  /** Once latched, the start point is never overwritten by later
      changes. */
  lemma {:induction false} StartLatched(state: DragState, events: seq<DragEvent>)
    requires state.start.Some?
    ensures ApplyChanges(state, events).start == state.start
    decreases |events|
  {
    if events != [] {
      StartLatched(DragChanged(state, events[0]), events[1..]);
    }
  }

  /** From a fresh view, the start point after any non-empty run of changes
      is the first event's start location, the current point the last
      event's location, and the rectangle their span. */
  lemma FreshDrag(state: DragState, events: seq<DragEvent>)
    requires state.start.None? && events != []
    ensures var r := ApplyChanges(state, events);
      && r.start == Some(events[0].startLocation)
      && r.current == Some(events[|events| - 1].location)
      && r.rect == Span(events[0].startLocation, events[|events| - 1].location)
  {
    var first := DragChanged(state, events[0]);
    StartLatched(first, events[1..]);
    LastChange(first, events[1..]);
  }

  /** After a run of changes from a latched state, the current point is
      the last event's location (or unchanged when there was none) and the
      rectangle spans the start and it. */
  lemma {:induction false} LastChange(state: DragState, events: seq<DragEvent>)
    requires state.start.Some? && state.current.Some? && state.rect == Span(state.start.value, state.current.value)
    ensures var r := ApplyChanges(state, events);
      && r.current == (if events == [] then state.current else Some(events[|events| - 1].location))
      && r.rect == Span(state.start.value, r.current.value)
    decreases |events|
  {
    if events != [] {
      var next := DragChanged(state, events[0]);
      LastChange(next, events[1..]);
      if |events| > 1 {
        assert events[1..][|events[1..]| - 1] == events[|events| - 1];
      }
    }
  }

  /** A drag with at least one change captures the span of its first start
      location and its end location. */
  lemma CapturedRect(events: seq<DragEvent>, end: Point)
    requires events != []
    ensures DragEnded(ApplyChanges(InitialDrag, events), end).rect == Span(events[0].startLocation, end)
  {
    FreshDrag(InitialDrag, events);
  }
}
