/** Swipe handling (src/hooks/useTouchControls.ts): a touch start records a point, a touch end
    turns the displacement into at most one direction. Screen coordinates are reals; y grows
    downwards. */
module Touch {
  import opened Types

  datatype TouchPoint = TouchPoint(x: real, y: real)

  /** What a touch end leaves behind: the stored start point and the direction emitted, if any. */
  datatype TouchEnd = TouchEnd(start: Option<TouchPoint>, emitted: Option<Direction>)

  const MIN_SWIPE_DISTANCE: real := 30.0

  function Abs(v: real): (r: real)
    ensures r >= 0.0 && (r == v || r == -v)
  {
    if v < 0.0 then -v else v
  }

  /** The direction of a displacement long enough to be a swipe: the dominant axis decides,
      and a tie counts as vertical. */
  function SwipeDirection(dx: real, dy: real): (r: Option<Direction>)
    ensures r.None? <==> Abs(dx) < MIN_SWIPE_DISTANCE && Abs(dy) < MIN_SWIPE_DISTANCE
    ensures r == Some(Right) <==> !r.None? && Abs(dx) > Abs(dy) && dx > 0.0
    ensures r == Some(Left) <==> !r.None? && Abs(dx) > Abs(dy) && dx <= 0.0
    ensures r == Some(Down) <==> !r.None? && Abs(dx) <= Abs(dy) && dy > 0.0
    ensures r == Some(Up) <==> !r.None? && Abs(dx) <= Abs(dy) && dy <= 0.0
  {
    var ax := Abs(dx);
    var ay := Abs(dy);
    if (if ax > ay then ax else ay) < MIN_SWIPE_DISTANCE then None
    else if ax > ay then (if dx > 0.0 then Some(Right) else Some(Left))
    else (if dy > 0.0 then Some(Down) else Some(Up))
  }

  function HandleTouchStart(playing: bool, start: Option<TouchPoint>, p: TouchPoint): (r: Option<TouchPoint>)
    ensures playing ==> r == Some(p)
    ensures !playing ==> r == start
  {
    if !playing then start else Some(p)
  }

  function HandleTouchEnd(playing: bool, start: Option<TouchPoint>, p: TouchPoint): (r: TouchEnd)
    ensures !playing || start.None? ==> r == TouchEnd(start, None)
    ensures playing && start.Some? ==> r.start.None?
    ensures playing && start.Some? ==> r.emitted == SwipeDirection(p.x - start.value.x, p.y - start.value.y)
  {
    if !playing || start.None? then TouchEnd(start, None)
    else TouchEnd(None, SwipeDirection(p.x - start.value.x, p.y - start.value.y))
  }

  /** The unit screen displacement of a direction. */
  function DeltaX(d: Direction): real
  {
    match d
    case Left => -1.0
    case Right => 1.0
    case _ => 0.0
  }

  function DeltaY(d: Direction): real
  {
    match d
    case Up => -1.0
    case Down => 1.0
    case _ => 0.0
  }

  function Opposite(d: Direction): Direction
  {
    match d
    case Up => Down
    case Down => Up
    case Left => Right
    case Right => Left
  }

  /** A straight swipe of at least the minimum length along a direction is read as that direction. */
  lemma SwipeAlongDirection(d: Direction, k: real)
    requires k >= MIN_SWIPE_DISTANCE
    ensures SwipeDirection(k * DeltaX(d), k * DeltaY(d)) == Some(d)
  {
  }

  /** Reversing a swipe reverses the direction it is read as. */
  lemma SwipeReversed(dx: real, dy: real)
    ensures SwipeDirection(dx, dy).Some? ==> SwipeDirection(-dx, -dy) == Some(Opposite(SwipeDirection(dx, dy).value))
    ensures SwipeDirection(dx, dy).None? ==> SwipeDirection(-dx, -dy).None?
  {
  }

  /** Touching down and lifting at the same point is never a swipe, and clears the start point. */
  lemma TapIsNoSwipe(p: TouchPoint)
    ensures var r := HandleTouchEnd(true, HandleTouchStart(true, None, p), p);
      r.emitted.None? && r.start.None?
  {
  }
}
