/** Interaction state machine of the book detail view.

    The view keeps whether the book shows its back (`isFlipped`), whether a
    flip animation is in flight (`isAnimatingFlip`), the pointer-driven tilt
    (`rotationX`, `rotationY`) and the x coordinate of the last pointer-down
    (`pointerStartX`).  Each handler of the view is one `Event`; the deferred
    callback that ends the flip animation is the explicit event `TimerFire`.
 */
module BookFlip {
  import opened Geometry

  datatype Option<T> = None | Some(value: T)

  /** Horizontal travel, in pixels, a pointer-up must exceed to count as a swipe. */
  const SwipeThreshold: real := 50.0

  /** Text shown on the back when the book has no notes. */
  const NoNotes: string := "No notes yet."

  /** What the host supplies: the device class from the media query and the
      bounding rectangle of the perspective container, `None` while the
      container is not attached. */
  datatype Host = Host(isMobile: bool, container: Option<Rect>)

  /** Dimensions (pixels) and flip duration (seconds) chosen by device class. */
  datatype Layout = Layout(width: real, height: real, depth: real, duration: real)

  datatype State = State(
    isFlipped: bool,
    isAnimatingFlip: bool,
    rotationX: real,
    rotationY: real,
    pointerStartX: real)
  {
    function TiltOf(): Tilt { Tilt(rotationX, rotationY) }

    /** Neither flip state nor animation lock differ between the two states. */
    predicate SameFlip(other: State) {
      isFlipped == other.isFlipped && isAnimatingFlip == other.isAnimatingFlip
    }
  }

  datatype Event =
    | Click
    | PointerDown(x: real)
    | PointerUp(x: real)
    | MouseMove(x: real, y: real)
    | MouseLeave
    | TimerFire

  function Abs(a: real): (r: real)
    ensures r >= 0.0 && (r == a || r == -a)
  {
    if a < 0.0 then -a else a
  }

  /** The book keeps 2:3 proportions and a 40 px depth on both device
      classes; the mobile one is narrower and flips faster. */
  function LayoutFor(isMobile: bool): (l: Layout)
    ensures l.width * 3.0 == l.height * 2.0 && l.depth == 40.0
    ensures l.width == (if isMobile then 280.0 else 320.0)
    ensures l.duration == (if isMobile then 0.4 else 0.6)
  {
    if isMobile then Layout(280.0, 420.0, 40.0, 0.4) else Layout(320.0, 480.0, 40.0, 0.6)
  }

  /** Delay, in milliseconds, after which the lock-clearing callback scheduled
      by a flip runs: the flip duration in milliseconds. */
  function UnlockDelayMs(isMobile: bool): (ms: real)
    ensures ms == (if isMobile then 400.0 else 600.0)
  {
    LayoutFor(isMobile).duration * 1000.0
  }

  /** The state when the view opens. */
  function Initial(): (s: State)
    ensures !s.isFlipped && !s.isAnimatingFlip
    ensures s.TiltOf() == Tilt(0.0, 0.0) && s.pointerStartX == 0.0
  {
    State(false, false, 0.0, 0.0, 0.0)
  }

  /** A swipe: the pointer travelled strictly more than the threshold, either way. */
  predicate IsSwipe(startX: real, upX: real) {
    upX - startX > SwipeThreshold || startX - upX > SwipeThreshold
  }

  /** Whether the event starts a flip animation from state `s`. */
  predicate Flips(s: State, e: Event) {
    e.Click? || (e.PointerUp? && IsSwipe(s.pointerStartX, e.x))
  }

  /** Whether a mouse-move reaches the tracking code: the container is attached,
      no flip is animating and the device is not mobile. */
  predicate Tracks(host: Host, s: State) {
    host.container.Some? && !s.isAnimatingFlip && !host.isMobile
  }

  /** The mouse-move handler divides by the rectangle's width and height once
      it gets past its guards, so the rectangle must not be empty then. */
  predicate Defined(host: Host, s: State, e: Event) {
    e.MouseMove? && Tracks(host, s) ==> host.container.value.Proper()
  }

  /** The shared effect of a click and of a swipe. */
  function Flip(s: State): (t: State)
    ensures t.isFlipped != s.isFlipped && t.isAnimatingFlip
    ensures t.TiltOf() == Tilt(0.0, 0.0) && t.pointerStartX == s.pointerStartX
  {
    s.(isAnimatingFlip := true, isFlipped := !s.isFlipped, rotationX := 0.0, rotationY := 0.0)
  }

  function Step(host: Host, s: State, e: Event): (t: State)
    requires Defined(host, s, e)
    // the flip and its lock change only through a flip or a timer
    ensures t.isFlipped != s.isFlipped <==> Flips(s, e)
    ensures Flips(s, e) ==> t.isAnimatingFlip
    ensures !Flips(s, e) && !e.TimerFire? ==> t.isAnimatingFlip == s.isAnimatingFlip
    ensures e.TimerFire? ==> !t.isAnimatingFlip
    // only a pointer-down moves the recorded start
    ensures t.pointerStartX == (if e.PointerDown? then e.x else s.pointerStartX)
    // the tilt changes only by tracking, and a flip or a leave zeroes it
    ensures Flips(s, e) || e.MouseLeave? ==> t.TiltOf() == Tilt(0.0, 0.0)
    ensures e.MouseMove? && Tracks(host, s) ==> t.TiltOf() == TiltAt(host.container.value, e.x, e.y)
    ensures !Flips(s, e) && !e.MouseLeave? && !(e.MouseMove? && Tracks(host, s)) ==> t.TiltOf() == s.TiltOf()
  {
    match e
    case Click => Flip(s)
    case PointerDown(x) => s.(pointerStartX := x)
    case PointerUp(x) =>
      if Abs(x - s.pointerStartX) > SwipeThreshold then Flip(s) else s
    case MouseMove(x, y) =>
      if !Tracks(host, s) then s
      else
        var tilt := TiltAt(host.container.value, x, y);
        s.(rotationX := tilt.rotationX, rotationY := tilt.rotationY)
    case MouseLeave => s.(rotationX := 0.0, rotationY := 0.0)
    case TimerFire => s.(isAnimatingFlip := false)
  }

  /** The rectangle, whenever attached, can be divided by. */
  predicate ProperHost(host: Host) {
    host.container.Some? ==> host.container.value.Proper()
  }

  /** The state after handling `events` in order. */
  function Run(host: Host, s: State, events: seq<Event>): (t: State)
    requires ProperHost(host)
    decreases |events|
  {
    if |events| == 0 then s else Run(host, Step(host, s, events[0]), events[1..])
  }

  /** Transition kinds passed to the animation library. */
  datatype Transition = Tween(seconds: real) | Spring(stiffness: real, damping: real)

  /** The target handed to the animation library for the book wrapper. */
  datatype Target = Target(rotateY: real, rotateX: real, transitionY: Transition, transitionX: Transition)

  function RenderTarget(isMobile: bool, s: State): (g: Target)
    // within the tracker's bounds the back faces the viewer exactly when flipped
    ensures s.TiltOf().Bounded() ==> FaceAt(g.rotateY) == (if s.isFlipped then Back else Front)
    ensures g.rotateX == s.rotationX
    // the flip offsets the tracked tilt by a half turn back, the tilt itself is kept
    ensures g.rotateY - s.rotationY == (if s.isFlipped then -180.0 else 0.0)
    // a flip in flight eases over the device's duration, rotateX in half of it;
    // otherwise both axes follow one spring
    ensures s.isAnimatingFlip <==> g.transitionY.Tween?
    ensures s.isAnimatingFlip ==> g.transitionY == Tween(LayoutFor(isMobile).duration)
                                  && g.transitionX == Tween(LayoutFor(isMobile).duration / 2.0)
    ensures !s.isAnimatingFlip ==> g.transitionX == g.transitionY == Spring(300.0, 30.0)
  {
    var duration := LayoutFor(isMobile).duration;
    Target(
      if s.isFlipped then -180.0 + s.rotationY else s.rotationY,
      s.rotationX,
      if s.isAnimatingFlip then Tween(duration) else Spring(300.0, 30.0),
      if s.isAnimatingFlip then Tween(duration * 0.5) else Spring(300.0, 30.0))
  }

  /** Which face a rotateY target (degrees) turns towards the viewer: `Front`
      for (-90, 90), `Back` for (-270, -90), `Edge` otherwise.  The
      classification is meant for the targets a bounded tilt produces. */
  datatype Face = Front | Back | Edge

  function FaceAt(rotateY: real): Face {
    if -90.0 < rotateY < 90.0 then Front
    else if -270.0 < rotateY < -90.0 then Back
    else Edge
  }

  /** Text on the back face: the notes, unless they are missing or empty
      (JavaScript treats the empty string as false). */
  function NotesText(notes: Option<string>): (r: string)
    ensures r != ""
    ensures notes.Some? && notes.value != "" ==> r == notes.value
    ensures notes.None? || notes.value == "" ==> r == NoNotes
  {
    if notes.Some? && notes.value != "" then notes.value else NoNotes
  }
}
