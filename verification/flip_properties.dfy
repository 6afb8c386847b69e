/** Properties of the book detail view's handlers: one step at a time, over
    short gestures, and over whole event sequences. */
module FlipProperties {
  import opened Geometry
  import opened BookFlip

  // ---------------------------------------------------------------- single steps

  /** A click flips on every device class and with or without a container. */
  lemma ClickFlipsEverywhere(host: Host, s: State)
    ensures Step(host, s, Click) == Flip(s)
    ensures Step(host, s, Click).isFlipped == !s.isFlipped
    ensures Step(host, s, Click).isAnimatingFlip
    ensures Step(host, s, Click).TiltOf() == Tilt(0.0, 0.0)
  {
  }

  /** Pointer-up flips exactly when the travel since pointer-down exceeds 50 px
      in either direction; then it acts as a click, otherwise nothing changes. */
  lemma PointerUpSwipe(host: Host, s: State, x: real)
    ensures Step(host, s, PointerUp(x)).isFlipped != s.isFlipped <==> Abs(x - s.pointerStartX) > SwipeThreshold
    ensures Abs(x - s.pointerStartX) > SwipeThreshold ==> Step(host, s, PointerUp(x)) == Step(host, s, Click)
    ensures Abs(x - s.pointerStartX) <= SwipeThreshold ==> Step(host, s, PointerUp(x)) == s
  {
  }

  /** Pointer-down records its x and touches nothing else. */
  lemma PointerDownRecordsOnly(host: Host, s: State, x: real)
    ensures Step(host, s, PointerDown(x)).pointerStartX == x
    ensures Step(host, s, PointerDown(x)).SameFlip(s)
    ensures Step(host, s, PointerDown(x)).TiltOf() == s.TiltOf()
  {
  }

  /** Mouse-move does nothing while a flip animates or on a mobile device. */
  lemma MouseMoveGuarded(host: Host, s: State, x: real, y: real)
    requires s.isAnimatingFlip || host.isMobile
    ensures Step(host, s, MouseMove(x, y)) == s
  {
  }

  /** Mouse-move tracking does not depend on which face is shown. */
  lemma MouseMoveIgnoresFace(host: Host, s: State, x: real, y: real)
    requires Defined(host, s, MouseMove(x, y))
    ensures Step(host, s.(isFlipped := !s.isFlipped), MouseMove(x, y)).TiltOf()
         == Step(host, s, MouseMove(x, y)).TiltOf()
  {
  }

  /** On desktop with no flip in flight, a pointer inside the container gives a
      bounded tilt, zero at the centre and positive rotationX above it. */
  lemma MouseMoveTracks(host: Host, s: State, x: real, y: real)
    requires !host.isMobile && !s.isAnimatingFlip && host.container.Some?
    requires host.container.value.Proper() && host.container.value.Contains(x, y)
    ensures Step(host, s, MouseMove(x, y)).TiltOf().Bounded()
    ensures Step(host, s, MouseMove(x, y)).SameFlip(s)
    ensures x == host.container.value.CentreX() && y == host.container.value.CentreY()
            ==> Step(host, s, MouseMove(x, y)).TiltOf() == Tilt(0.0, 0.0)
    ensures y < host.container.value.CentreY() ==> Step(host, s, MouseMove(x, y)).rotationX > 0.0
  {
  }

  /** Leaving the container zeroes the tilt whatever the lock or device, and
      leaves the flip, the lock and the recorded start alone. */
  lemma MouseLeaveResets(host: Host, s: State)
    ensures Step(host, s, MouseLeave) == s.(rotationX := 0.0, rotationY := 0.0)
  {
  }

  /** The deferred callback only lifts the animation lock. */
  lemma TimerOnlyUnlocks(host: Host, s: State)
    ensures Step(host, s, TimerFire) == s.(isAnimatingFlip := false)
  {
  }

  // ---------------------------------------------------------------- rendering

  /** While the tilt stays within its maxima the face turned to the viewer is
      the back exactly when the state is flipped; rotateX follows the tilt. */
  lemma RenderedFaceMatchesFlip(isMobile: bool, s: State)
    requires s.TiltOf().Bounded()
    ensures FaceAt(RenderTarget(isMobile, s).rotateY) == (if s.isFlipped then Back else Front)
    ensures RenderTarget(isMobile, s).rotateX == s.rotationX
  {
  }

  /** A flip turns the rendered book by exactly a half turn about its vertical
      axis, from rest, and animates it over the device's duration. */
  lemma FlipIsHalfTurn(isMobile: bool, s: State)
    requires s.TiltOf() == Tilt(0.0, 0.0)
    ensures Abs(RenderTarget(isMobile, Flip(s)).rotateY - RenderTarget(isMobile, s).rotateY) == 180.0
    ensures RenderTarget(isMobile, Flip(s)).transitionY == Tween(LayoutFor(isMobile).duration)
    ensures RenderTarget(isMobile, Flip(s)).transitionX == Tween(LayoutFor(isMobile).duration / 2.0)
  {
  }

  /** Without a flip in flight both angles follow the pointer on the same spring. */
  lemma IdleUsesSpring(isMobile: bool, s: State)
    requires !s.isAnimatingFlip
    ensures RenderTarget(isMobile, s).transitionY == Spring(300.0, 30.0)
    ensures RenderTarget(isMobile, s).transitionX == RenderTarget(isMobile, s).transitionY
  {
  }

  /** Both layouts have the 2:3 proportions of a book, and the mobile one is
      smaller and flips faster. */
  lemma LayoutProportions()
    ensures forall m: bool :: LayoutFor(m).width * 3.0 == LayoutFor(m).height * 2.0
    ensures LayoutFor(true).width < LayoutFor(false).width
    ensures LayoutFor(true).height < LayoutFor(false).height
    ensures LayoutFor(true).duration < LayoutFor(false).duration
    ensures LayoutFor(true).depth == LayoutFor(false).depth == 40.0
  {
  }

  // ---------------------------------------------------------------- gestures

  /** A pointer-down at `a` then a pointer-up at `b` flips exactly when the
      horizontal travel exceeds 50 px, and then leaves the tilt at rest. */
  lemma SwipeGesture(host: Host, s: State, a: real, b: real)
    requires ProperHost(host)
    ensures Run(host, s, [PointerDown(a), PointerUp(b)]).isFlipped != s.isFlipped <==> Abs(b - a) > SwipeThreshold
    ensures Abs(b - a) > SwipeThreshold ==> Run(host, s, [PointerDown(a), PointerUp(b)]) == Flip(s).(pointerStartX := a)
    ensures Abs(b - a) <= SwipeThreshold ==> Run(host, s, [PointerDown(a), PointerUp(b)]) == s.(pointerStartX := a)
  {
    var t := Step(host, s, PointerDown(a));
    assert Run(host, s, [PointerDown(a), PointerUp(b)]) == Run(host, t, [PointerUp(b)]);
    assert Run(host, t, [PointerUp(b)]) == Run(host, Step(host, t, PointerUp(b)), []);
  }

  /** Pointer-up does not clear the recorded start: a second pointer-up with no
      pointer-down between is measured from the same point. */
  lemma StartSurvivesPointerUp(host: Host, s: State, a: real, b: real, c: real)
    requires ProperHost(host)
    ensures Run(host, s, [PointerDown(a), PointerUp(b), PointerUp(c)]).pointerStartX == a
    ensures Run(host, s, [PointerDown(a), PointerUp(b), PointerUp(c)]).isFlipped
         == ((s.isFlipped != IsSwipe(a, b)) != IsSwipe(a, c))
  {
    var gesture := [PointerDown(a), PointerUp(b)];
    assert [PointerDown(a), PointerUp(b), PointerUp(c)] == gesture + [PointerUp(c)];
    RunAppend(host, s, gesture, [PointerUp(c)]);
    SwipeGesture(host, s, a, b);
    var t := Run(host, s, gesture);
    assert Run(host, t, [PointerUp(c)]) == Run(host, Step(host, t, PointerUp(c)), []);
  }

  /** The device class is read afresh on every render: a tilt gained while
      the window was wide survives a switch to the mobile layout, because
      only mouse-move is gated on the device class. */
  lemma TiltSurvivesDeviceChange(r: Rect)
    requires r.Proper()
    ensures var desktop := Step(Host(false, Some(r)), Initial(), MouseMove(r.left + r.width, r.CentreY()));
      desktop.rotationY == 45.0
      && Step(Host(true, Some(r)), desktop, MouseMove(r.left, r.CentreY())).rotationY == 45.0
  {
  }

  // ---------------------------------------------------------------- sequences

  lemma {:induction false} RunAppend(host: Host, s: State, xs: seq<Event>, ys: seq<Event>)
    requires ProperHost(host)
    ensures Run(host, s, xs + ys) == Run(host, Run(host, s, xs), ys)
    decreases |xs|
  {
    if |xs| == 0 {
      assert xs + ys == ys;
    } else {
      assert (xs + ys)[1..] == xs[1..] + ys;
      RunAppend(host, Step(host, s, xs[0]), xs[1..], ys);
    }
  }

  /** On a mobile device the book never tilts: from rest, every event
      sequence leaves both angles at zero. */
  lemma {:induction false} MobileNeverTilts(host: Host, s: State, events: seq<Event>)
    requires ProperHost(host) && host.isMobile
    requires s.TiltOf() == Tilt(0.0, 0.0)
    ensures Run(host, s, events).TiltOf() == Tilt(0.0, 0.0)
    decreases |events|
  {
    if |events| > 0 {
      MobileNeverTilts(host, Step(host, s, events[0]), events[1..]);
    }
  }

  /** Every mouse-move of the sequence is over the container. */
  predicate MovesInside(host: Host, events: seq<Event>) {
    forall i :: 0 <= i < |events| && events[i].MouseMove? ==>
      host.container.Some? && host.container.value.Contains(events[i].x, events[i].y)
  }

  /** As long as the pointer moves only over the container, the tilt never
      exceeds 30 degrees about X or 45 about Y. */
  lemma {:induction false} TiltStaysBounded(host: Host, s: State, events: seq<Event>)
    requires ProperHost(host) && MovesInside(host, events)
    requires s.TiltOf().Bounded()
    ensures Run(host, s, events).TiltOf().Bounded()
    decreases |events|
  {
    if |events| > 0 {
      assert events[0].MouseMove? ==> host.container.value.Contains(events[0].x, events[0].y);
      assert MovesInside(host, events[1..]) by {
        forall i | 0 <= i < |events[1..]| && events[1..][i].MouseMove?
          ensures host.container.Some? && host.container.value.Contains(events[1..][i].x, events[1..][i].y)
        {
          assert events[1..][i] == events[i + 1];
        }
      }
      TiltStaysBounded(host, Step(host, s, events[0]), events[1..]);
    }
  }

  /** Number of events of the sequence that start a flip when replayed from `s`. */
  function FlipCount(host: Host, s: State, events: seq<Event>): nat
    requires ProperHost(host)
    decreases |events|
  {
    if |events| == 0 then 0
    else (if Flips(s, events[0]) then 1 else 0) + FlipCount(host, Step(host, s, events[0]), events[1..])
  }

  /** The book shows its back after a sequence exactly when it started on the
      other face an odd number of flips ago: every click and every swipe
      toggles it once, and nothing else does. */
  lemma {:induction false} FlippedByParity(host: Host, s: State, events: seq<Event>)
    requires ProperHost(host)
    ensures Run(host, s, events).isFlipped == (s.isFlipped != (FlipCount(host, s, events) % 2 == 1))
    decreases |events|
  {
    if |events| > 0 {
      FlippedByParity(host, Step(host, s, events[0]), events[1..]);
    }
  }

  /** A sequence of clicks only, replayed from any state, flips once per click. */
  lemma {:induction false} ClicksCount(host: Host, s: State, events: seq<Event>)
    requires ProperHost(host)
    requires forall i :: 0 <= i < |events| ==> events[i] == Click
    ensures FlipCount(host, s, events) == |events|
    decreases |events|
  {
    if |events| > 0 {
      ClicksCount(host, Step(host, s, events[0]), events[1..]);
    }
  }

  // ---------------------------------------------------------------- scenarios

  /** Open, click: back and locked; the timer fires: back and idle.  A second
      click before the timer shows the front again and keeps the lock. */
  lemma ClickScenario(host: Host)
    requires ProperHost(host)
    ensures var t := Run(host, Initial(), [Click]); t.isFlipped && t.isAnimatingFlip
    ensures var t := Run(host, Initial(), [Click, TimerFire]); t.isFlipped && !t.isAnimatingFlip
    ensures var t := Run(host, Initial(), [Click, Click]); !t.isFlipped && t.isAnimatingFlip
  {
    var c := Step(host, Initial(), Click);
    assert Run(host, Initial(), [Click]) == Run(host, c, []);
    assert Run(host, Initial(), [Click, TimerFire]) == Run(host, c, [TimerFire]);
    assert Run(host, c, [TimerFire]) == Run(host, Step(host, c, TimerFire), []);
    assert Run(host, Initial(), [Click, Click]) == Run(host, c, [Click]);
    assert Run(host, c, [Click]) == Run(host, Step(host, c, Click), []);
  }

  /** Travel of 51 px either way flips, 49 px or 50 px does not; a swipe from
      100 to 200 flips and one from 100 to 130 does not. */
  lemma SwipeThresholdScenario(host: Host, s: State)
    requires ProperHost(host)
    ensures Run(host, s, [PointerDown(100.0), PointerUp(151.0)]).isFlipped != s.isFlipped
    ensures Run(host, s, [PointerDown(100.0), PointerUp(49.0)]).isFlipped != s.isFlipped
    ensures Run(host, s, [PointerDown(100.0), PointerUp(149.0)]).isFlipped == s.isFlipped
    ensures Run(host, s, [PointerDown(100.0), PointerUp(150.0)]).isFlipped == s.isFlipped
    ensures Run(host, s, [PointerDown(100.0), PointerUp(200.0)]).isFlipped != s.isFlipped
    ensures Run(host, s, [PointerDown(100.0), PointerUp(130.0)]).isFlipped == s.isFlipped
  {
    SwipeGesture(host, s, 100.0, 151.0);
    SwipeGesture(host, s, 100.0, 49.0);
    SwipeGesture(host, s, 100.0, 149.0);
    SwipeGesture(host, s, 100.0, 150.0);
    SwipeGesture(host, s, 100.0, 200.0);
    SwipeGesture(host, s, 100.0, 130.0);
  }
}
