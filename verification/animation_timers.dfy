/** The deferred clears of the animation lock.

    Every flip schedules one callback that sets `isAnimatingFlip` to false
    after the flip duration; earlier callbacks are never cancelled.  A
    `Session` pairs the view's state with the number of callbacks still
    outstanding, so that `TimerFire` can only happen while one is pending.
 */
module AnimationTimers {
  import opened BookFlip

  datatype Session = Session(state: State, pending: nat)

  /** The session when the view opens: nothing scheduled. */
  function Open(): Session {
    Session(Initial(), 0)
  }

  /** The lock is never stuck: while it is held some clear is still outstanding. */
  predicate LockReleasable(se: Session) {
    se.state.isAnimatingFlip ==> se.pending > 0
  }

  /** Handles one event: a flip schedules one more clear, a timer consumes one;
      with none outstanding no timer can fire, so nothing happens. */
  function Dispatch(host: Host, se: Session, e: Event): (r: Session)
    requires ProperHost(host)
    ensures r.pending == se.pending + (if Flips(se.state, e) then 1 else 0) - (if e.TimerFire? && se.pending > 0 then 1 else 0)
    ensures LockReleasable(se) ==> LockReleasable(r)
    ensures e.TimerFire? && se.pending > 0 ==> !r.state.isAnimatingFlip
  {
    if e.TimerFire? then
      if se.pending == 0 then se else Session(Step(host, se.state, e), se.pending - 1)
    else
      Session(Step(host, se.state, e), se.pending + if Flips(se.state, e) then 1 else 0)
  }

  function Replay(host: Host, se: Session, events: seq<Event>): (r: Session)
    requires ProperHost(host)
    decreases |events|
  {
    if |events| == 0 then se else Replay(host, Dispatch(host, se, events[0]), events[1..])
  }

  /** From the opened view, whatever happens, the lock always has a clear pending. */
  lemma {:induction false} LockAlwaysReleasable(host: Host, se: Session, events: seq<Event>)
    requires ProperHost(host) && LockReleasable(se)
    ensures LockReleasable(Replay(host, se, events))
    decreases |events|
  {
    if |events| > 0 {
      LockAlwaysReleasable(host, Dispatch(host, se, events[0]), events[1..]);
    }
  }

  /** `n` timer callbacks in a row. */
  function Timers(n: nat): seq<Event>
  {
    seq(n, _ => TimerFire)
  }

  /** Letting every outstanding clear run leaves the lock released, whatever
      state the view is in, and touches neither the face nor the tilt. */
  lemma {:induction false} DrainReleases(host: Host, se: Session)
    requires ProperHost(host) && LockReleasable(se)
    ensures Replay(host, se, Timers(se.pending)).pending == 0
    ensures !Replay(host, se, Timers(se.pending)).state.isAnimatingFlip
    ensures Replay(host, se, Timers(se.pending)).state.isFlipped == se.state.isFlipped
    ensures Replay(host, se, Timers(se.pending)).state.TiltOf() == se.state.TiltOf()
    decreases se.pending
  {
    if se.pending > 0 {
      var next := Dispatch(host, se, TimerFire);
      assert Timers(se.pending)[1..] == Timers(next.pending);
      DrainReleases(host, next);
    }
  }

  /** Two quick clicks schedule two clears; the first one to fire releases
      the lock while the second flip's clear is still outstanding, so mouse
      tracking resumes before the second animation has run its full time. */
  lemma StaleClearReleasesEarly(host: Host)
    requires ProperHost(host)
    ensures var r := Replay(host, Open(), [Click, Click, TimerFire]);
      !r.state.isFlipped && !r.state.isAnimatingFlip && r.pending == 1
  {
    var a := Dispatch(host, Open(), Click);
    var b := Dispatch(host, a, Click);
    var c := Dispatch(host, b, TimerFire);
    assert Replay(host, Open(), [Click, Click, TimerFire]) == Replay(host, a, [Click, TimerFire]);
    assert Replay(host, a, [Click, TimerFire]) == Replay(host, b, [TimerFire]);
    assert Replay(host, b, [TimerFire]) == Replay(host, c, []);
  }
}
