# Book flip card: interaction state machine

A Dafny model of the 3D book detail view of the portfolio site
(`BookDetailModal`). The view shows a book that tilts towards the mouse
pointer on desktop and flips between its front cover and its back, which
holds the reading notes, on a click or on a horizontal swipe of more than
50 px. While a flip animates, mouse tracking is locked out. A deferred
callback lifts that lock after the flip duration.

The model is a pure step function over an immutable state:

- `Geometry` holds the container rectangle and the pointer-to-tilt maths. A
  pointer position is normalised to [-1, 1] on each axis. It is then scaled
  to at most 45 degrees about the vertical axis and 30 degrees about the
  horizontal one. `PointerFor` is the inverse of `TiltAt`.
- `BookFlip` holds the five pieces of state, the six events and `Step`.
  The events are click, pointer-down, pointer-up, mouse-move, mouse-leave,
  and the timer callback. The module also holds `Run` over event sequences,
  the render target handed to the animation library, the per-device layout
  and the notes fallback text.
- `FlipProperties` holds the lemmas about single handlers, two- and
  three-event gestures, whole event sequences, and the flip and swipe
  scenarios.
- `AnimationTimers` pairs the state with the number of outstanding
  lock-clearing callbacks. It proves that the lock can always be released.
  It also shows that an earlier callback can release the lock during a
  later flip.

The host supplies the device class (from the `max-width: 768px` media
query) and the container rectangle as a `Host` value. The rectangle is
`None` while the container element is not attached. The timer is an
explicit `TimerFire` event.

Four behaviours of the handlers are worth stating explicitly:

- The tilt is not clamped. `Geometry.TiltAt` proves that the angles stay
  within bounds exactly when the pointer is inside the container.
- A zero-width or zero-height container is not guarded in the code.
  `BookFlip.Step` therefore requires a non-empty rectangle whenever a
  mouse-move reaches the tracking code (`BookFlip.Defined`).
- Pointer-up does not clear the recorded pointer-down position
  (`FlipProperties.StartSurvivesPointerUp`).
- Earlier lock-clearing callbacks are never cancelled, so a stale one can
  end the lock during a later flip
  (`AnimationTimers.StaleClearReleasesEarly`).

## Model

| member | source | states |
|---|---|---|
| `Geometry.Normalize` | src/components/ui/BookDetailModal.tsx:67-73 | the normalised coordinate lies in [-1, 1] exactly when the pointer is within the segment; it is 0 exactly at the midpoint and negative exactly before it |
| `Geometry.TiltAt` | src/components/ui/BookDetailModal.tsx:67-84 | both angles are within ±30 / ±45 degrees if and only if the pointer is inside the container (no clamping); rotationY is 0 exactly on the vertical centre line; rotationX is 0 exactly on the horizontal one; rotationX is positive exactly above the centre; rotationY is negative exactly left of it |
| `Geometry.PointerFor` | src/components/ui/BookDetailModal.tsx:67-84 | inverse of the tracker: the pointer it returns produces the given tilt, and it lies inside the container when the tilt is within bounds |
| `Geometry.PointerForTiltAt` | src/components/ui/BookDetailModal.tsx:67-84 | the tracker is one-to-one: the pointer is recovered from the tilt it produced |
| `Geometry.EveryBoundedTiltReachable` | src/components/ui/BookDetailModal.tsx:75-84 | every tilt within ±30 / ±45 degrees is produced by some pointer inside the container |
| `BookFlip.Initial` | src/components/ui/BookDetailModal.tsx:15-20 | the view opens on the front face, unlocked, with no tilt and the pointer start at 0 |
| `BookFlip.UnlockDelayMs` | src/components/ui/BookDetailModal.tsx:26-38 | the lock-clearing callback runs 400 ms (mobile) / 600 ms (desktop) after the flip that scheduled it, the flip duration in milliseconds |
| `BookFlip.Flip` | src/components/ui/BookDetailModal.tsx:29-34 | a flip shows the other face, takes the animation lock, zeroes the tilt and keeps the pointer start |
| `BookFlip.Step` | src/components/ui/BookDetailModal.tsx:28-91 | the face changes exactly on a click or on a pointer-up that travelled more than 50 px either way; a flip takes the lock, only the timer releases it, and nothing else touches it; only pointer-down moves the recorded start; the tilt changes only through tracking, a flip or a leave, and a flip or a leave zeroes it |
| `BookFlip.LayoutFor` | src/components/ui/BookDetailModal.tsx:23-26 | both device classes keep a 2:3 book with a 40 px depth; the book is 280 px wide and flips in 0.4 s on mobile, 320 px and 0.6 s on desktop (compared across devices in `FlipProperties.LayoutProportions`) |
| `BookFlip.RenderTarget` | src/components/ui/BookDetailModal.tsx:134-145 | for a tilt within bounds the back faces the viewer exactly when flipped; the flip offsets the tracked rotationY by −180 and keeps rotationX; a flip in flight eases rotateY over the device's duration and rotateX over half of it, otherwise both follow one spring (300, 30) (single-flip and idle cases in `FlipProperties.FlipIsHalfTurn`, `FlipProperties.RenderedFaceMatchesFlip`, `FlipProperties.IdleUsesSpring`) |
| `BookFlip.NotesText` | src/components/ui/BookDetailModal.tsx:227 | the back face text is never empty: it is the notes when present and non-empty, and the "No notes yet." placeholder otherwise |
| `FlipProperties.ClickFlipsEverywhere` | src/components/ui/BookDetailModal.tsx:29-33 | a click flips, locks and zeroes the tilt on mobile and desktop alike, whatever the container |
| `FlipProperties.PointerUpSwipe` | src/components/ui/BookDetailModal.tsx:46-59 | a pointer-up flips if and only if its distance from the pointer start exceeds 50 px, whatever the sign; beyond 50 px it acts exactly as a click; at 50 px or less the whole state is unchanged |
| `FlipProperties.PointerDownRecordsOnly` | src/components/ui/BookDetailModal.tsx:42-44 | pointer-down records its x and leaves the face, the lock and the tilt unchanged |
| `FlipProperties.MouseMoveGuarded` | src/components/ui/BookDetailModal.tsx:62-63 | a mouse-move while a flip animates or on a mobile device changes nothing |
| `FlipProperties.MouseMoveIgnoresFace` | src/components/ui/BookDetailModal.tsx:61-63 | tilt tracking gives the same angles whether or not the book is flipped |
| `FlipProperties.MouseMoveTracks` | src/components/ui/BookDetailModal.tsx:62-85 | on desktop with no flip in flight, a pointer inside the container gives a bounded tilt; the centre gives (0, 0); a pointer above the centre gives positive rotationX; the face and the lock stay as they were |
| `FlipProperties.MouseLeaveResets` | src/components/ui/BookDetailModal.tsx:88-91 | leaving the container zeroes both angles whatever the lock or device, and leaves the face, the lock and the pointer start alone |
| `FlipProperties.TimerOnlyUnlocks` | src/components/ui/BookDetailModal.tsx:36-38 | the deferred callback releases the lock and changes nothing else |
| `FlipProperties.RenderedFaceMatchesFlip` | src/components/ui/BookDetailModal.tsx:134-137 | while the tilt is within bounds, the face turned towards the viewer by the rotateY target is the back exactly when the state is flipped; rotateX follows the tilt |
| `FlipProperties.FlipIsHalfTurn` | src/components/ui/BookDetailModal.tsx:134-145 | from rest, a flip moves the rotateY target by exactly 180 degrees; it eases rotateY over the device's duration and rotateX over half of it |
| `FlipProperties.IdleUsesSpring` | src/components/ui/BookDetailModal.tsx:138-145 | without a flip in flight both angles follow the same spring (stiffness 300, damping 30) |
| `FlipProperties.LayoutProportions` | src/components/ui/BookDetailModal.tsx:23-26 | both layouts keep a 2:3 width-to-height ratio; the mobile book is smaller in both dimensions and flips faster; the depth is 40 px on both |
| `FlipProperties.SwipeGesture` | src/components/ui/BookDetailModal.tsx:42-59 | pointer-down at a then pointer-up at b flips if and only if abs(b − a) > 50; the result is the flip of the original state with the start at a, or otherwise the original state with the start at a |
| `FlipProperties.StartSurvivesPointerUp` | src/components/ui/BookDetailModal.tsx:42-59 | pointer-up does not clear the recorded start, so a second pointer-up is measured from the same pointer-down and can flip again |
| `FlipProperties.TiltSurvivesDeviceChange` | src/components/ui/BookDetailModal.tsx:19-63 | the device class is re-read on every render and only mouse-move is gated on it, so a 45° rotationY gained on desktop is kept after the window switches to the mobile layout |
| `FlipProperties.MobileNeverTilts` | src/components/ui/BookDetailModal.tsx:28-91 | on a device that stays mobile for the whole sequence, from rest, no sequence of events ever produces a tilt |
| `FlipProperties.TiltStaysBounded` | src/components/ui/BookDetailModal.tsx:62-91 | if every mouse-move of a sequence is over the container, the tilt never leaves ±30 / ±45 degrees |
| `FlipProperties.FlippedByParity` | src/components/ui/BookDetailModal.tsx:29-59 | after any event sequence the face has changed exactly when an odd number of its events were clicks or qualifying swipes: each toggles the face once and nothing else does |
| `FlipProperties.ClicksCount` | src/components/ui/BookDetailModal.tsx:29-39 | every click of an all-click sequence counts as one flip, on any device and in any lock state |
| `FlipProperties.ClickScenario` | src/components/ui/BookDetailModal.tsx:29-38 | open, click: back face and locked; the timer fires: back face and unlocked; a second click before the timer: front face and still locked |
| `FlipProperties.SwipeThresholdScenario` | src/components/ui/BookDetailModal.tsx:46-49 | travel of +51 or −51 px flips; 49 and exactly 50 px do not; a 100 px swipe flips and a 30 px one does not |
| `AnimationTimers.Dispatch` | src/components/ui/BookDetailModal.tsx:28-59 | each flip schedules one lock-clearing callback and each timer consumes one; if the lock was releasable before an event it stays releasable; a firing timer releases the lock |
| `AnimationTimers.LockAlwaysReleasable` | src/components/ui/BookDetailModal.tsx:28-59 | whatever events arrive, while the lock is held at least one clearing callback is outstanding |
| `AnimationTimers.DrainReleases` | src/components/ui/BookDetailModal.tsx:36-38 | once every outstanding callback fires, the lock is released and the face and tilt are as they were |
| `AnimationTimers.StaleClearReleasesEarly` | src/components/ui/BookDetailModal.tsx:29-38 | two quick clicks schedule two clears; the first to fire releases the lock while the second flip's clear is still pending |

## Left out

- Rendering: the six faces, shadows, gradients, the right spine drawn only on desktop and the hint text are presentation and are not modelled. The notes fallback is kept (`BookFlip.NotesText`).
- Animation library internals (spring physics, easing curves, `whileTap`, presence transitions) are foreign code. Only the target angles and the transition kind handed to the library are modelled.
- The media query, `getBoundingClientRect` and `setTimeout` are host services. Device class and rectangle are inputs, and the timer is the `TimerFire` event. Wall-clock time and the order in which callbacks fire are not modelled.
- The rectangle is fixed for a whole event sequence. The real container can move or rescale between mouse-moves, for example during the opening scale animation.
- The device class is fixed for a whole event sequence in `BookFlip.Run` and `AnimationTimers.Replay`. The media query is re-read on every render, so the class can change between events when the window crosses 768 px. `FlipProperties.MobileNeverTilts` holds only for a device that stays mobile, and `FlipProperties.TiltSurvivesDeviceChange` shows the tilt a desktop move leaves behind. Each flip's clear uses the delay in force at that flip, and `AnimationTimers` does not model delays at all.
- A click and a pointer-up fired by the same physical gesture: their combined effect depends on the framework's event batching and on which render's `isFlipped` each handler captured. Events are modelled one at a time, and nothing is claimed about the pair.
- JavaScript floating point: angles and coordinates are exact reals, so rounding in the divisions and the `NaN`/`Infinity` that a zero-size rectangle would produce are not modelled. A zero-size rectangle is excluded by precondition.
- The modal's open/close lifecycle, the carousel (`BookCarousel.tsx`), the pages, the layout components, the static data files and the sitemap have no interaction logic and are not part of this model.
