/** Pointer-to-tilt geometry of the book detail view.

    The mouse-move handler reads the bounding rectangle of the 3D
    perspective container, places the pointer inside it on a scale from
    -1 to 1 on each axis (0 at the centre), and multiplies by a maximum
    angle: 45 degrees around the vertical axis, 30 degrees around the
    horizontal one, the latter negated so that a pointer above the centre
    tilts the top of the book towards the viewer.  Nothing is clamped.
 */
module Geometry {

  /** Largest rotationY the tracker produces for a pointer inside the container. */
  const MaxRotationY: real := 45.0
  /** Largest rotationX the tracker produces for a pointer inside the container. */
  const MaxRotationX: real := 30.0

  /** A bounding rectangle as reported by the host (client coordinates). */
  datatype Rect = Rect(left: real, top: real, width: real, height: real)
  {
    /** The handler divides by width and height without a guard. */
    predicate Proper() {
      width > 0.0 && height > 0.0
    }

    predicate Contains(x: real, y: real) {
      left <= x <= left + width && top <= y <= top + height
    }

    function CentreX(): real { left + width / 2.0 }
    function CentreY(): real { top + height / 2.0 }
  }

  /** The pair of angles (degrees) the tracker writes into the state. */
  datatype Tilt = Tilt(rotationX: real, rotationY: real)
  {
    /** Both angles within the maxima the tracker promises inside the container. */
    predicate Bounded() {
      -MaxRotationX <= rotationX <= MaxRotationX && -MaxRotationY <= rotationY <= MaxRotationY
    }
  }

  /** Position of `p` along a segment starting at `start` of length `size`,
      mapped linearly so that `start` is -1, the midpoint 0 and the end 1. */
  function Normalize(p: real, start: real, size: real): (n: real)
    requires size > 0.0
    ensures start <= p <= start + size <==> -1.0 <= n <= 1.0
    ensures n == 0.0 <==> p == start + size / 2.0
    ensures n < 0.0 <==> p < start + size / 2.0
  {
    var fraction := (p - start) / size;
    QuotientOrder(p - start, size, 0.0);
    QuotientOrder(p - start, size, 0.5);
    QuotientOrder(p - start, size, 1.0);
    (fraction - 0.5) * 2.0
  }

  /** Comparing a quotient with a constant is comparing the dividend with the scaled constant. */
  lemma QuotientOrder(a: real, k: real, c: real)
    requires k > 0.0
    ensures a / k <= c <==> a <= c * k
    ensures a / k < c <==> a < c * k
    ensures c <= a / k <==> c * k <= a
    ensures a / k == c <==> a == c * k
  {
    var q := a / k;
    assert q * k == a;
    ScaleOrder(q, c, k);
    ScaleOrder(c, q, k);
  }

  /** Multiplying by a positive factor preserves order in both directions. */
  lemma ScaleOrder(a: real, b: real, k: real)
    requires k > 0.0
    ensures a <= b <==> a * k <= b * k
    ensures a < b <==> a * k < b * k
    ensures a == b <==> a * k == b * k
  {
    if a <= b {
      assert (b - a) * k >= 0.0;
    }
    if a * k <= b * k {
      assert (b - a) * k >= 0.0;
    }
  }

  /** Tilt for a pointer at (x, y) over the container `r`. */
  function TiltAt(r: Rect, x: real, y: real): (t: Tilt)
    requires r.Proper()
    ensures r.Contains(x, y) <==> t.Bounded()
    ensures t.rotationY == 0.0 <==> x == r.CentreX()
    ensures t.rotationX == 0.0 <==> y == r.CentreY()
    ensures t.rotationX > 0.0 <==> y < r.CentreY()
    ensures t.rotationY < 0.0 <==> x < r.CentreX()
  {
    var normalizedX := Normalize(x, r.left, r.width);
    var normalizedY := Normalize(y, r.top, r.height);
    Tilt(-normalizedY * MaxRotationX, normalizedX * MaxRotationY)
  }

  /** Inverse of Normalize: the point of the segment that maps to `n`. */
  function Denormalize(n: real, start: real, size: real): (p: real)
    requires size > 0.0
    ensures Normalize(p, start, size) == n
  {
    start + size * (n / 2.0 + 0.5)
  }

  /** The pointer position over `r` that produces the tilt `t`. */
  function PointerFor(r: Rect, t: Tilt): (p: (real, real))
    requires r.Proper()
    ensures TiltAt(r, p.0, p.1) == t
    ensures t.Bounded() ==> r.Contains(p.0, p.1)
  {
    (Denormalize(t.rotationY / MaxRotationY, r.left, r.width),
     Denormalize(-t.rotationX / MaxRotationX, r.top, r.height))
  }

  /** Normalize is one-to-one, so Denormalize also undoes it. */
  lemma DenormalizeNormalize(p: real, start: real, size: real)
    requires size > 0.0
    ensures Denormalize(Normalize(p, start, size), start, size) == p
  {
    var n := Normalize(p, start, size);
    assert n / 2.0 + 0.5 == (p - start) / size;
    assert size * ((p - start) / size) == p - start;
  }

  /** The tracker loses no information: the pointer is recovered from its tilt. */
  lemma PointerForTiltAt(r: Rect, x: real, y: real)
    requires r.Proper()
    ensures PointerFor(r, TiltAt(r, x, y)) == (x, y)
  {
    var t := TiltAt(r, x, y);
    assert t.rotationY / MaxRotationY == Normalize(x, r.left, r.width);
    assert -t.rotationX / MaxRotationX == Normalize(y, r.top, r.height);
    DenormalizeNormalize(x, r.left, r.width);
    DenormalizeNormalize(y, r.top, r.height);
  }

  /** Every bounded tilt is reached by some pointer inside the container. */
  lemma EveryBoundedTiltReachable(r: Rect, t: Tilt)
    requires r.Proper() && t.Bounded()
    ensures exists x, y :: r.Contains(x, y) && TiltAt(r, x, y) == t
  {
    var p := PointerFor(r, t);
    assert r.Contains(p.0, p.1) && TiltAt(r, p.0, p.1) == t;
  }
}
