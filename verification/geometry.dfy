/** Vectors, axis-aligned rectangles and the Java numeric conversions the
    hero update relies on.

    `Overlaps` and `Contains` are the libGDX `Rectangle.overlaps` and
    `Rectangle.contains(Vector2)` tests; the library itself is not part of
    this model, so both are stated here as assumptions about it. Floats are
    modelled as `real` (no rounding). */
module Geometry {

  datatype Vec2 = Vec2(x: real, y: real)

  /** A rectangle given by its lower-left corner and its extent. */
  datatype Rect = Rect(x: real, y: real, width: real, height: real)

  /** libGDX's strict AABB test: rectangles that merely touch do not overlap. */
  predicate Overlaps(a: Rect, b: Rect) {
    && a.x < b.x + b.width
    && a.x + a.width > b.x
    && a.y < b.y + b.height
    && a.y + a.height > b.y
  }

  /** libGDX's inclusive point-in-rectangle test. */
  predicate Contains(r: Rect, p: Vec2) {
    && r.x <= p.x <= r.x + r.width
    && r.y <= p.y <= r.y + r.height
  }

  function Abs(v: real): real {
    if v < 0.0 then -v else v
  }

  function Min(a: real, b: real): real {
    if a <= b then a else b
  }

  /** `Math.signum` on a float: -1, 0 or 1. */
  function Signum(v: real): real {
    if v > 0.0 then 1.0 else if v < 0.0 then -1.0 else 0.0
  }

  const INT_MIN: int := -0x8000_0000
  const INT_MAX: int := 0x7FFF_FFFF

  predicate InIntRange(n: int) {
    INT_MIN <= n <= INT_MAX
  }

  /** Java's `(int)` cast of a float: rounds toward zero (not down), and
      saturates at the bounds of a 32-bit int. */
  function JavaIntCast(v: real): (n: int)
    ensures InIntRange(n)
    ensures v >= INT_MAX as real ==> n == INT_MAX
    ensures v <= INT_MIN as real ==> n == INT_MIN
    ensures INT_MIN as real < v < INT_MAX as real && v >= 0.0 ==>
              n as real <= v < n as real + 1.0
    ensures INT_MIN as real < v < INT_MAX as real && v < 0.0 ==>
              n as real - 1.0 < v <= n as real
  {
    if v >= INT_MAX as real then INT_MAX
    else if v <= INT_MIN as real then INT_MIN
    else if v >= 0.0 then v.Floor
    else -((-v).Floor)
  }

  /** The cast never reverses the order of two floats. */
  lemma JavaIntCastMonotone(a: real, b: real)
    requires a <= b
    ensures JavaIntCast(a) <= JavaIntCast(b)
  {
  }

  /** Casting a whole number that fits in an int gives it back. */
  lemma JavaIntCastOfInt(k: int)
    requires InIntRange(k)
    ensures JavaIntCast(k as real) == k
  {
  }

  /** On a non-negative value that fits in an int the cast is the floor. */
  lemma JavaIntCastNonNegative(v: real, n: int)
    requires 0 <= n < INT_MAX
    requires n as real <= v < n as real + 1.0
    ensures JavaIntCast(v) == n
  {
  }

  /** Truncation differs from flooring on negative fractions: `(int) -0.5`
      is 0, whereas the floor is -1. */
  lemma JavaIntCastTruncatesTowardZero()
    ensures JavaIntCast(-0.5) == 0 && (-0.5).Floor == -1
  {
  }
}
