/** Plane geometry and the C++ integer conversions the game relies on.
    Coordinates are exact reals; single-precision rounding is not modelled. */
module Geometry {

  /** A 2D vector (raylib `Vector2`). */
  datatype Vec2 = Vec2(x: real, y: real) {
    function Plus(o: Vec2): Vec2 { Vec2(x + o.x, y + o.y) }
    function Minus(o: Vec2): Vec2 { Vec2(x - o.x, y - o.y) }
  }

  const Zero: Vec2 := Vec2(0.0, 0.0)

  /** An axis-aligned rectangle given by its top-left corner and size (raylib `Rectangle`). */
  datatype Rect = Rect(x: real, y: real, width: real, height: real) {
    function Position(): Vec2 { Vec2(x, y) }
    function Size(): Vec2 { Vec2(width, height) }
  }

  /** raylib's point-in-rectangle test: left and top edges inclusive,
      right and bottom edges exclusive. */
  predicate PointInRect(r: Rect, p: Vec2) {
    r.x <= p.x < r.x + r.width && r.y <= p.y < r.y + r.height
  }

  /** The closed rectangle, edges included. */
  predicate InClosedRect(r: Rect, p: Vec2) {
    r.x <= p.x <= r.x + r.width && r.y <= p.y <= r.y + r.height
  }

  /** C++ `static_cast<int>` of a float: rounds toward zero. */
  function Trunc(v: real): (n: int)
    ensures 0.0 <= v ==> n as real <= v < n as real + 1.0
    ensures v < 0.0 ==> n as real - 1.0 < v <= n as real
  {
    if v >= 0.0 then v.Floor else -((-v).Floor)
  }

  /** C++ `/` on `int` with a positive divisor: the quotient rounds toward zero,
      where Dafny's `/` is Euclidean. */
  function TDiv(a: int, b: int): (q: int)
    requires b > 0
    ensures 0 <= a ==> 0 <= q * b <= a < q * b + b
    ensures a < 0 ==> q * b - b < a <= q * b <= 0
  {
    if a >= 0 then
      EuclidBounds(a, b);
      a / b
    else
      EuclidBounds(-a, b);
      -((-a) / b)
  }

  /** Dafny's quotient of non-negative operands brackets the dividend. */
  lemma EuclidBounds(a: int, b: int)
    requires 0 <= a && b > 0
    ensures 0 <= (a / b) * b <= a < (a / b) * b + b
  {
    assert a == (a / b) * b + a % b;
  }

  /** C++ `%` on `int` with a positive divisor: the remainder takes the sign of `a`. */
  function TMod(a: int, b: int): (m: int)
    requires b > 0
    ensures a == TDiv(a, b) * b + m
    ensures 0 <= a ==> 0 <= m < b
    ensures a < 0 ==> -b < m <= 0
  {
    a - TDiv(a, b) * b
  }

  /** On non-negative operands C++ and Dafny division agree. */
  lemma TDivNonNegative(a: int, b: int)
    requires 0 <= a && b > 0
    ensures TDiv(a, b) == a / b
  {
  }
}
