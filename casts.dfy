/**
 * Rounding of real numbers to integers as Java does it: `Math.ceil` and the
 * `(int)` cast, which truncates toward zero.
 */
module Casts {
  /** `Math.ceil`. */
  function Ceil(x: real): (r: int)
    ensures r as real - 1.0 < x <= r as real
  {
    -((-x).Floor)
  }

  /** The `(int)` cast of a double: truncation toward zero. */
  function Truncate(x: real): (r: int)
    ensures 0.0 <= x ==> 0 <= r && r as real <= x < r as real + 1.0
    ensures x < 0.0 ==> r <= 0 && r as real - 1.0 < x <= r as real
  {
    if x >= 0.0 then x.Floor else Ceil(x)
  }
}
