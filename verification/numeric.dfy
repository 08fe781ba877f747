/** Machine integer ranges and the C conversions between reals and integers used by the firmware. */
module Numeric {

  /** int16_t. */
  newtype Int16 = x: int | -32768 <= x < 32768

  /** int8_t. */
  newtype Int8 = x: int | -128 <= x < 128

  /** Conversion of a floating value to an integer type in C: the fraction is discarded, toward zero. */
  function Trunc(x: real): (r: int)
    ensures 0.0 <= x ==> r as real <= x < r as real + 1.0
    ensures x < 0.0 ==> r as real - 1.0 < x <= r as real
  {
    if x >= 0.0 then x.Floor else -((-x).Floor)
  }

  /** `1 << q`. */
  function Pow2(q: nat): (r: nat)
    ensures r >= 1
  {
    if q == 0 then 1 else 2 * Pow2(q - 1)
  }
}
