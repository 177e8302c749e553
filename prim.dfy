/**
 The Rust integer semantics the game relies on: `u16` values, the saturating
 subtraction idiom `a.checked_sub(b).unwrap_or_default()`, and the wrapping
 subtraction a release build performs when `a - b` underflows.
 */
module Prim {

  const U16_MAX := 0xFFFF

  /** Rust's `u16`. */
  type uint16 = x: int | 0 <= x <= 0xFFFF

  datatype Option<T> = None | Some(value: T)

  /** `a.checked_sub(b).unwrap_or_default()`: `a - b`, or 0 when that would underflow. */
  function SatSub(a: uint16, b: int): (r: uint16)
    requires 0 <= b
    ensures r >= a - b
    ensures r == 0 || r == a - b
    ensures r <= a
  {
    if a >= b then a - b else 0
  }

  /** `a - b` on `u16` with two's-complement wrap-around (overflow checks off). */
  function WrappingSub(a: uint16, b: uint16): (r: uint16)
    ensures a >= b ==> r == a - b
    ensures a < b ==> r == a - b + U16_MAX + 1
  {
    (a - b) % (U16_MAX + 1)
  }
}
