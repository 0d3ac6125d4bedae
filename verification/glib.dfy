/** The few GLib and C idioms the viewer's code leans on: nullable values,
    the MIN/MAX/ABS/CLAMP macros, and C's truncating integer division. */
module Glib {

  /** A nullable value: `None` stands for a NULL pointer. */
  datatype Option<+T> = None | Some(value: T) {
    /** `p ? p : default`, the idiom used for `local_uri ? local_uri : uri`. */
    function GetOr(default: T): T {
      match this
      case Some(v) => v
      case None => default
    }
  }

  /** An unsigned C `char`. */
  newtype Byte = b: int | 0 <= b < 256

  function Min(a: int, b: int): int { if a < b then a else b }

  function Max(a: int, b: int): int { if a > b then a else b }

  function MaxReal(a: real, b: real): real { if a > b then a else b }

  function Abs(a: int): nat { if a < 0 then -a else a }

  /** GLib's `CLAMP (x, low, high)`: the upper bound is compared first, so when
      the range is empty (`high < low`) the result is `high` for large `x`
      and `low` otherwise. */
  function Clamp(x: int, low: int, high: int): (r: int)
    ensures low <= high ==> low <= r <= high
    ensures low <= x <= high ==> r == x
    ensures x > high ==> r == high
    ensures x <= high && x < low ==> r == low
  {
    if x > high then high else if x < low then low else x
  }

  /** `CLAMP` on doubles, modelled on reals. */
  function ClampReal(x: real, low: real, high: real): (r: real)
    ensures low <= high ==> low <= r <= high
    ensures low <= x <= high ==> r == x
    ensures x > high ==> r == high
    ensures x <= high && x < low ==> r == low
  {
    if x > high then high else if x < low then low else x
  }

  /** C's `/` on `int` operands with a positive divisor: the quotient is
      truncated toward zero, unlike Dafny's Euclidean `/`. */
  function CDiv(a: int, b: int): (q: int)
    requires b > 0
    ensures a >= 0 ==> q == a / b
    ensures a < 0 ==> q <= 0 && q * b >= a
  {
    if a >= 0 then a / b else -((-a) / b)
  }

  /** A part of a positive whole, as a fraction of it. */
  lemma FractionBounds(part: real, whole: real)
    requires 0.0 <= part <= whole && whole > 0.0
    ensures 0.0 <= part / whole <= 1.0 && (part / whole) * whole == part
  {
    var q := part / whole;
    assert q * whole == part;
  }

  /** At least one part of a positive whole is at least the fraction 1/whole. */
  lemma FractionAtLeastOne(part: real, whole: real)
    requires 1.0 <= part && whole > 0.0
    ensures 1.0 / whole <= part / whole
  {
    assert part / whole - 1.0 / whole == (part - 1.0) / whole;
  }

  /** The whole, as a fraction of itself, is 1. */
  lemma WholeFraction(whole: real)
    requires whole > 0.0
    ensures whole / whole == 1.0
  {
  }
}
