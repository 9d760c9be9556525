/**
 * Integer semantics of the two source languages, written out explicitly:
 * C's fixed-width conversions and truncating division, Python's floor
 * division and modulo, and powers of two for shifts.
 */
module CInt {

  const INT_MIN: int := -0x8000_0000
  const INT_MAX: int := 0x7fff_ffff
  const TWO_32: int := 0x1_0000_0000
  const TWO_64: int := 0x1_0000_0000_0000_0000
  const ULONG_MAX: int := TWO_64 - 1
  const LONG_MIN: int := -0x8000_0000_0000_0000
  const LONG_MAX: int := 0x7fff_ffff_ffff_ffff

  /** 2^k, the value of `1UL << k`. */
  function Pow2(k: nat): (r: nat)
    ensures r >= 1
  {
    if k == 0 then 1 else 2 * Pow2(k - 1)
  }

  function Abs(a: int): nat
  {
    if a < 0 then -a else a
  }

  /** Conversion of an integer to a 32-bit C `int` (two's-complement wrap-around). */
  function ToInt32(a: int): (r: int)
    ensures INT_MIN <= r <= INT_MAX
    ensures (a - r) % TWO_32 == 0
    ensures INT_MIN <= a <= INT_MAX ==> r == a
  {
    var w := a % TWO_32;
    if w <= INT_MAX then w else w - TWO_32
  }

  /** Conversion of an integer to a 64-bit C `unsigned long`. */
  function ToULong(a: int): (r: nat)
    ensures r < TWO_64
    ensures (a - r) % TWO_64 == 0
    ensures 0 <= a < TWO_64 ==> r == a
  {
    a % TWO_64
  }

  /** Conversion of an integer to a 64-bit C `long` (two's-complement wrap-around). */
  function ToInt64(a: int): (r: int)
    ensures LONG_MIN <= r <= LONG_MAX
    ensures (a - r) % TWO_64 == 0
    ensures LONG_MIN <= a <= LONG_MAX ==> r == a
  {
    var w := a % TWO_64;
    if w <= LONG_MAX then w else w - TWO_64
  }

  /** C `/` on integers: the quotient is truncated toward zero. */
  function CDiv(a: int, b: int): int
    requires b != 0
  {
    var q := Abs(a) / Abs(b);
    if (a < 0) == (b < 0) then q else -q
  }

  /** C `%` on integers: the remainder takes the sign of the dividend. */
  function CRem(a: int, b: int): (r: int)
    requires b != 0
    ensures a >= 0 ==> 0 <= r < Abs(b)
    ensures a < 0 ==> -(Abs(b) as int) < r <= 0
    ensures b > 0 && a >= 0 ==> r == a % b
  {
    var m := Abs(a) % Abs(b);
    if a < 0 then -m else m
  }

  /** Python `//`: the quotient is rounded toward negative infinity. */
  function PyDiv(a: int, b: int): int
    requires b != 0
  {
    if b > 0 then a / b else (-a) / (-b)
  }

  /** Python `%`: the remainder takes the sign of the divisor. */
  function PyMod(a: int, b: int): (r: int)
    requires b != 0
    ensures b > 0 ==> 0 <= r < b
    ensures b < 0 ==> b < r <= 0
    ensures b > 0 ==> r == a % b
  {
    if b > 0 then a % b else -((-a) % (-b))
  }

  /** The `unsigned long` a scanned number is stored as by `strtoul`: a value beyond the type saturates. */
  function Saturate(a: int): (r: nat)
    ensures r <= ULONG_MAX
    ensures 0 <= a <= ULONG_MAX ==> r == a
  {
    if a < 0 then 0 else if a > ULONG_MAX then ULONG_MAX else a
  }
}
