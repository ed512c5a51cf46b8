/** C integer semantics the program relies on: the ranges of the fixed-width
    types it stores into, the conversion of a signed value to an unsigned
    64-bit field, and the truncating division and remainder of C99. */
module CArith {

  const INT32_MIN: int := -0x8000_0000
  const INT32_MAX: int := 0x7fff_ffff
  const UINT32_MODULUS: int := 0x1_0000_0000
  const INT64_MIN: int := -0x8000_0000_0000_0000
  const INT64_MAX: int := 0x7fff_ffff_ffff_ffff
  const UINT64_MODULUS: int := 0x1_0000_0000_0000_0000

  /** The value fits a C `int` (32 bits); signed overflow is undefined. */
  predicate InInt32(x: int) { INT32_MIN <= x <= INT32_MAX }

  predicate InUint32(x: int) { 0 <= x < UINT32_MODULUS }

  /** The value fits a C `long` / `time_t` (64 bits on the targets this runs on). */
  predicate InInt64(x: int) { INT64_MIN <= x <= INT64_MAX }

  predicate InUint64(x: int) { 0 <= x < UINT64_MODULUS }

  /** Storing an integer into a `uint64_t`: the value is reduced modulo 2^64. */
  function ToU64(x: int): (r: int)
    ensures InUint64(r)
    ensures (x - r) % UINT64_MODULUS == 0
    ensures InUint64(x) ==> r == x
  {
    x % UINT64_MODULUS
  }

  /** C's `/` on integers: the quotient truncated toward zero. The program
      only divides by positive constants. On a non-negative dividend it is
      Euclidean division. */
  function Div(a: int, b: int): (q: int)
    requires b > 0
    ensures 0 <= a ==> q == a / b
  {
    if a >= 0 then a / b else -((-a) / b)
  }

  /** C's `%` on integers: what `Div` leaves over, with the dividend's sign. */
  function Rem(a: int, b: int): (r: int)
    requires b > 0
    ensures 0 <= a ==> r == a % b
  {
    if a >= 0 then a % b else -((-a) % b)
  }

  /** The rules of C99 for `/` and `%` with a positive divisor:
      `(a/b)*b + a%b == a`; the quotient is truncated toward zero, so it has
      the dividend's sign and the magnitude of |a| / b rounded down; the
      remainder is smaller than the divisor in magnitude and is never of the
      opposite sign to the dividend. */
  lemma DivRemRules(a: int, b: int)
    requires b > 0
    ensures Div(a, b) * b + Rem(a, b) == a
    ensures a >= 0 ==> 0 <= Div(a, b) && Div(a, b) * b <= a
    ensures a < 0 ==> Div(a, b) <= 0 && a <= Div(a, b) * b
    ensures a >= 0 ==> 0 <= Rem(a, b) < b
    ensures a < 0 ==> -b < Rem(a, b) <= 0
  {
  }
}
