/** The C integer semantics that the presentation context relies on:
    32-bit unsigned wrap-around, the two's complement reinterpretation of a
    32-bit unsigned value as `int`, the range of `int64_t`, and C's signed
    division and remainder, which truncate toward zero (Dafny's `/` and `%`
    are Euclidean). */
module CTypes {

  const TWO_31: int := 0x8000_0000
  const TWO_32: int := 0x1_0000_0000
  const INT64_MIN: int := -0x8000_0000_0000_0000
  const INT64_MAX: int := 0x7fff_ffff_ffff_ffff

  predicate IsUint32(x: int) { 0 <= x < TWO_32 }

  predicate IsInt32(x: int) { -TWO_31 <= x < TWO_31 }

  predicate IsInt64(x: int) { INT64_MIN <= x <= INT64_MAX }

  /** Conversion to `unsigned` (UINT): the unique value in [0, 2^32) congruent to
      `x` modulo 2^32. Unsigned subtraction and addition, and the assignment of an
      `int64_t` to an `unsigned`, all reduce this way. */
  function ToUint32(x: int): (r: int)
    ensures IsUint32(r)
    ensures (x - r) % TWO_32 == 0
    ensures IsUint32(x) ==> r == x
  {
    x % TWO_32
  }

  /** Conversion of an `unsigned` value to `int`: on the two's complement
      targets the source is built for, values from 2^31 up become negative. */
  function ToInt32(u: int): (r: int)
    requires IsUint32(u)
    ensures IsInt32(r)
    ensures ToUint32(r) == u
    ensures u < TWO_31 ==> r == u
  {
    if u < TWO_31 then u else u - TWO_32
  }

  /** C's `a / b` for a positive divisor: the quotient rounded toward zero, so
      the remainder left over has the sign of `a` and is smaller than `b`. */
  function TruncDiv(a: int, b: int): (q: int)
    requires b > 0
    ensures 0 <= a ==> 0 <= a - q * b < b
    ensures a < 0 ==> -b < a - q * b <= 0
    ensures 0 <= a ==> 0 <= q
    ensures a <= 0 ==> q <= 0
  {
    if a >= 0 then a / b else -((-a) / b)
  }

  /** C's `a % b` for a positive divisor: what `TruncDiv` leaves over, so that
      `(a / b) * b + a % b == a` holds as C requires. */
  function TruncRem(a: int, b: int): (r: int)
    requires b > 0
    ensures r == a - TruncDiv(a, b) * b
    ensures -b < r < b
    ensures 0 <= a ==> 0 <= r
    ensures a < 0 ==> r <= 0
  {
    if a >= 0 then a % b else -((-a) % b)
  }
}
