/**
 * Kotlin integer arithmetic where it differs from Dafny's unbounded,
 * Euclidean arithmetic: `Long.toInt()` keeps the low 32 bits, and `/`
 * and `%` truncate toward zero.
 */
module KotlinInt {

  const TwoTo32: int := 0x1_0000_0000
  const MinInt: int := -0x8000_0000
  const MaxInt: int := 0x7FFF_FFFF

  /** `Long.toInt()`: the low 32 bits read as a two's-complement `Int`. */
  function ToInt(x: int): (r: int)
    ensures MinInt <= r <= MaxInt
    ensures (x - r) % TwoTo32 == 0
  {
    (x - MinInt) % TwoTo32 + MinInt
  }

  /** Kotlin's `a / b` for a positive divisor: the quotient rounded toward zero. */
  function Quot(a: int, b: int): (q: int)
    requires b > 0
    ensures a >= 0 ==> 0 <= q * b <= a < q * b + b
    ensures a < 0 ==> q * b - b < a <= q * b <= 0
  {
    var n := if a >= 0 then a else -a;
    assert n == (n / b) * b + n % b && 0 <= n % b < b;
    if a >= 0 then n / b else -(n / b)
  }

  /** Kotlin's `a % b` for a positive divisor: the remainder has the sign of `a`. */
  function Rem(a: int, b: int): (r: int)
    requires b > 0
    ensures a == Quot(a, b) * b + r
    ensures a >= 0 ==> 0 <= r < b
    ensures a < 0 ==> -b < r <= 0
  {
    if a >= 0 then a % b else -((-a) % b)
  }
}
