/** `sdk.Dec`: a decimal with 18 fractional digits, held as an integer count of
    10^-18 units. Only the operations the claims module uses. */
module FixedPoint {

  const ONE: int := 1_000_000_000_000_000_000

  /** Integer to decimal. */
  function FromInt(n: int): int { n * ONE }

  /** Go's integer division: the quotient is cut toward zero. */
  function TruncatedQuotient(n: int, d: int): int
    requires d > 0
  {
    if n >= 0 then n / d else -((-n) / d)
  }

  /** Drops 18 digits, rounding half to even; negative numbers are rounded by magnitude. */
  function ChopAndRound(x: int): int {
    if x < 0 then 0 - ChopMagnitude(-x) else ChopMagnitude(x)
  }

  function ChopMagnitude(x: nat): nat {
    var q, r := x / ONE, x % ONE;
    if 2 * r < ONE then q
    else if 2 * r > ONE then q + 1
    else if q % 2 == 0 then q
    else q + 1
  }

  function Mul(a: int, b: int): int { ChopAndRound(a * b) }

  function Quo(a: int, b: int): int
    requires b > 0
  {
    ChopAndRound(TruncatedQuotient(a * ONE * ONE, b))
  }

  function QuoInt64(a: int, n: int): int
    requires n > 0
  {
    TruncatedQuotient(a, n)
  }

  function RoundInt(a: int): int { ChopAndRound(a) }

  /** The quotient cut toward zero: the remainder is smaller than the divisor
      and has the sign of the dividend. */
  lemma TruncatesTowardZero(n: int, d: int)
    requires d > 0
    ensures var r := n - TruncatedQuotient(n, d) * d;
            (n >= 0 ==> 0 <= r < d) && (n <= 0 ==> -d < r <= 0)
  {
  }

  /** Rounding is within half a unit and keeps the order. */
  lemma ChopNearest(x: int)
    ensures -ONE <= 2 * (ONE * ChopAndRound(x) - x) <= ONE
  {
  }

  /** Halves go to the even neighbour, of either sign. */
  lemma ChopTies(n: int)
    ensures ChopAndRound(2 * n * ONE + ONE / 2) == 2 * n
    ensures ChopAndRound(2 * n * ONE - ONE / 2) == 2 * n
  {
  }

  lemma ChopMonotone(x: int, y: int)
    requires x <= y
    ensures ChopAndRound(x) <= ChopAndRound(y)
  {
  }

  lemma ChopExact(n: int)
    ensures ChopAndRound(n * ONE) == n
  {
  }

  /** Multiplying an integer by a decimal loses no digit before the final rounding. */
  lemma MulByIntIsExact(n: int, ratio: int)
    ensures Mul(FromInt(n), ratio) == n * ratio
  {
  }

  /** A quarter of an integer is representable: 10^18 is divisible by four. */
  lemma QuarterIsExact(n: nat)
    ensures 4 * Quo(FromInt(n), FromInt(4)) == FromInt(n)
  {
  }
}
