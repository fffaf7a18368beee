/** Decimal quantisation.  Fixed-point columns are integers counting ticks: 1e-6 for shares
    and prices, 1e-4 for ratings and b_min. */
module Decimals {

  function Micro(ticks: int): real { ticks as real / 1000000.0 }

  function Milli4(ticks: int): real { ticks as real / 10000.0 }

  /** ROUND_DOWN: towards zero. */
  function Truncate(x: real): int {
    if x >= 0.0 then x.Floor else -((-x).Floor)
  }

  /** ROUND_HALF_EVEN, the default of quantize. */
  function HalfEven(x: real): int {
    var low := x.Floor;
    var part := x - low as real;
    if part < 0.5 || (part == 0.5 && low % 2 == 0) then low else low + 1
  }

  /** Half away from zero, as the numeric columns store a non-negative number. */
  function HalfUp(x: real): int { (x + 0.5).Floor }

  function D6(x: real): int { Truncate(x * 1000000.0) }

  function D4(x: real): int { HalfEven(x * 10000.0) }

  function Nearest6(x: real): int { HalfEven(x * 1000000.0) }

  /** Truncation keeps a non-negative number within one tick below itself; the result is the
      only tick count that does. */
  lemma D6Exact(x: real, n: int)
    requires x >= 0.0
    ensures 0 <= D6(x)
    ensures D6(x) == n <==> Micro(n) <= x < Micro(n + 1)
    ensures Micro(D6(x)) <= x < Micro(D6(x)) + 0.000001
  {
    var y := x * 1000000.0;
    assert Micro(n) * 1000000.0 == n as real;
    assert Micro(n + 1) * 1000000.0 == n as real + 1.0;
  }

  lemma D6Mono(x: real, y: real)
    requires 0.0 <= x <= y
    ensures D6(x) <= D6(y)
  {
  }

  /** Below zero, truncation mirrors. */
  lemma D6Mirrors(x: real)
    ensures D6(-x) == -D6(x)
  {
  }

  /** The nearest integer, and of two nearest the even one. */
  ghost predicate NearestEven(x: real, n: int) {
    || -0.5 < x - n as real < 0.5
    || ((x - n as real == 0.5 || x - n as real == -0.5) && n % 2 == 0)
  }

  lemma HalfEvenExactly(x: real, n: int)
    ensures HalfEven(x) == n <==> NearestEven(x, n)
  {
  }

  /** Half-up rounding exactly: the nearest integer, and of two nearest the upper one. */
  lemma HalfUpExactly(x: real, n: int)
    ensures HalfUp(x) == n <==> -0.5 <= x - n as real < 0.5
  {
  }

  lemma HalfEvenError(x: real)
    ensures -0.5 <= HalfEven(x) as real - x <= 0.5
  {
  }

  lemma HalfEvenMono(x: real, y: real)
    requires x <= y
    ensures HalfEven(x) <= HalfEven(y)
  {
  }

  /** A number at or above a representable one is not rounded below it. */
  lemma HalfEvenAbove(n: int, x: real)
    requires n as real <= x
    ensures n <= HalfEven(x)
  {
  }

  lemma D4Mono(x: real, y: real)
    requires x <= y
    ensures D4(x) <= D4(y)
  {
    HalfEvenMono(x * 10000.0, y * 10000.0);
  }

  lemma D4Range(x: real)
    requires 0.0 <= x <= 10.0
    ensures 0 <= D4(x) <= 100000
  {
    HalfEvenAbove(0, x * 10000.0);
  }

  lemma MicroOrder(a: int, c: int)
    ensures a <= c <==> Micro(a) <= Micro(c)
    ensures Micro(a) + Micro(c) == Micro(a + c)
    ensures Micro(a) - Micro(c) == Micro(a - c)
  {
  }
}
