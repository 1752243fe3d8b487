/**
 64-bit fixed point with 32 fraction bits, kept as its raw integer.  Doubles
 are idealised as reals; casts to integer truncate toward zero.
 */
module Decimal {

  /** Raw value of chronos::Decimal, in units of 2^-32. */
  type Raw = int

  const SCALE: real := 4294967296.0

  /** static_cast<int64_t> of a double in range: drop the fraction. */
  function Truncate(x: real): (n: int)
    ensures x >= 0.0 ==> 0.0 <= n as real <= x < n as real + 1.0
    ensures x <= 0.0 ==> n as real - 1.0 < x <= n as real <= 0.0
  {
    if x >= 0.0 then x.Floor else -((-x).Floor)
  }

  function ToDecimal(x: real): Raw { Truncate(x * SCALE) }

  function ToDouble(d: Raw): real { d as real / SCALE }

  /** d is the raw Decimal of the double x, cut toward zero: x itself but for less than 2^-32. */
  ghost predicate IsDecimalOf(d: Raw, x: real) {
    if x >= 0.0 then 0.0 <= d as real <= x * 4294967296.0 < d as real + 1.0
    else d as real - 1.0 < x * 4294967296.0 <= d as real <= 0.0
  }

  lemma ToDecimalIsDecimal(x: real)
    ensures IsDecimalOf(ToDecimal(x), x)
  {
  }

  /** std::round: to the nearest integer, halves away from zero. */
  function Round(x: real): (n: int)
    ensures x >= 0.0 ==> n as real - 0.5 <= x < n as real + 0.5
    ensures x <= 0.0 ==> n as real - 0.5 < x <= n as real + 0.5
  {
    if x >= 0.0 then (x + 0.5).Floor else -((0.5 - x).Floor)
  }

  /** roundPrice with one decimal: the tick of 0.1. */
  function RoundPrice(d: Raw): Raw {
    ToDecimal(Round(ToDouble(d) * 10.0) as real / 10.0)
  }

  lemma TruncateMonotone(x: real, y: real)
    requires x <= y
    ensures Truncate(x) <= Truncate(y)
  {
  }

  lemma ToDecimalMonotone(x: real, y: real)
    requires x <= y
    ensures ToDecimal(x) <= ToDecimal(y)
  {
    assert x * SCALE <= y * SCALE;
    TruncateMonotone(x * SCALE, y * SCALE);
  }

  /** A Decimal survives the trip through double. */
  lemma DecimalRoundTrip(d: Raw)
    ensures ToDecimal(ToDouble(d)) == d
  {
    assert ToDouble(d) * SCALE == d as real;
  }

  /** A double loses less than one unit of 2^-32, toward zero, on the trip through Decimal. */
  lemma DoubleRoundTrip(x: real)
    ensures x >= 0.0 ==> ToDouble(ToDecimal(x)) <= x < ToDouble(ToDecimal(x)) + 1.0 / SCALE
    ensures x <= 0.0 ==> ToDouble(ToDecimal(x)) - 1.0 / SCALE < x <= ToDouble(ToDecimal(x))
  {
    var n := ToDecimal(x);
    assert ToDouble(n) == n as real / SCALE;
  }

  lemma ToDoubleMonotone(a: Raw, b: Raw)
    ensures a <= b <==> ToDouble(a) <= ToDouble(b)
    ensures a < b <==> ToDouble(a) < ToDouble(b)
  {
  }

  lemma RoundMonotone(x: real, y: real)
    requires x <= y
    ensures Round(x) <= Round(y)
  {
  }

  lemma RoundPriceMonotone(a: Raw, b: Raw)
    requires a <= b
    ensures RoundPrice(a) <= RoundPrice(b)
  {
    ToDoubleMonotone(a, b);
    var m, n := Round(ToDouble(a) * 10.0), Round(ToDouble(b) * 10.0);
    RoundMonotone(ToDouble(a) * 10.0, ToDouble(b) * 10.0);
    ToDecimalMonotone(m as real / 10.0, n as real / 10.0);
  }

  /** A price on the tick stays on it although the tick itself is not representable. */
  lemma TickSurvives(k: int)
    ensures Round(ToDouble(ToDecimal(k as real / 10.0)) * 10.0) == k
  {
    var x := k as real / 10.0;
    DoubleRoundTrip(x);
    var y := ToDouble(ToDecimal(x)) * 10.0;
    assert k as real - 0.5 < y < k as real + 0.5;
  }

  lemma RoundPriceIdempotent(d: Raw)
    ensures RoundPrice(RoundPrice(d)) == RoundPrice(d)
  {
    TickSurvives(Round(ToDouble(d) * 10.0));
  }

  lemma RoundHalf(k: int)
    ensures Round(k as real + 0.5) == if k >= 0 then k + 1 else k
  {
  }

  /** A price midway between two ticks goes to the one further from zero. */
  lemma RoundPriceHalfAway(d: Raw, k: int)
    requires ToDouble(d) * 10.0 == k as real + 0.5
    ensures RoundPrice(d) == ToDecimal((if k >= 0 then k + 1 else k) as real / 10.0)
  {
    hide ToDecimal, ToDouble, Round;
    RoundHalf(k);
  }

  /** Rounding moves a price by at most half a tick plus one unit of 2^-32. */
  lemma RoundPriceMovesLittle(d: Raw)
    ensures -0.05 - 1.0 / SCALE <= ToDouble(RoundPrice(d)) - ToDouble(d) <= 0.05 + 1.0 / SCALE
  {
    var v := ToDouble(d);
    var k := Round(v * 10.0);
    DoubleRoundTrip(k as real / 10.0);
    assert -0.05 <= k as real / 10.0 - v <= 0.05;
  }
}
