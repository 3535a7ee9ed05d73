/** Integer arithmetic as the Go code performs it.
    Go's `/` truncates toward zero, while Dafny's is Euclidean. Quantities are integers in milli-units,
    and rounding a quantity to a coarser scale goes away from zero. */
module GoNumerics {

  const MAX_INT64 := 0x7fff_ffff_ffff_ffff

  function Min(a: int, b: int): int {
    if a < b then a else b
  }

  function Max(a: int, b: int): int {
    if a < b then b else a
  }

  /** Go's `x / y` for a positive divisor. */
  function TruncDiv(x: int, y: int): int
    requires y > 0
  {
    if x >= 0 then x / y else -((-x) / y)
  }

  /** Go's `x * weight / 100`. */
  function Percent(x: int, weight: int): int {
    TruncDiv(x * weight, 100)
  }

  /** `x / unit`, rounded away from zero: what Quantity.ScaledValue returns. */
  function RoundAway(x: int, unit: int): int
    requires unit > 0
  {
    if x >= 0 then (x + unit - 1) / unit else -((-x + unit - 1) / unit)
  }

  lemma DivBounds(x: int, y: int)
    requires y > 0
    ensures x / y * y <= x < (x / y + 1) * y
  {
  }

  /** The quotient is the only integer whose multiple of `y` is within `y` below `x`. */
  lemma DivUnique(x: int, y: int, q: int)
    requires y > 0 && q * y <= x < (q + 1) * y
    ensures x / y == q
  {
    DivBounds(x, y);
  }

  lemma DivMonotone(x: int, x': int, y: int)
    requires y > 0 && x <= x'
    ensures x / y <= x' / y
  {
    DivBounds(x, y);
    DivBounds(x', y);
  }

  /** Truncation is symmetric in the sign. */
  lemma PercentNegates(x: int, weight: int)
    ensures Percent(-x, weight) == -Percent(x, weight)
  {
    assert -x * weight == -(x * weight);
  }

  lemma RoundAwayBounds(x: int, unit: int)
    requires unit > 0
    ensures x >= 0 ==> x <= RoundAway(x, unit) * unit < x + unit
    ensures x <= 0 ==> x - unit < RoundAway(x, unit) * unit <= x
  {
  }

  /** Multiples of the unit are fixed by rounding. */
  lemma RoundAwayExact(q: int, unit: int)
    requires unit > 0
    ensures RoundAway(q * unit, unit) == q
  {
    if q >= 0 {
      assert q * unit >= 0;
      DivUnique(q * unit + unit - 1, unit, q);
    } else {
      assert q * unit < 0;
      assert -(q * unit) == (-q) * unit;
      DivUnique(-(q * unit) + unit - 1, unit, -q);
    }
  }

  /** Rounding stays below a whole bound. */
  lemma RoundAwayBelow(x: int, q: int, unit: int)
    requires unit > 0 && q >= 0 && x <= q * unit
    ensures RoundAway(x, unit) * unit <= q * unit
  {
    if x > 0 {
      DivMonotone(x + unit - 1, q * unit + unit - 1, unit);
      DivUnique(q * unit + unit - 1, unit, q);
      MulMonotone(unit, RoundAway(x, unit), q);
    } else {
      RoundAwayBounds(x, unit);
      MulMonotone(unit, 0, q);
    }
  }

  lemma MulMonotone(x: int, a: int, b: int)
    requires x >= 0 && a <= b
    ensures x * a <= x * b
  {
  }

  lemma ShareBetween(x: int, w: int)
    requires x >= 0 && 0 <= w <= 100
    ensures 0 <= x * w / 100 <= x
  {
    MulMonotone(x, 0, w);
    MulMonotone(x, w, 100);
    DivMonotone(0, x * w, 100);
    DivMonotone(x * w, x * 100, 100);
  }

  /** A truncated percentage of `x` lies between zero and `x`. */
  lemma PercentageBetween(x: int, w: int)
    requires 0 <= w <= 100
    ensures x >= 0 ==> 0 <= Percent(x, w) <= x
    ensures x <= 0 ==> x <= Percent(x, w) <= 0
  {
  }
}
