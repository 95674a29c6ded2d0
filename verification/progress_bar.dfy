/** The fill of the progress bar: `value / max` as a percentage clamped to [0, 100]. */
module ProgressBar {
  import opened Numbers

  /** The `max` the bar uses when none is given. */
  const DefaultMax: real := 100.0

  /**
   * `Math.min(Math.max((value / max) * 100, 0), 100)`. Dividing by a zero
   * `max` gives an infinity, which the clamp absorbs, or NaN when the value
   * is zero too, which it does not.
   */
  function Percentage(value: real, max: real): (p: Number)
    ensures p.NaN? <==> value == 0.0 && max == 0.0
    ensures !p.NaN? ==> p.Finite? && 0.0 <= p.x <= 100.0
  {
    Min(Max(Scale(Divide(value, max), 100.0), 0.0), 100.0)
  }

  /** Where the quotient lies for a positive divisor. */
  lemma QuotientBounds(value: real, max: real)
    requires max > 0.0
    ensures value <= 0.0 <==> value / max <= 0.0
    ensures value >= max <==> value / max >= 1.0
  {
    var q := value / max;
    assert q * max == value;
  }

  /** For a positive `max`: at or below zero is empty, at or above `max` is full, and in between it is proportional. */
  lemma PercentageOfPositiveMax(value: real, max: real)
    requires max > 0.0
    ensures value <= 0.0 ==> Percentage(value, max) == Finite(0.0)
    ensures value >= max ==> Percentage(value, max) == Finite(100.0)
    ensures 0.0 <= value <= max ==> Percentage(value, max) == Finite(value / max * 100.0)
  {
    QuotientBounds(value, max);
  }

  /** For a fixed positive `max`, a larger value never shows a smaller fill. */
  lemma PercentageMonotone(v1: real, v2: real, max: real)
    requires max > 0.0 && v1 <= v2
    ensures Percentage(v1, max).x <= Percentage(v2, max).x
  {
    assert v1 / max <= v2 / max;
  }

  /** With the default `max` the fill is the value clamped to [0, 100]. */
  lemma PercentageOfDefaultMax(value: real)
    ensures Percentage(value, DefaultMax) ==
      Finite(if value < 0.0 then 0.0 else if value > 100.0 then 100.0 else value)
  {
    PercentageOfPositiveMax(value, DefaultMax);
  }
}
