/**
 * Two-decimal rounding as the extraction function writes it,
 * `Math.round(x * 100) / 100`, over exact reals.
 */
module Money {

  function Abs(x: real): (r: real)
    ensures r >= 0.0 && (r == x || r == -x)
  {
    if x >= 0.0 then x else -x
  }

  /**
   * `Math.round(x)`: the integer nearest to `x`, a tie going toward +∞.
   * The two bounds single out that integer.
   */
  function JsRound(x: real): (n: int)
    ensures x - 0.5 < n as real <= x + 0.5
  {
    (x + 0.5).Floor
  }

  /** `x` is a whole number of cents. */
  predicate IsCents(x: real) {
    (x * 100.0).Floor as real == x * 100.0
  }

  /** The cent count of a whole-cents amount. */
  function Cents(x: real): (n: int)
    requires IsCents(x)
    ensures n as real / 100.0 == x
  {
    (x * 100.0).Floor
  }

  lemma CentsOfInt(n: int)
    ensures IsCents(n as real / 100.0)
  {
    assert (n as real / 100.0) * 100.0 == n as real;
  }

  /** `Math.round(x * 100) / 100`. */
  function RoundCents(x: real): (r: real)
    ensures IsCents(r)
    ensures -0.005 < r - x <= 0.005
  {
    var n := JsRound(x * 100.0);
    CentsOfInt(n);
    n as real / 100.0
  }

  /** An amount already in whole cents is left alone. */
  lemma RoundCentsOfCents(x: real)
    requires IsCents(x)
    ensures RoundCents(x) == x
  {
    var n := Cents(x);
    assert x * 100.0 == n as real;
    assert JsRound(x * 100.0) == n;
  }

  /** Rounding a second time changes nothing. */
  lemma RoundCentsIdempotent(x: real)
    ensures RoundCents(RoundCents(x)) == RoundCents(x)
  {
    RoundCentsOfCents(RoundCents(x));
  }

  /** Rounding never reverses the order of two amounts. */
  lemma RoundCentsMonotone(x: real, y: real)
    requires x <= y
    ensures RoundCents(x) <= RoundCents(y)
  {
    var m, n := JsRound(x * 100.0), JsRound(y * 100.0);
    assert m <= n by {
      assert x * 100.0 <= y * 100.0;
    }
    assert m as real / 100.0 <= n as real / 100.0;
  }

  /**
   * Integer cent counts `a + b - c` that lie within 1.5 of a real `d`: at
   * most 2 away from zero when `|d| <= 1`, at most 1 when `d` is 0.
   */
  lemma CentsGap(a: int, b: int, c: int, d: real)
    requires -1.5 < (a + b - c) as real - d < 1.5
    ensures -1.0 <= d <= 1.0 ==> -2 <= a + b - c <= 2
    ensures d == 0.0 ==> -1 <= a + b - c <= 1
  {
  }

  /**
   * If `net + vat` and `gross` agree within a cent before rounding, the
   * rounded amounts agree within two cents.
   */
  lemma RoundedCoherenceWithinTwoCents(net: real, vat: real, gross: real)
    requires Abs(net + vat - gross) <= 0.01
    ensures Abs(RoundCents(net) + RoundCents(vat) - RoundCents(gross)) <= 0.02
  {
    var a, b, c := JsRound(net * 100.0), JsRound(vat * 100.0), JsRound(gross * 100.0);
    var d := (net + vat - gross) * 100.0;
    CentsGap(a, b, c, d);
    assert RoundCents(net) + RoundCents(vat) - RoundCents(gross) == (a + b - c) as real / 100.0;
  }

  /**
   * If `net` is exactly `gross - vat`, the rounded amounts still agree
   * within one cent.
   */
  lemma RoundedCoherenceWithinCent(vat: real, gross: real)
    ensures Abs(RoundCents(gross - vat) + RoundCents(vat) - RoundCents(gross)) <= 0.01
  {
    var a, b, c := JsRound((gross - vat) * 100.0), JsRound(vat * 100.0), JsRound(gross * 100.0);
    CentsGap(a, b, c, 0.0);
    assert RoundCents(gross - vat) + RoundCents(vat) - RoundCents(gross) == (a + b - c) as real / 100.0;
  }
}
