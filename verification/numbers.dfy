/** Integer arithmetic the views share: the `Math.round` of a
    non-negative quotient and powers of two. */
module Numbers {

  /** `Math.round(a / b)` for a non-negative quotient: the nearest
      integer, halves rounded up. */
  function RoundDiv(a: nat, b: nat): (r: nat)
    requires b > 0
    ensures 2 * b * r <= 2 * a + b < 2 * b * (r + 1)
  {
    (2 * a + b) / (2 * b)
  }

  /** `r` is `100 * part / whole` rounded to the nearest integer, halves up. */
  predicate RoundsToPercent(r: nat, part: nat, whole: nat) {
    2 * whole * r <= 200 * part + whole < 2 * whole * (r + 1)
  }

  /** `Math.round(part / whole * 100)`: a whole-number percentage. */
  function Percent(part: nat, whole: nat): (r: nat)
    requires whole > 0
    ensures 2 * whole * r <= 200 * part + whole < 2 * whole * (r + 1)
    ensures RoundsToPercent(r, part, whole)
    ensures part <= whole ==> r <= 100
    ensures part == whole ==> r == 100
    ensures part == 0 ==> r == 0
  {
    PercentFacts(part, whole);
    RoundDiv(100 * part, whole)
  }

  lemma PercentFacts(part: nat, whole: nat)
    requires whole > 0
    ensures part <= whole ==> RoundDiv(100 * part, whole) <= 100
    ensures part == whole ==> RoundDiv(100 * part, whole) == 100
  {
    if part <= whole {
      MulMonotone(100, part, whole);
      RoundDivBound(100 * part, whole, 100);
    }
    if part == whole {
      RoundDivExact(100, whole);
    }
  }

  /** Rounding never goes past a bound the quotient respects. */
  lemma RoundDivBound(a: nat, b: nat, k: nat)
    requires b > 0 && a <= b * k
    ensures RoundDiv(a, b) <= k
  {
    var r := RoundDiv(a, b);
    assert 2 * b * r < 2 * b * (k + 1);
    CancelLess(2 * b, r, k + 1);
  }

  /** Rounding never falls below a bound the quotient respects. */
  lemma RoundDivLower(a: nat, b: nat, k: nat)
    requires b > 0 && b * k <= a
    ensures k <= RoundDiv(a, b)
  {
    var r := RoundDiv(a, b);
    assert 2 * b * k < 2 * b * (r + 1);
    CancelLess(2 * b, k, r + 1);
  }

  /** Exact quotients round to themselves. */
  lemma RoundDivExact(k: nat, b: nat)
    requires b > 0
    ensures RoundDiv(b * k, b) == k
  {
    var r := RoundDiv(b * k, b);
    assert 2 * b * r < 2 * b * (k + 1);
    CancelLess(2 * b, r, k + 1);
    assert 2 * b * k < 2 * b * (r + 1);
    CancelLess(2 * b, k, r + 1);
  }

  /** A larger numerator never rounds to a smaller integer. */
  lemma RoundDivMonotone(a: nat, a': nat, b: nat)
    requires b > 0 && a <= a'
    ensures RoundDiv(a, b) <= RoundDiv(a', b)
  {
    var r, r' := RoundDiv(a, b), RoundDiv(a', b);
    assert 2 * b * r < 2 * b * (r' + 1);
    CancelLess(2 * b, r, r' + 1);
  }

  /** Cancelling a positive factor from a strict inequality. */
  lemma CancelLess(c: nat, x: nat, y: nat)
    requires c > 0 && c * x < c * y
    ensures x < y
  {
    if x >= y {
      MulMonotone(c, y, x);
    }
  }

  lemma MulMonotone(c: nat, x: nat, y: nat)
    requires x <= y
    ensures c * x <= c * y
  {
  }

  /** 2 to the power `k`. */
  function Pow2(k: nat): (r: nat)
    ensures r >= 1
  {
    if k == 0 then 1 else 2 * Pow2(k - 1)
  }
}
