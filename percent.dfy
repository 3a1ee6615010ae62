/**
 * `Math.round((part / whole) * 100)` on counts, computed exactly: the
 * percentage rounded half up to the nearest integer.
 */
module Percent {

  /**
   * The nearest integer to 100 * part / whole, halves rounded up, as
   * `Math.round` does for non-negative numbers.
   */
  function RoundPercent(part: nat, whole: nat): (r: nat)
    requires whole > 0
    ensures 2 * whole * r <= 200 * part + whole < 2 * whole * (r + 1)
    ensures part <= whole ==> r <= 100
    ensures part == 0 ==> r == 0
    ensures part == whole ==> r == 100
  {
    RoundingBounds(part, whole);
    (200 * part + whole) / (2 * whole)
  }

  lemma RoundingBounds(part: nat, whole: nat)
    requires whole > 0
    ensures var r := (200 * part + whole) / (2 * whole);
      && 2 * whole * r <= 200 * part + whole < 2 * whole * (r + 1)
      && (part <= whole ==> r <= 100)
      && (part == 0 ==> r == 0)
      && (part == whole ==> r == 100)
  {
    var n, d := 200 * part + whole, 2 * whole;
    var r := n / d;
    DivBounds(n, d);
    assert d * (r + 1) == d * r + d;
    if part <= whole {
      MulMonotone(d, 101, r);
      assert d * 101 == 202 * whole;
    }
    if part == 0 {
      MulMonotone(d, 1, r);
    }
    if part == whole {
      MulMonotone(d, r + 1, 100);
      assert d * 100 == 200 * whole;
    }
  }

  lemma DivBounds(n: nat, d: nat)
    requires d > 0
    ensures d * (n / d) <= n < d * (n / d + 1)
  {
    assert n == d * (n / d) + n % d;
  }

  lemma MulMonotone(d: nat, a: nat, b: nat)
    ensures a <= b ==> d * a <= d * b
  {
    if a <= b {
      assert d * b == d * a + d * (b - a);
    }
  }

  /** A larger part of the same whole never rounds to a smaller percentage. */
  lemma {:induction false} RoundPercentMonotone(a: nat, b: nat, whole: nat)
    requires whole > 0 && a <= b
    ensures RoundPercent(a, whole) <= RoundPercent(b, whole)
  {
    var ra, rb := RoundPercent(a, whole), RoundPercent(b, whole);
    MulMonotone(2 * whole, rb + 1, ra);
  }
}
