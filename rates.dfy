/** `Math.round((part / whole) * 100)` in exact arithmetic: the percentage
    rounded half up. */
module Rates {

  /** The nearest whole percentage to `100 * part / whole`, halves rounded up. */
  function RoundedPercent(part: nat, whole: nat): (r: nat)
    requires whole > 0
    ensures 2 * whole * r <= 200 * part + whole < 2 * whole * (r + 1)
  {
    var r := (200 * part + whole) / (2 * whole);
    DivBracket(200 * part + whole, 2 * whole);
    r
  }

  lemma DivBracket(n: nat, d: nat)
    requires d > 0
    ensures d * (n / d) <= n < d * (n / d + 1)
  {
  }

  /** A part of the whole is between 0 and 100 percent. */
  lemma PercentInRange(part: nat, whole: nat)
    requires 0 < whole && part <= whole
    ensures RoundedPercent(part, whole) <= 100
  {
    var r := RoundedPercent(part, whole);
    if r >= 101 {
      MulMonotone(2 * whole, 101, r);
      assert false;
    }
  }

  /** All of the whole is 100 percent, none of it 0 percent. */
  lemma PercentOfAllAndNone(whole: nat)
    requires whole > 0
    ensures RoundedPercent(whole, whole) == 100
    ensures RoundedPercent(0, whole) == 0
  {
    var r := RoundedPercent(whole, whole);
    if r <= 99 {
      MulMonotone(2 * whole, r + 1, 100);
      assert false;
    }
    if r >= 101 {
      MulMonotone(2 * whole, 101, r);
      assert false;
    }
    var z := RoundedPercent(0, whole);
    if z >= 1 {
      MulMonotone(2 * whole, 1, z);
      assert false;
    }
  }

  /** More of the same whole never gives a smaller percentage. */
  lemma PercentMonotone(a: nat, b: nat, whole: nat)
    requires whole > 0 && a <= b
    ensures RoundedPercent(a, whole) <= RoundedPercent(b, whole)
  {
    var ra, rb := RoundedPercent(a, whole), RoundedPercent(b, whole);
    if ra > rb {
      MulMonotone(2 * whole, rb + 1, ra);
      assert false;
    }
  }

  lemma MulMonotone(k: nat, x: nat, y: nat)
    requires x <= y
    ensures k * x <= k * y
  {
  }
}
