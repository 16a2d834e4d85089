/** Integer model of the rounded percentages the views display:
    `Math.round((a / b) * 100)` for a positive denominator, and the
    zero-guarded form `b > 0 ? Math.round(...) : 0`. */
module Percent {

  /** `Math.round(100 * a / b)`: the integer nearest to 100·a/b, halves
      rounded up. The ensures says exactly that: r - 1/2 <= 100·a/b < r + 1/2. */
  function RoundedPercent(a: int, b: int): (r: int)
    requires b > 0
    ensures 2 * b * r - b <= 200 * a < 2 * b * r + b
  {
    (200 * a + b) / (2 * b)
  }

  /** The zero-guarded percentage: 0 when there is nothing to compare with. */
  function GuardedPercent(a: int, b: int): (r: int)
    ensures b <= 0 ==> r == 0
    ensures b > 0 ==> r == RoundedPercent(a, b)
  {
    if b > 0 then RoundedPercent(a, b) else 0
  }

  /** A share of a whole is a percentage between 0 and 100; none of it is
      0 % and all of it is 100 %. */
  lemma RoundedPercentInRange(a: int, b: int)
    requires 0 <= a <= b
    requires b > 0
    ensures 0 <= RoundedPercent(a, b) <= 100
    ensures a == 0 ==> RoundedPercent(a, b) == 0
    ensures a == b ==> RoundedPercent(a, b) == 100
  {
    var r := RoundedPercent(a, b);
    if r > 100 {
      assert 2 * b * r >= 2 * b * 101 by { MulMonotone(2 * b, 101, r); }
      assert false;
    }
    if r < 0 {
      assert 2 * b * r <= 2 * b * -1 by { MulMonotone(2 * b, r, -1); }
      assert false;
    }
    if a == 0 && r != 0 {
      assert 2 * b * r >= 2 * b by { MulMonotone(2 * b, 1, r); }
      assert false;
    }
    if a == b && r != 100 {
      assert r <= 99;
      assert 2 * b * r <= 2 * b * 99 by { MulMonotone(2 * b, r, 99); }
      assert false;
    }
  }

  /** The guarded form keeps the same range for any denominator. */
  lemma GuardedPercentInRange(a: int, b: int)
    requires 0 <= a
    requires b <= 0 || a <= b
    ensures 0 <= GuardedPercent(a, b) <= 100
  {
    if b > 0 {
      RoundedPercentInRange(a, b);
    }
  }

  /** More of the same whole never shows a smaller percentage. */
  lemma RoundedPercentMonotone(a: int, a': int, b: int)
    requires b > 0
    requires a <= a'
    ensures RoundedPercent(a, b) <= RoundedPercent(a', b)
  {
    var r, r' := RoundedPercent(a, b), RoundedPercent(a', b);
    if r > r' {
      assert 2 * b * r >= 2 * b * (r' + 1) by { MulMonotone(2 * b, r' + 1, r); }
      assert false;
    }
  }

  lemma MulMonotone(k: int, x: int, y: int)
    requires k >= 0
    requires x <= y
    ensures k * x <= k * y
  {
    assert k * y - k * x == k * (y - x);
  }
}
