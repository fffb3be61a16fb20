/**
 The dashboard's percentages: `Int(Double(part) / Double(total) * 100)`, taken here as exact
 arithmetic, which is the percentage rounded down.
 */
module Percent {
  function Pct(part: nat, total: nat): (p: nat)
    requires total > 0
    ensures p * total <= 100 * part < (p + 1) * total
  {
    (100 * part) / total
  }

  /** Multiplying by a non-negative number keeps order. */
  lemma MulMonotone(x: int, y: int, t: nat)
    requires x <= y
    ensures x * t <= y * t
  {
    assert y * t - x * t == (y - x) * t;
  }

  /** The multiple of a positive number determines the multiplier's order. */
  lemma MulCancel(x: int, y: int, t: nat)
    requires t > 0 && x * t < y * t
    ensures x < y
  {
    if x >= y {
      MulMonotone(y, x, t);
    }
  }

  /** A part no larger than the whole is at most 100 percent; the whole is exactly 100. */
  lemma PctBounds(part: nat, total: nat)
    requires 0 < total
    ensures part <= total ==> Pct(part, total) <= 100
    ensures Pct(total, total) == 100
    ensures Pct(0, total) == 0
  {
    MulCancel(Pct(0, total), 1, total);
    var p := Pct(part, total);
    if part <= total {
      MulMonotone(part, total, 100);
      MulCancel(p, 101, total);
    }
    var q := Pct(total, total);
    MulCancel(99, q + 1, total);
    MulCancel(q, 101, total);
  }

  /** A larger part never gets a smaller percentage. */
  lemma PctMonotone(a: nat, b: nat, total: nat)
    requires 0 < total && a <= b
    ensures Pct(a, total) <= Pct(b, total)
  {
    var pa, pb := Pct(a, total), Pct(b, total);
    MulCancel(pa, pb + 1, total);
  }

  /** Rounding down separately never gives more than rounding down the sum. */
  lemma PctAdd(a: nat, b: nat, total: nat)
    requires 0 < total
    ensures Pct(a, total) + Pct(b, total) <= Pct(a + b, total)
  {
    var pa, pb, ps := Pct(a, total), Pct(b, total), Pct(a + b, total);
    assert (pa + pb) * total == pa * total + pb * total;
    MulCancel(pa + pb, ps + 1, total);
  }

  /** Two parts that make up the whole get 99 or 100 percent together: each loses less than one point. */
  lemma PctComplement(a: nat, b: nat, total: nat)
    requires 0 < total && a + b == total
    ensures 99 <= Pct(a, total) + Pct(b, total) <= 100
  {
    var pa, pb := Pct(a, total), Pct(b, total);
    PctAdd(a, b, total);
    PctBounds(total, total);
    assert (pa + pb + 2) * total == (pa + 1) * total + (pb + 1) * total;
    MulCancel(100, pa + pb + 2, total);
  }
}
