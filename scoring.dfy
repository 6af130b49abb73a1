/** The rounding both profile evaluators apply to their share of complete entries:
    `Math.round(count / total * 100)`, with six checks and with eight categories. */
module Scoring {

  /** `Math.round(count / total * 100)`: the integer nearest to `100 * count / total`,
      halves rounded up. For totals 6 and 8 the floating-point quotient is exact or
      far from a half, so this equals what JavaScript computes. */
  function RoundedPercent(count: nat, total: nat): (p: nat)
    requires 0 < total
    ensures 2 * total * p <= 200 * count + total < 2 * total * (p + 1)
    ensures count <= total ==> p <= 100
  {
    var p := (200 * count + total) / (2 * total);
    RoundingBounds(200 * count + total, 2 * total, p);
    AtMostHundred(count, total, p);
    p
  }

  /** The rounding bounds keep a share of at most the whole at or below 100. */
  lemma AtMostHundred(count: nat, total: nat, p: nat)
    requires 0 < total && 2 * total * p <= 200 * count + total
    ensures count <= total ==> p <= 100
  {
    if count <= total {
      assert 2 * total * p < 2 * total * 101 by {
        assert 200 * count + total <= 2 * total * 100 + total;
      }
      PositiveFactorMonotone(2 * total, p, 101);
    }
  }

  /** Euclidean division places `n` between `d * (n / d)` and `d * (n / d + 1)`. */
  lemma RoundingBounds(n: nat, d: nat, q: nat)
    requires 0 < d && q == n / d
    ensures d * q <= n < d * (q + 1)
  {
    assert n == d * q + n % d;
    assert d * (q + 1) == d * q + d;
  }

  /** A positive factor preserves strict order the other way round. */
  lemma PositiveFactorMonotone(d: nat, a: nat, b: nat)
    requires 0 < d && d * a < d * b
    ensures a < b
  {
  }

  /** With six checks the completeness percentage is one of seven values. */
  lemma SixthsPercent(count: nat)
    requires count <= 6
    ensures RoundedPercent(count, 6) in {0, 17, 33, 50, 67, 83, 100}
    ensures RoundedPercent(count, 6) == 100 <==> count == 6
    ensures RoundedPercent(count, 6) == 0 <==> count == 0
  {
  }

  /** With eight categories the strength percentage is one of nine values. */
  lemma EighthsPercent(count: nat)
    requires count <= 8
    ensures RoundedPercent(count, 8) in {0, 13, 25, 38, 50, 63, 75, 88, 100}
    ensures RoundedPercent(count, 8) == 100 <==> count == 8
    ensures RoundedPercent(count, 8) == 0 <==> count == 0
  {
  }
}
