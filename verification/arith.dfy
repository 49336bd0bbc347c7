/** Facts about Euclidean division by a positive divisor, used by the leap
    year count and the step rule. */
module Arith {

  lemma MulAtLeast(k: int, d: int)
    requires k > 0 && d >= 1
    ensures k * d >= k
  {
  }

  /** Any decomposition `a = k*q + r` with `0 <= r < k` is the quotient and
      remainder of `a` by `k`. */
  lemma DivModUnique(a: int, k: int, q: int, r: int)
    requires k > 0 && 0 <= r < k && a == k * q + r
    ensures a / k == q && a % k == r
  {
    var q', r' := a / k, a % k;
    assert a == k * q' + r';
    assert k * (q - q') == r' - r;
    if q' < q {
      MulAtLeast(k, q - q');
    } else if q < q' {
      MulAtLeast(k, q' - q);
    }
  }

  /** The quotient steps up by one exactly when the dividend reaches a
      multiple of the divisor. */
  lemma DivStep(p: int, k: int)
    requires k > 0
    ensures (p + 1) / k == p / k + (if (p + 1) % k == 0 then 1 else 0)
  {
    var q, r := p / k, p % k;
    assert p == k * q + r;
    if r + 1 == k {
      DivModUnique(p + 1, k, q + 1, 0);
    } else {
      DivModUnique(p + 1, k, q, r + 1);
    }
  }

  /** Numbers compare as their (quotient, remainder) pairs do,
      lexicographically. */
  lemma DivModOrder(a: int, b: int, k: int)
    requires k > 0
    ensures a < b <==> a / k < b / k || (a / k == b / k && a % k < b % k)
  {
    var qa, ra, qb, rb := a / k, a % k, b / k, b % k;
    assert a == k * qa + ra && b == k * qb + rb;
    if qa < qb {
      MulAtLeast(k, qb - qa);
      assert k * qb == k * qa + k * (qb - qa);
    } else if qb < qa {
      MulAtLeast(k, qa - qb);
      assert k * qa == k * qb + k * (qa - qb);
    }
  }
}
