/** Integer facts the index arithmetic of the buffers and the subsampling rests on. */
module Arith {

  lemma MulAtLeast(k: int, m: int)
    requires 1 <= k && 1 <= m
    ensures k * m >= m
  {
  }

  /** One more factor of `m`. */
  lemma MulSucc(k: int, m: int)
    ensures (k + 1) * m == k * m + m
  {
  }

  /** Division with a positive divisor has exactly one quotient and remainder. */
  lemma DivModUnique(a: int, m: int, q: int, r: int)
    requires 1 <= m && 0 <= r < m && a == q * m + r
    ensures a / m == q && a % m == r
  {
    var q', r' := a / m, a % m;
    assert a == q' * m + r';
    if q' < q {
      assert (q - q') * m == q * m - q' * m;
      MulAtLeast(q - q', m);
    } else if q < q' {
      assert (q' - q) * m == q' * m - q * m;
      MulAtLeast(q' - q, m);
    }
  }

  /** Incrementing modulo `m`: the step a full buffer takes with its cursor. */
  lemma ModSucc(a: int, m: int)
    requires 0 <= a && 1 <= m
    ensures (a + 1) % m == if a % m + 1 == m then 0 else a % m + 1
  {
    var q, r := a / m, a % m;
    assert a == q * m + r;
    if r + 1 == m {
      DivModUnique(a + 1, m, q + 1, 0);
    } else {
      DivModUnique(a + 1, m, q, r + 1);
    }
  }

  /** Adding the divisor once adds one to the quotient. */
  lemma DivAddDivisor(a: int, m: int)
    requires 0 <= a && 1 <= m
    ensures (a + m) / m == a / m + 1
  {
    var q, r := a / m, a % m;
    assert a == q * m + r;
    assert a + m == (q + 1) * m + r;
    DivModUnique(a + m, m, q + 1, r);
  }

  /** A quotient is at least `k` exactly when the dividend is at least `k` divisors. */
  lemma DivAtLeast(a: int, m: int, k: int)
    requires 0 <= a && 1 <= m && 0 <= k
    ensures a / m >= k <==> a >= k * m
  {
    var q, r := a / m, a % m;
    assert a == q * m + r;
    if q >= k {
      assert q * m - k * m == (q - k) * m;
      assert (q - k) * m >= 0;
    } else {
      assert k * m - q * m == (k - q) * m;
      MulAtLeast(k - q, m);
    }
  }
}
