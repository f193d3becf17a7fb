/** Quotients and remainders of a sum of a multiple and a smaller number. */
module Arithmetic {

  lemma MultipleIsFar(n: int, d: int)
    requires n > 0
    ensures d >= 1 ==> n * d >= n
    ensures d <= -1 ==> n * d <= -n
  {
    if d >= 1 {
      assert n * d == n * (d - 1) + n && n * (d - 1) >= 0;
    } else if d <= -1 {
      assert n * d == n * (d + 1) - n && n * (d + 1) <= 0;
    }
  }

  lemma DivModOfSum(q: nat, n: nat, r: nat)
    requires r < n
    ensures (q * n + r) / n == q && (q * n + r) % n == r
  {
    var x := q * n + r;
    assert x == n * (x / n) + x % n;
    assert n * (x / n - q) == r - x % n by {
      assert n * (x / n - q) == n * (x / n) - n * q;
    }
    MultipleIsFar(n, x / n - q);
  }

  // x - x % n is the largest multiple of n that does not exceed x
  lemma AlignDown(x: nat, n: nat)
    requires n > 0
    ensures x - x % n == x / n * n && (x - x % n) % n == 0
  {
    DivModOfSum(x / n, n, 0);
  }

  lemma MulIsMonotonic(x: int, y: int, z: nat)
    requires x <= y
    ensures x * z <= y * z
  {
    assert y * z - x * z == (y - x) * z;
  }

  lemma DoubleProduct(p: int, x: int)
    ensures 2 * (p * x) == (2 * p) * x
  {
  }

  lemma QuotientAtMost(x: nat, n: nat)
    requires n > 0
    ensures 0 <= x / n <= x
  {
    var q := x / n;
    assert x == n * q + x % n;
    MulIsMonotonic(1, n, q);
  }

  lemma SumSplits(q: nat, r: nat, q': nat, r': nat, n: nat)
    requires r < n && r' < n
    ensures q * n + r == q' * n + r' <==> q == q' && r == r'
  {
    DivModOfSum(q, n, r);
    DivModOfSum(q', n, r');
  }
}
