/** Facts about division and multiplication that several models need. */
module Arith {
  /** Quotient and remainder are unique. */
  lemma DivModUnique(x: int, n: int, q: int, r: int)
    requires 0 <= r < n && x == q * n + r
    ensures x / n == q && x % n == r
  {
    var d := q - x / n;
    assert d * n == x % n - r by {
      assert x == x / n * n + x % n;
      assert (x / n + d) * n == x / n * n + d * n;
    }
    MulAtLeast(d, n);
  }

  lemma MulAtLeast(d: int, n: int)
    ensures d >= 1 && n >= 0 ==> d * n >= n
    ensures d <= -1 && n >= 0 ==> d * n <= -n
  {
  }

  lemma MulAssoc(a: int, b: int, c: int)
    ensures a * b * c == a * (b * c)
  {
  }
}
