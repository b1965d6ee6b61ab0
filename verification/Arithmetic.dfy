/** Facts about products and quotients, each proved once and away from larger proofs. */
module Arithmetic {
  lemma MulOrder(x: int, y: int, b: int)
    requires 0 < b
    ensures x < y ==> x * b + b <= y * b
  {
    if x < y {
      assert y * b - x * b == (y - x) * b;
      MulAtLeast(y - x, b);
    }
  }

  lemma MulAtLeast(x: int, b: int)
    requires 0 < b && 1 <= x
    ensures b <= x * b
  {
  }

  lemma MulSuccessor(x: int, b: int)
    ensures (x + 1) * b == x * b + b
  {
  }

  lemma DivisionLaw(n: int, b: int)
    requires 0 < b
    ensures n == (n / b) * b + n % b
  {
  }

  /** Division with remainder is unique. */
  lemma UniqueQuotient(q: int, m: int, k: int, r: int, b: int)
    requires 0 < b && 0 <= r < b && 0 <= m < b && q * b + m == k * b + r
    ensures q == k && m == r
  {
    MulOrder(q, k, b);
    MulOrder(k, q, b);
  }

  lemma Quotient(n: int, k: int, b: int, r: int)
    requires 0 < b && 0 <= r < b && n == k * b + r
    ensures n / b == k && n % b == r
  {
    DivisionLaw(n, b);
    var q, m := n / b, n % b;
    UniqueQuotient(q, m, k, r, b);
  }

  lemma QuotientAtMost(n: int, k: int, b: int)
    requires 0 < b && k * b <= n
    ensures k <= n / b
  {
    DivisionLaw(n, b);
    var q := n / b;
    MulOrder(q, k, b);
  }
}
