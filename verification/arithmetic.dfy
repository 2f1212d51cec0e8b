/** Quotients and remainders, for the index arithmetic of the other modules. */
module Arithmetic {

  lemma ModShift(a: int, k: int, m: int)
    requires 0 < m
    ensures (a + k * m) % m == a % m
    decreases if k < 0 then -k else k
  {
    if k > 0 {
      ModShift(a, k - 1, m);
      ModOnce(a + (k - 1) * m, m);
      assert a + (k - 1) * m + m == a + k * m;
    } else if k < 0 {
      ModShift(a, k + 1, m);
      ModOnce(a + k * m, m);
      assert a + k * m + m == a + (k + 1) * m;
    }
  }

  lemma ModOnce(a: int, m: int)
    requires 0 < m
    ensures (a + m) % m == a % m
  {
    var q, r := a / m, a % m;
    ModUnique(a + m, m, q + 1, r);
  }

  /** Quotient and remainder are the only such pair. */
  lemma ModUnique(a: int, m: int, q: int, r: int)
    requires 0 < m && a == q * m + r && 0 <= r < m
    ensures a % m == r && a / m == q
  {
    var q', r' := a / m, a % m;
    assert (q - q') * m == r' - r && (q' - q) * m == r - r';
    if q - q' >= 1 {
      ScaleUp(q - q', m);
    } else if q - q' <= -1 {
      ScaleUp(q' - q, m);
    }
  }

  lemma ScaleUp(k: int, m: int)
    requires k >= 1 && m > 0
    ensures k * m >= m
  {
  }

  lemma Quotient(n: nat, m: nat, q: nat)
    requires 0 < m && q * m <= n < q * m + m
    ensures n / m == q
  {
    ModUnique(n, m, q, n - q * m);
  }

  lemma QuotientBound(n: nat, m: nat, q: nat)
    requires 0 < m && q < n / m
    ensures (q + 1) * m <= n
  {
    var whole := n / m;
    assert n == whole * m + n % m;
    assert (whole - (q + 1)) * m >= 0;
  }

  lemma QuotientMonotone(a: nat, b: nat, m: nat)
    requires 0 < m && a <= b
    ensures a / m <= b / m
  {
    if b / m < a / m { QuotientBound(a, m, b / m); }
  }

  lemma NestedQuotient(n: nat, a: nat, b: nat)
    requires 0 < a && 0 < b && 0 < a * b
    ensures (n / a) / b == n / (a * b)
  {
    var k, r, r' := n / a / b, n / a % b, n % a;
    WholePart(n, a);
    WholePart(n / a, b);
    Expand(k, b, r, a);
    ScaleDown(b - 1 - r, a);
    Quotient(n, a * b, k);
  }

  lemma WholePart(n: nat, a: nat)
    requires 0 < a
    ensures n == (n / a) * a + n % a && 0 <= n % a < a && 0 <= n / a
  {
  }

  lemma ScaleDown(k: int, a: int)
    requires k >= 0 && a >= 0
    ensures k * a >= 0
  {
  }

  lemma OneMore(k: nat, m: nat)
    ensures (k + 1) * m == k * m + m
  {
  }

  lemma Expand(k: int, b: int, r: int, a: int)
    ensures (k * b + r) * a == k * (a * b) + r * a
    ensures (b - 1 - r) * a == a * b - a - r * a
  {
  }

  lemma DivStep(a: nat, m: nat)
    requires 0 < m
    ensures (a + 1) / m == a / m + if (a + 1) % m == 0 then 1 else 0
  {
    if a % m == m - 1 {
      ModUnique(a + 1, m, a / m + 1, 0);
    } else {
      ModUnique(a + 1, m, a / m, a % m + 1);
    }
  }
}
