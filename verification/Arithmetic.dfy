/** Smallest, largest and absolute values, and facts about Euclidean quotients and remainders. */
module Arithmetic {
  function Min(a: int, b: int): (least: int)
    ensures least <= a && least <= b && (least == a || least == b)
  {
    if a <= b then a else b
  }

  function Max(a: int, b: int): (most: int)
    ensures a <= most && b <= most && (most == a || most == b)
  {
    if a <= b then b else a
  }

  function Abs(n: int): nat { if n < 0 then -n else n }

  lemma CancelFactor(a: int, b: int, n: int)
    requires n >= 1 && a * n < b * n
    ensures a < b
  {
  }

  lemma QuotientBounds(a: int, n: int, low: int, high: int)
    requires n >= 1 && low * n <= a < high * n + n
    ensures low <= a / n <= high
  {
    var q := a / n;
    assert a == q * n + a % n;
    assert (q + 1) * n == q * n + n && (high + 1) * n == high * n + n;
    CancelFactor(low, q + 1, n);
    CancelFactor(q, high + 1, n);
  }

  /** Adding a multiple of the divisor shifts the quotient and keeps the remainder. */
  lemma AddMultiple(a: int, k: int, n: int)
    requires n >= 1
    ensures (a + k * n) / n == a / n + k
    ensures (a + k * n) % n == a % n
  {
    var q := a / n;
    assert a == q * n + a % n;
    assert (q + k) * n == q * n + k * n;
    QuotientBounds(a + k * n, n, q + k, q + k);
    assert (a + k * n) % n == a + k * n - (q + k) * n;
  }

  lemma SmallQuotient(a: int, n: int)
    requires 0 <= a < n
    ensures a / n == 0 && a % n == a
  {
  }
}
