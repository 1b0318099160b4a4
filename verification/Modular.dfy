/** Facts about remainders that the ring structures rely on. */
module Modular {
  // Products of two variables, one fact at a time.
  lemma MulAtLeast(d: int, n: int)
    requires d >= 1 && n >= 0
    ensures d * n >= n
  {
  }

  lemma MulDistributes(a: int, b: int, n: int)
    ensures (a - b) * n == a * n - b * n && (a + b) * n == a * n + b * n
  {
  }

  // Division with remainder is unique.
  lemma SameQuotient(n: int, q: int, r: int, q': int, r': int)
    requires 0 <= r < n && 0 <= r' < n && q * n + r == q' * n + r'
    ensures q == q' && r == r'
  {
    MulDistributes(q, q', n);
    MulDistributes(q', q, n);
    if q > q' {
      MulAtLeast(q - q', n);
    } else if q < q' {
      MulAtLeast(q' - q, n);
    }
  }

  lemma QuotientUnique(x: int, n: int, q: int, r: int)
    requires 0 <= r < n && x == q * n + r
    ensures x / n == q && x % n == r
  {
    var q', r' := x / n, x % n;
    assert x == n * q' + r' == q' * n + r';
    SameQuotient(n, q, r, q', r');
  }

  // Two positions less than a full turn apart fall on different slots.
  lemma DistinctSlots(a: nat, b: nat, n: nat)
    requires n > 0 && a < b < a + n
    ensures a % n != b % n
  {
    var q, q' := a / n, b / n;
    MulDistributes(q, q', n);
    MulDistributes(q', q, n);
    assert a == n * q + a % n == q * n + a % n;
    assert b == n * q' + b % n == q' * n + b % n;
    if q < q' {
      MulAtLeast(q' - q, n);
    } else if q' < q {
      MulAtLeast(q - q', n);
    }
  }

  lemma FullTurn(a: nat, n: nat)
    requires n > 0
    ensures (a + n) % n == a % n && (a + n) / n == a / n + 1
  {
    var q, r := a / n, a % n;
    assert a == n * q + r == q * n + r;
    MulDistributes(q, 1, n);
    QuotientUnique(a + n, n, q + 1, r);
  }
}
