/**
  Facts of arithmetic that the models share: quotients and remainders of whole numbers, and order of products.
 */
module Division {

  lemma RestIsUnique(x: int, p: int, q: int, r: int)
    requires p > 0 && x == p * q + r && 0 <= r < p
    ensures x % p == r && x / p == q
  {
    DivisionIsUnique(p, q, r, x / p, x % p);
  }

  lemma DivisionIsUnique(p: int, q: int, r: int, q': int, r': int)
    requires 0 <= r < p && 0 <= r' < p && p * q + r == p * q' + r'
    ensures q == q' && r == r'
  {
    assert p * (q' - q) == p * q' - p * q && p * (q - q') == p * q - p * q';
    if q < q' {
      AtLeast(p, q' - q);
    } else if q' < q {
      AtLeast(p, q - q');
    }
  }

  lemma AtLeast(p: int, d: int)
    requires 0 < p && 1 <= d
    ensures p <= p * d
  {}

  lemma OneMore(m: int, k: int)
    ensures (m + 1) * k == m * k + k
  {}

  lemma QuotientBelow(k: nat, p: nat, n: nat)
    requires 0 < p && k < n * p
    ensures k / p < n
  {
    var q := k / p;
    assert q * p <= k;
    if n <= q {
      Monotone(n, q, p);
    }
  }

  lemma Monotone(x: int, y: int, p: int)
    requires x <= y && 0 <= p
    ensures x * p <= y * p
  {}

  lemma ScaledBelow(p: real, x: real)
    requires 0.0 <= x < 1.0 && 0.0 < p
    ensures 0.0 <= p * x < p
  {}

  lemma ProductBelow(a: nat, b: nat, e: nat)
    requires a <= e && b <= e
    ensures a * b <= e * e
  {
    Monotone(a, e, b);
    Monotone(b, e, e);
  }
}
