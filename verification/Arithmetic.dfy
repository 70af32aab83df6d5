/** Facts about products and quotients of unknowns, one step each. Products of two unknowns are kept out of
    every other proof: the perceptual hash uses these by name, for the bounds k * d / n of its boxes, for its
    averages, and for the two invariances, where every bound and every sum is shifted or scaled alike. */
module Arithmetic {
  lemma ProductStep(k: int, d: int)
    ensures (k + 1) * d == k * d + d
  {
  }

  lemma Distribute(k: int, m: int, n: int)
    ensures k * (m + n) == k * m + k * n
  {
  }

  lemma Swap(a: int, b: int, c: int)
    ensures a * (b * c) == b * (a * c) == (a * b) * c
  {
  }

  lemma Positive(m: nat, n: nat)
    ensures m > 0 && n > 0 ==> m * n > 0
  {
  }

  lemma Monotone(k: nat, m: nat, d: nat)
    requires k <= m
    ensures k * d <= m * d && (k < m ==> k * d + d <= m * d)
  {
    var e := m - k;
    Distribute(d, k, e);
    if e > 0 {
      ProductStep(e - 1, d);
      NonNegative(e - 1, d);
    }
  }

  lemma NonNegative(m: nat, n: nat)
    ensures m * n >= 0
  {
  }

  lemma SmallMultiple(k: int, n: int)
    ensures n > 0 && -n < k * n < n ==> k == 0
  {
  }

  /** A quotient is known by its remainder. */
  lemma QuotientOf(s: nat, n: int, q: int, r: int)
    requires n > 0 && s == q * n + r && 0 <= r < n
    ensures s / n == q
  {
    var p := s / n;
    assert s == p * n + s % n;
    assert (p - q) * n == p * n - q * n;
    SmallMultiple(p - q, n);
  }

  lemma QuotientShift(s: nat, k: int, n: int)
    requires n > 0 && s + k * n >= 0
    ensures (s + k * n) / n == s / n + k
  {
    var q, r := s / n, s % n;
    assert (q + k) * n == q * n + k * n;
    QuotientOf(s + k * n, n, q + k, r);
  }

  lemma QuotientScale(s: nat, k: nat, n: int)
    requires k > 0 && n > 0
    ensures k * n > 0 && (k * s) / (k * n) == s / n
  {
    var q, r := s / n, s % n;
    Positive(k, n);
    Distribute(k, q * n, r);
    Swap(k, q, n);
    Distribute(k, n - r, r);
    Positive(k, n - r);
    QuotientOf(k * s, k * n, q, k * r);
  }

  /** Scaling both sides of a rectangle scales its area twice. */
  lemma AreaScale(k: int, a: int, b: int, c: int, d: int)
    ensures (k * b - k * a) * (k * d - k * c) == k * (k * ((b - a) * (d - c)))
  {
    var m, n := b - a, d - c;
    Distribute(k, m, a);
    Distribute(k, n, c);
    Swap(k * m, k, n);
    Swap(k, m, n);
  }

  lemma QuotientScaleTwice(s: nat, k: nat, n: int)
    requires k > 0 && n > 0
    ensures k * (k * n) > 0 && (k * (k * s)) / (k * (k * n)) == s / n
  {
    QuotientScale(s, k, n);
    QuotientScale(k * s, k, k * n);
  }

  lemma QuotientBound(s: nat, n: int)
    ensures s <= 255 * n ==> (n > 0 ==> 0 <= s / n < 256)
  {
  }
}
