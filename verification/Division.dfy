/** Uniqueness of quotient and remainder. */
module Division {

  lemma Distributes(a: int, b: int, c: int)
    ensures (a + b) * c == a * c + b * c
  {
  }

  lemma Associates(a: int, b: int, c: int)
    ensures a * b * c == a * (b * c)
  {
  }

  lemma MultipleGrows(a: int, b: int, c: int)
    requires a <= b && c >= 0
    ensures a * c <= b * c
  {
    Distributes(b - a, a, c);
    assert (b - a) * c >= 0;
  }

  lemma MultipleExceeds(k: int, d: int)
    requires k >= 1 && d > 0
    ensures k * d >= d
  {
  }

  /** Quotient and remainder are unique. */
  lemma QuotientsAgree(d: int, p: int, u: int, q: int, r: int)
    requires 0 <= u < d && 0 <= r < d && p * d + u == q * d + r
    ensures p == q && u == r
  {
    assert (p - q) * d == r - u && (q - p) * d == u - r;
    if p > q {
      MultipleExceeds(p - q, d);
    } else if p < q {
      MultipleExceeds(q - p, d);
    }
  }

  lemma QuotientIs(x: int, d: int, q: int, r: int)
    requires d > 0 && 0 <= r < d && x == q * d + r
    ensures x / d == q && x % d == r
  {
    QuotientsAgree(d, x / d, x % d, q, r);
  }
}
