/** Quotients and remainders. */
module Division {

  /** What a number's quotient and remainder are. */
  lemma QuotientIs(x: int, n: int, q: int, r: int)
    requires n > 0 && x == q * n + r && 0 <= r < n
    ensures x / n == q && x % n == r
  {
    var k := x / n - q;
    assert k * n == r - x % n;
    if k > 0 {
      Larger(k, n);
    } else if k < 0 {
      Larger(-k, n);
    }
  }

  lemma RemainderIs(x: int, n: int, q: int, r: int)
    requires n > 0 && x == q * n + r && 0 <= r < n
    ensures x % n == r
  {
    QuotientIs(x, n, q, r);
  }

  lemma Larger(k: int, n: int)
    requires k >= 1 && n >= 0
    ensures k * n >= n
  {
  }
}
