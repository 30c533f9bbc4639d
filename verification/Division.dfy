/** Quotient and remainder are unique. */
module Division {

  lemma Distributes(p: int, q: int, n: int)
    ensures (p - q) * n == p * n - q * n
  {
  }

  lemma GrowsFrom(d: int, n: int)
    requires d >= 1 && n > 0
    ensures d * n >= n
  {
  }

  /** The only multiple of n between -n and n is zero. */
  lemma SmallMultiple(d: int, n: int)
    requires n > 0 && -n < d * n < n
    ensures d == 0
  {
    if d >= 1 {
      GrowsFrom(d, n);
    } else if d <= -1 {
      GrowsFrom(-d, n);
    }
  }

  lemma DivisionIsUnique(x: int, q: int, r: int, n: int)
    requires n > 0 && 0 <= r < n && x == q * n + r
    ensures x / n == q && x % n == r
  {
    Distributes(x / n, q, n);
    SmallMultiple(x / n - q, n);
  }
}
