/** Quotients and remainders, from the equation that determines them. */
module Division {

  lemma Product(a: int, b: int)
    requires a >= 0 && b >= 0
    ensures a * b >= 0
  {
  }

  lemma Euclid(n: int, d: int)
    requires d > 0
    ensures n == d * (n / d) + n % d && 0 <= n % d < d
  {
  }

  lemma QuotientSign(d: int, q: int, r: int)
    requires d > r && d > 0 && d * q + r >= 0
    ensures q >= 0
  {
    if q < 0 {
      Product(d, -q - 1);
    }
  }

  lemma SmallMultiple(d: int, k: int)
    requires d > 0 && -d < d * k < d
    ensures k == 0
  {
    QuotientSign(d, k, d - 1);
    QuotientSign(d, -k, d - 1);
  }

  lemma DivisionIs(n: int, d: int, q: int, r: int)
    requires 0 <= r < d && n == d * q + r
    ensures n / d == q && n % d == r
  {
    Euclid(n, d);
    var k := q - n / d;
    assert d * k == d * q - d * (n / d);
    SmallMultiple(d, k);
  }
}
