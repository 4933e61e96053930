/**
  Laws of products and remainders.  They name the sums they speak of: a product of variables
  costs the solver far less than a product of expressions.
 */
module Arithmetic {

  lemma Distribute(s: int, a: int, b: int, c: int)
    requires s == a + b
    ensures s * c == a * c + b * c
  {
  }

  lemma Monotone(a: int, b: int, c: int)
    requires a <= b && c >= 0
    ensures a * c <= b * c
  {
  }

  /** Quotient and remainder are unique. */
  lemma DivideBy(x: int, d: int, q: int, r: int)
    requires 0 <= r < d && x == q * d + r
    ensures x / d == q && x % d == r
  {
    var q', r' := x / d, x % d;
    assert x == q' * d + r';
    var e := q - q';
    Distribute(q, q', e, d);
    assert e * d == r' - r;
    if e > 0 {
      Monotone(1, e, d);
    } else if e < 0 {
      Monotone(e, -1, d);
    }
  }
}
