/** Quotients and remainders of sums. */
module Division {

  lemma AtLeastOnce(a: int, d: int)
    requires a >= 1 && d >= 1
    ensures a * d >= d
  {
  }

  lemma NoSmallMultiple(a: int, d: int, r: int, b: int)
    requires a * d == r - b && 0 <= b < d && 0 <= r < d
    ensures a == 0
  {
    if a >= 1 {
      AtLeastOnce(a, d);
    }
    if a <= -1 {
      AtLeastOnce(-a, d);
    }
  }

  lemma DivUnique(x: int, d: int, q: int, b: int)
    requires x == q * d + b && 0 <= b < d
    ensures x / d == q && x % d == b
  {
    var k, r := x / d, x % d;
    assert x == k * d + r;
    assert (q - k) * d == q * d - k * d;
    NoSmallMultiple(q - k, d, r, b);
  }

  lemma ModOf(q: int, b: int, d: int)
    requires 0 <= b < d
    ensures (q * d + b) % d == b
  {
    DivUnique(q * d + b, d, q, b);
  }
}
