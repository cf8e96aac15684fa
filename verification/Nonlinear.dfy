/** The few facts of non-linear integer arithmetic that the index computations need. */
module Nonlinear {

  lemma MulMono(a: int, b: int, c: int)
    requires a <= b && c >= 0
    ensures a * c <= b * c
  {
  }

  lemma MulAssoc(a: int, b: int, c: int)
    ensures a * b * c == a * (b * c)
  {
  }

  lemma MulDist(a: int, b: int, c: int)
    ensures (a + b) * c == a * c + b * c
  {
  }

  /** The a-th of b stretches of length c ends within them. */
  lemma MulBelow(a: int, b: int, c: int)
    requires 0 <= a < b && c >= 0
    ensures 0 <= a * c && a * c + c <= b * c
  {
    MulMono(0, a, c);
    MulMono(a + 1, b, c);
    MulDist(a, 1, c);
  }

  /** Two multiples of d that differ by less than d are the same multiple. */
  lemma CloseMultiples(a: int, b: int, d: int)
    requires d > 0 && -d < a * d - b * d < d
    ensures a == b
  {
    if a < b {
      MulMono(a + 1, b, d);
      MulDist(a, 1, d);
    } else if b < a {
      MulMono(b + 1, a, d);
      MulDist(b, 1, d);
    }
  }

  /** Euclid's division is unique: a quotient and a remainder that fit are the quotient and the remainder. */
  lemma DivModUnique(x: int, d: int, q: int, r: int)
    requires d > 0 && 0 <= r < d && x == q * d + r
    ensures x / d == q && x % d == r
  {
    var a, b := x / d, x % d;
    assert x == a * d + b && 0 <= b < d;
    CloseMultiples(a, q, d);
  }

  /** Dividing by a product is dividing twice, and the remainder of the product holds both remainders. */
  lemma DivModProduct(x: int, a: int, b: int)
    requires a > 0 && b > 0
    ensures a * b > 0
    ensures x / (a * b) == x / a / b
    ensures x % (a * b) == (x / a % b) * a + x % a
  {
    var q, r := x / a, x % a;
    var u, v := q / b, q % b;
    calc {
      q * a;
      { assert q == u * b + v; MulDist(u * b, v, a); }
      u * b * a + v * a;
      { MulAssoc(u, b, a); }
      u * (a * b) + v * a;
    }
    MulMono(v, b - 1, a);
    MulDist(b, -1, a);
    MulMono(0, v, a);
    DivModUnique(x, a * b, u, v * a + r);
  }

  /** A non-negative number below d * p has a quotient by d below p. */
  lemma DivBound(x: int, d: int, p: int)
    requires d > 0 && 0 <= x < d * p
    ensures 0 <= x / d < p
  {
    var q := x / d;
    assert x == q * d + x % d;
    if q >= p {
      MulMono(p, q, d);
      assert false;
    }
  }
}
