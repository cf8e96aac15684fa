/** Element-wise products and quotients of spectra, as the correlation filter takes them. */
module ComplexDivision {
  import opened Twiddles

  predicate Zero(b: Complex) {
    b.re == 0.0 && b.im == 0.0
  }

  lemma SameSigns(a: real, b: real, c: real)
    requires c == a * b && ((a > 0.0 && b > 0.0) || (a < 0.0 && b < 0.0))
    ensures c > 0.0
  {
  }

  function Square(x: real): (y: real)
    ensures y >= 0.0 && (y == 0.0 <==> x == 0.0)
  {
    if x == 0.0 then 0.0 else (SameSigns(x, x, x * x); x * x)
  }

  function Norm(b: Complex): (n: real)
    ensures n > 0.0 <==> !Zero(b)
  {
    Square(b.re) + Square(b.im)
  }

  /** One element of complexDivision. The imaginary part adds the cross terms where a quotient subtracts them. */
  function Quotient(a: Complex, b: Complex): Complex
    requires !Zero(b)
  {
    var divisor := 1.0 / Norm(b);
    Complex((a.re * b.re + a.im * b.im) * divisor, (a.im * b.re + a.re * b.im) * divisor)
  }

  lemma Scaled(x: real, n: real, y: real)
    requires n > 0.0
    ensures x * (1.0 / n) == y <==> x == y * n
  {
    var d := 1.0 / n;
    assert d * n == 1.0;
    Regroup(x, d, n);
    Regroup(y, n, d);
  }

  lemma Regroup(x: real, d: real, n: real)
    requires d * n == 1.0
    ensures x * d * n == x
  {
    assert x * d * n == x * (d * n);
  }

  lemma RealPart(a: Complex, b: Complex)
    ensures Mul(a, b).re * b.re + Mul(a, b).im * b.im == a.re * Norm(b)
  {
  }

  lemma ImaginaryPart(a: Complex, b: Complex)
    ensures Mul(a, b).im * b.re + Mul(a, b).re * b.im
            == a.im * Norm(b) + 2.0 * (Mul(a, b).re * b.im)
  {
  }

  /** Dividing a product by one of its factors gives the other if and only if the divisor is real or the product is
      imaginary; the real part is right in any case. */
  lemma DivisionUndoesIff(a: Complex, b: Complex)
    requires !Zero(b)
    ensures Quotient(Mul(a, b), b).re == a.re
    ensures Quotient(Mul(a, b), b) == a <==> b.im == 0.0 || Mul(a, b).re == 0.0
  {
    hide Mul, Norm;
    RealPart(a, b);
    ImaginaryPart(a, b);
    var c, n := Mul(a, b), Norm(b);
    Scaled(c.re * b.re + c.im * b.im, n, a.re);
    Scaled(c.im * b.re + c.re * b.im, n, a.im);
    ProductZero(c.re, b.im);
  }

  lemma ProductZero(x: real, y: real)
    ensures x * y == 0.0 <==> x == 0.0 || y == 0.0
  {
  }

  /** One, multiplied by 1 + i and divided by it again, is not one. */
  lemma DivisionFails()
    ensures var b := Complex(1.0, 1.0); !Zero(b) && Quotient(Mul(ONE, b), b) != ONE
  {
    hide Quotient;
    DivisionUndoesIff(ONE, Complex(1.0, 1.0));
  }
}
