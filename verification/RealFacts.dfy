/**
 Order facts about products and quotients of reals, stated one at a time so that nonlinear
 reasoning stays local.
 */
module RealFacts {

  lemma MulNonNegative(a: real, b: real)
    requires 0.0 <= a && 0.0 <= b
    ensures 0.0 <= a * b
  {
  }

  lemma MulPositive(a: real, b: real)
    requires 0.0 < a && 0.0 < b
    ensures 0.0 < a * b
  {
  }

  lemma MulMonotone(a: real, x: real, y: real)
    requires 0.0 <= a && x <= y
    ensures a * x <= a * y
  {
    MulNonNegative(a, y - x);
    assert a * (y - x) == a * y - a * x;
  }

  lemma MulAssociative(a: real, b: real, c: real)
    ensures a * b * c == a * (b * c)
  {
  }

  lemma MulDistributes(a: real, b: real, c: real)
    ensures a * (b + c) == a * b + a * c
  {
  }

  lemma ScaledTerm(b: real, sum: real, w: real, h: real)
    ensures b * sum + b * w * h == b * (sum + w * h)
  {
    MulAssociative(b, w, h);
    MulDistributes(b, sum, w * h);
  }

  lemma InverseOf(x: real)
    requires 0.0 < x
    ensures (1.0 / x) * x == 1.0 && 1.0 / x > 0.0
  {
  }

  lemma InverseAntitone(x: real, y: real)
    requires 0.0 < x <= y
    ensures 0.0 < 1.0 / y <= 1.0 / x
  {
    InverseOf(x);
    InverseOf(y);
    var u, v := 1.0 / x, 1.0 / y;
    MulMonotone(v, x, y);
    assert (v - u) * x == v * x - u * x;
    if v - u > 0.0 {
      MulPositive(v - u, x);
    }
  }

  /** A positive factor does not change an order. */
  lemma Cancel(a: real, b: real, d: real)
    requires 0.0 < d
    ensures a >= b <==> a * d >= b * d
  {
    if a >= b {
      MulMonotone(d, b, a);
    } else {
      MulPositive(d, b - a);
      assert (b - a) * d == b * d - a * d;
    }
  }

  lemma QuotientAtLeast(a: real, d: real, b: real)
    requires 0.0 < d
    ensures a * (1.0 / d) >= b <==> a >= b * d
  {
    InverseOf(d);
    Cancel(a * (1.0 / d), b, d);
    assert a * (1.0 / d) * d == a * ((1.0 / d) * d);
  }

  lemma QuotientAbove(a: real, d: real, b: real)
    requires 0.0 < d
    ensures a * (1.0 / d) > b <==> a > b * d
  {
    InverseOf(d);
    Cancel(b, a * (1.0 / d), d);
    assert a * (1.0 / d) * d == a * ((1.0 / d) * d);
  }

  lemma InverseBelowOne(d: real)
    requires 0.0 < d
    ensures 1.0 / d < 1.0 <==> d > 1.0
  {
    QuotientAtLeast(1.0, d, 1.0);
  }

  lemma GainAtLeastOne(y: real, h: real)
    requires 0.0 < h
    ensures y * (1.0 + 1.0 / h) >= 1.0 <==> y * (h + 1.0) >= h
  {
    InverseOf(h);
    Cancel(y * (1.0 + 1.0 / h), 1.0, h);
    assert y * (1.0 + 1.0 / h) * h == y * (h + (1.0 / h) * h);
  }

  lemma GainAbove(y: real, h: real, b: real)
    requires 0.0 < h
    ensures y * (1.0 + 1.0 / h) > b <==> y * (h + 1.0) > b * h
  {
    InverseOf(h);
    Cancel(b, y * (1.0 + 1.0 / h), h);
    assert y * (1.0 + 1.0 / h) * h == y * (h + (1.0 / h) * h);
  }

  /** A product as an opaque term for the solver; positive on positive factors. */
  function Product(a: real, b: real): (r: real)
    ensures 0.0 < a && 0.0 < b ==> 0.0 < r
  {
    a * b
  }

  /** The square, taken of the absolute value. */
  function Square(x: real): (r: real)
    ensures x != 0.0 ==> r > 0.0
  {
    if x < 0.0 then Product(-x, -x) else Product(x, x)
  }

  lemma ProductMonotone(a: real, x: real, y: real)
    requires 0.0 <= a && x <= y
    ensures Product(a, x) <= Product(a, y)
    ensures Product(x, a) <= Product(y, a)
  {
    MulMonotone(a, x, y);
    assert x * a == a * x && y * a == a * y;
  }

  lemma SquareMonotone(x: real, y: real)
    requires 0.0 < x <= y
    ensures 0.0 < Square(x) <= Square(y)
  {
    ProductMonotone(x, x, y);
    ProductMonotone(y, x, y);
  }
}
