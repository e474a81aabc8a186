/** The few facts about products of reals that the statistics modules need. */
module RealArithmetic {

  lemma MulNonNegative(a: real, b: real)
    requires a >= 0.0 && b >= 0.0
    ensures a * b >= 0.0
  {
  }

  lemma MulPositive(a: real, b: real)
    requires a > 0.0 && b > 0.0
    ensures a * b > 0.0
  {
  }

  lemma PositiveProduct(a: real, b: real) returns (product: real)
    requires a > 0.0 && b > 0.0
    ensures product == a * b && product > 0.0
  {
    product := a * b;
  }

  /** The square is named because the solver loses the sign of a literal `a * a`. */
  lemma SquarePositive(a: real) returns (square: real)
    requires a > 0.0
    ensures square == a * a && square > 0.0
  {
    square := PositiveProduct(a, a);
  }

  lemma SquareOrder(a: real, b: real)
    requires 0.0 <= a < b
    ensures a * a < b * b
  {
    assert b * b - a * a == (b - a) * (b + a);
    MulPositive(b - a, b + a);
  }

  lemma MulOrder(a: real, b: real, c: real)
    requires a < b && c > 0.0
    ensures a * c < b * c && c * a < c * b
  {
  }

  lemma DivTimes(a: real, b: real)
    requires b != 0.0
    ensures a / b * b == a
  {
  }

  lemma DivOrder(a: real, b: real, c: real)
    requires a < b && c > 0.0
    ensures a / c < b / c
  {
  }

  lemma DivWeakOrder(a: real, b: real, c: real)
    requires a <= b && c > 0.0
    ensures a / c <= b / c
  {
  }

  lemma FractionScaled(a: real, b: real, x: real)
    requires b > 0.0 && x > 0.0
    ensures b * x > 0.0 && a / b == a * x / (b * x)
  {
    MulPositive(b, x);
    var q := a / b;
    assert q * b == a;
    assert q * (b * x) == (q * b) * x == a * x;
  }
}
