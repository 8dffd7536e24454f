/** The few facts about real products and quotients that the solver needs spelled out. */
module RealArithmetic {

  lemma ProductPositive(a: real, b: real, c: real)
    requires a > 0.0 && b > 0.0 && c == a * b
    ensures c > 0.0
  {
  }

  lemma DivisionUndone(p: real, d: real)
    requires d != 0.0
    ensures p / d * d == p
  {
  }

  lemma Cancel(h: real, x: real, y: real)
    requires h != 0.0 && h * x == h * y
    ensures x == y
  {
    assert h * (x - y) == 0.0;
  }

  lemma NonZeroProduct(a: real, b: real, c: real)
    requires a != 0.0 && b != 0.0 && c == a * b
    ensures c != 0.0
  {
    if c == 0.0 {
      Cancel(a, b, 0.0);
    }
  }

  lemma QuotientIs(p: real, d: real, x: real)
    requires d != 0.0
    ensures x == p / d <==> x * d == p
  {
    DivisionUndone(p, d);
    if x * d == p {
      Cancel(d, x, p / d);
    }
  }
}
