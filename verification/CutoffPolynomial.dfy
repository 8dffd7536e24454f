/** The polynomial cutoff of the radial basis (libsymmetrix/source/compact_radial.cpp:249-256). */
module CutoffPolynomial {
  import opened RealArithmetic

  function Power(x: real, n: nat): real {
    if n == 0 then 1.0 else x * Power(x, n - 1)
  }

  /** The source's expression, in its own order; q is the exponent as a double. */
  function Polynomial(q: real, xp: real, xp1: real, xp2: real): real {
    1.0 - (q + 1.0) * (q + 2.0) / 2.0 * xp + q * (q + 2.0) * xp1 - q * (q + 1.0) / 2.0 * xp2
  }

  function CutoffPolynomialAt(p: nat, x: real): real {
    Polynomial(p as real, Power(x, p), Power(x, p + 1), Power(x, p + 2))
  }

  /** The factor a radial basis function is multiplied by at distance r. */
  function CutoffValue(rMax: real, p: nat, r: real): real
    requires rMax > 0.0
  {
    if r < rMax then CutoffPolynomialAt(p, r / rMax) else 0.0
  }

  function Cubed(x: real): real { x * x * x }

  /** (k+1)(k+2)/2 x^k */
  function Term(x: real, k: nat): real {
    Triangular(k) * Power(x, k)
  }

  function Triangular(k: nat): real {
    (k as real + 1.0) * (k as real + 2.0) / 2.0
  }

  /** The sum of the first p terms: the cofactor of (1-x)^3. */
  function Cofactor(x: real, p: nat): real {
    if p == 0 then 0.0 else Cofactor(x, p - 1) + Term(x, p - 1)
  }

  lemma PowersUnroll(x: real, p: nat)
    ensures Power(x, p + 1) == x * Power(x, p)
    ensures Power(x, p + 2) == x * Power(x, p + 1)
  {
  }

  /** From one exponent to the next, for four successive powers of x and the two triples of factors. */
  lemma StepScalars(x: real, a: real, b: real, c: real, d: real, k: real, e: real, f: real, k': real, e': real,
                    f': real)
    requires b == x * a && c == x * b && d == x * c
    requires k' + e == 3.0 * k && e' + f == 3.0 * k && f' == k
    ensures (1.0 - k' * b + e' * c - f' * d) - (1.0 - k * a + e * b - f * c) == Cubed(1.0 - x) * (k * a)
  {
    CubeTimes(x, k, a, b, c, d);
    Collect(k, k', e, b);
    Collect(k, e', f, c);
  }

  lemma CubeTimes(x: real, k: real, a: real, b: real, c: real, d: real)
    requires b == x * a && c == x * b && d == x * c
    ensures Cubed(1.0 - x) * (k * a) == k * a - 3.0 * (k * b) + 3.0 * (k * c) - k * d
  {
    assert Cubed(1.0 - x) == 1.0 - 3.0 * x + 3.0 * (x * x) - x * x * x;
    assert x * (k * a) == k * b;
    assert x * x * (k * a) == k * c;
    assert x * x * x * (k * a) == k * d;
  }

  /** The factors of the two middle powers each add up to three triangular numbers. */
  lemma Coefficients(q: real, q': real)
    requires q' == q + 1.0
    ensures (q' + 1.0) * (q' + 2.0) / 2.0 + q * (q + 2.0) == 3.0 * ((q + 1.0) * (q + 2.0) / 2.0)
    ensures q' * (q' + 2.0) + q * (q + 1.0) / 2.0 == 3.0 * ((q + 1.0) * (q + 2.0) / 2.0)
    ensures q' * (q' + 1.0) / 2.0 == (q + 1.0) * (q + 2.0) / 2.0
  {
  }

  lemma Collect(k: real, u: real, v: real, b: real)
    requires u + v == 3.0 * k
    ensures u * b + v * b == 3.0 * (k * b)
  {
  }

  /** One more exponent adds one more term. */
  lemma OneMoreTerm(p: nat, x: real)
    ensures CutoffPolynomialAt(p + 1, x) == CutoffPolynomialAt(p, x) + Cubed(1.0 - x) * Term(x, p)
  {
    PowersUnroll(x, p);
    PowersUnroll(x, p + 1);
    var q, q' := p as real, (p + 1) as real;
    Coefficients(q, q');
    StepScalars(x, Power(x, p), Power(x, p + 1), Power(x, p + 2), Power(x, p + 3),
                (q + 1.0) * (q + 2.0) / 2.0, q * (q + 2.0), q * (q + 1.0) / 2.0,
                (q' + 1.0) * (q' + 2.0) / 2.0, q' * (q' + 2.0), q' * (q' + 1.0) / 2.0);
  }

  /** The cutoff polynomial is (1-x)^3 times a sum of positive terms, for every exponent and every x. */
  lemma {:induction false} Factors(p: nat, x: real)
    ensures CutoffPolynomialAt(p, x) == Cubed(1.0 - x) * Cofactor(x, p)
  {
    if p == 0 {
      assert CutoffPolynomialAt(0, x) == 0.0;
    } else {
      Factors(p - 1, x);
      OneMoreTerm(p - 1, x);
      Distributes(Cubed(1.0 - x), Cofactor(x, p - 1), Term(x, p - 1));
    }
  }

  lemma Distributes(a: real, b: real, c: real)
    ensures a * b + a * c == a * (b + c)
  {
  }

  // ---------------------------------------------------------------- range

  lemma {:induction false} PowerInRange(x: real, n: nat)
    requires 0.0 <= x <= 1.0
    ensures 0.0 <= Power(x, n) <= 1.0
  {
    if n == 0 {
    } else {
      PowerInRange(x, n - 1);
      ProductInRange(x, Power(x, n - 1));
    }
  }

  lemma ProductInRange(a: real, b: real)
    requires 0.0 <= a <= 1.0 && 0.0 <= b <= 1.0
    ensures 0.0 <= a * b <= 1.0
  {
    Distributes(b, a, 1.0 - a);
    NonNegative(b, a);
    NonNegative(b, 1.0 - a);
  }

  lemma NonNegative(a: real, b: real)
    requires a >= 0.0 && b >= 0.0
    ensures a * b >= 0.0
  {
  }

  /** Triangular numbers up to p: the cofactor at 1. */
  function TetrahedralNumber(p: nat): real {
    if p == 0 then 0.0 else TetrahedralNumber(p - 1) + Triangular(p - 1)
  }

  /** On [0,1] the cofactor lies between 0 and its value at 1, the tetrahedral number. */
  lemma {:induction false} CofactorInRange(x: real, p: nat)
    requires 0.0 <= x <= 1.0
    ensures 0.0 <= Cofactor(x, p) <= TetrahedralNumber(p)
  {
    if p == 0 {
    } else {
      CofactorInRange(x, p - 1);
      TermInRange(x, p - 1);
    }
  }

  lemma TermInRange(x: real, k: nat)
    requires 0.0 <= x <= 1.0
    ensures 0.0 <= Term(x, k) <= Triangular(k)
  {
    PowerInRange(x, k);
    TriangularAtLeastOne(k);
    ScaledInRange(Triangular(k), Power(x, k));
  }

  lemma TriangularAtLeastOne(k: nat)
    ensures Triangular(k) >= 1.0
  {
    var q := k as real;
    assert (q + 1.0) * (q + 2.0) == q * q + 3.0 * q + 2.0;
    assert q * q >= 0.0;
  }

  lemma ScaledInRange(c: real, y: real)
    requires c >= 0.0 && 0.0 <= y <= 1.0
    ensures 0.0 <= c * y <= c
  {
    assert c * (1.0 - y) >= 0.0;
  }

  lemma CubeInRange(y: real)
    requires 0.0 <= y <= 1.0
    ensures 0.0 <= Cubed(y) <= 1.0
  {
    ProductInRange(y, y);
    ProductInRange(y * y, y);
  }

  /** What the polynomial lacks to 1 is x^p times a quadratic without real roots. */
  lemma Complement(q: real, x: real, a: real, b: real, c: real)
    requires q >= 1.0 && a >= 0.0 && b == x * a && c == x * b
    ensures Polynomial(q, a, b, c) <= 1.0
  {
    var quadratic := (q + 1.0) * (q + 2.0) / 2.0 - q * (q + 2.0) * x + q * (q + 1.0) / 2.0 * (x * x);
    QuadraticPositive(q, x, quadratic);
    QuadraticTimes((q + 1.0) * (q + 2.0) / 2.0, q * (q + 2.0), q * (q + 1.0) / 2.0, x, a, b, c);
    assert quadratic * a >= 0.0;
  }

  lemma QuadraticTimes(k0: real, k1: real, k2: real, x: real, a: real, b: real, c: real)
    requires b == x * a && c == x * b
    ensures (k0 - k1 * x + k2 * (x * x)) * a == k0 * a - k1 * b + k2 * c
  {
    assert k1 * x * a == k1 * b;
    assert k2 * (x * x) * a == k2 * c;
  }

  lemma SameSign(a: real, b: real)
    requires a > 0.0
    ensures a * b > 0.0 <==> b > 0.0
    ensures a * b >= 0.0 <==> b >= 0.0
  {
  }

  lemma QuadraticPositive(q: real, x: real, quadratic: real)
    requires q >= 1.0
    requires quadratic == (q + 1.0) * (q + 2.0) / 2.0 - q * (q + 2.0) * x + q * (q + 1.0) / 2.0 * (x * x)
    ensures quadratic > 0.0
  {
    var u := (q + 1.0) * x - (q + 2.0);
    assert u * u == (q + 1.0) * (q + 1.0) * (x * x) - 2.0 * ((q + 1.0) * (q + 2.0)) * x + (q + 2.0) * (q + 2.0);
    assert 2.0 * (q + 1.0) * quadratic == q * (u * u) + (q + 2.0);
    assert u * u >= 0.0;
    assert q * (u * u) >= 0.0;
    SameSign(2.0 * (q + 1.0), quadratic);
  }

  /** The polynomial vanishes to third order at 1, and to no higher order: it lies between (1-x)^3 and a constant
      times (1-x)^3. */
  lemma VanishesToThirdOrder(p: nat, x: real)
    requires p >= 1 && 0.0 <= x <= 1.0
    ensures Cubed(1.0 - x) <= CutoffPolynomialAt(p, x) <= TetrahedralNumber(p) * Cubed(1.0 - x)
  {
    Factors(p, x);
    CofactorInRange(x, p);
    CofactorAtLeastOne(x, p);
    CubeInRange(1.0 - x);
    var c := Cubed(1.0 - x);
    ProductBounds(c, Cofactor(x, p), TetrahedralNumber(p));
  }

  lemma AtMostOne(p: nat, x: real)
    requires p >= 1 && 0.0 <= x <= 1.0
    ensures CutoffPolynomialAt(p, x) <= 1.0
  {
    PowerInRange(x, p);
    PowersUnroll(x, p);
    Complement(p as real, x, Power(x, p), Power(x, p + 1), Power(x, p + 2));
  }

  /** On [0,1] the polynomial never leaves [0,1], starts at 1 and reaches 0 at 1 only. */
  lemma PolynomialInRange(p: nat, x: real)
    requires p >= 1 && 0.0 <= x <= 1.0
    ensures 0.0 <= CutoffPolynomialAt(p, x) <= 1.0
    ensures x == 0.0 ==> CutoffPolynomialAt(p, x) == 1.0
    ensures CutoffPolynomialAt(p, x) == 0.0 <==> x == 1.0
  {
    AtMostOne(p, x);
    VanishesToThirdOrder(p, x);
    CubeInRange(1.0 - x);
    CubeVanishes(1.0 - x);
    if x == 0.0 {
      PowersOfZero(p);
    }
  }

  lemma ProductBounds(c: real, s: real, t: real)
    requires c >= 0.0 && 1.0 <= s <= t
    ensures c <= c * s <= t * c
  {
    assert c * (t - s) >= 0.0 && c * (s - 1.0) >= 0.0;
  }

  lemma CubeVanishes(y: real)
    requires y >= 0.0
    ensures Cubed(y) == 0.0 <==> y == 0.0
  {
    if y > 0.0 {
      ProductPositive(y, y, y * y);
      ProductPositive(y * y, y, Cubed(y));
    }
  }

  lemma PowersOfZero(p: nat)
    requires p >= 1
    ensures Power(0.0, p) == Power(0.0, p + 1) == Power(0.0, p + 2) == 0.0
  {
  }

  lemma {:induction false} CofactorAtLeastOne(x: real, p: nat)
    requires p >= 1 && 0.0 <= x <= 1.0
    ensures Cofactor(x, p) >= 1.0
  {
    if p == 1 {
      assert Cofactor(x, 1) == Term(x, 0) == 1.0;
    } else {
      CofactorAtLeastOne(x, p - 1);
      PowerInRange(x, p - 1);
      TriangularAtLeastOne(p - 1);
      ScaledInRange(Triangular(p - 1), Power(x, p - 1));
    }
  }

  /** The factor used by radial_features, at every distance the grid can hold. */
  lemma CutoffValueInRange(rMax: real, p: nat, r: real)
    requires rMax > 0.0 && p >= 1 && r >= 0.0
    ensures 0.0 <= CutoffValue(rMax, p, r) <= 1.0
    ensures CutoffValue(rMax, p, r) == 0.0 <==> r >= rMax
  {
    if r < rMax {
      var x := r / rMax;
      DivisionUndone(r, rMax);
      RatioInRange(x, r, rMax);
      PolynomialInRange(p, x);
    }
  }

  lemma RatioInRange(x: real, r: real, rMax: real)
    requires rMax > 0.0 && 0.0 <= r < rMax && x * rMax == r
    ensures 0.0 <= x < 1.0
  {
    SameSign(rMax, x);
    SameSign(rMax, 1.0 - x);
  }
}
