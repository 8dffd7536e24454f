/** Arithmetic that carries a directional derivative along with each value. Running a program on dual numbers is the
    reference definition of its derivative: every rule below is a rule of calculus for one operation. */
module DualNumbers {
  import opened RealArithmetic
  import opened FiniteSums

  /** The transcendental functions the networks use, known only by the facts stated in Valid. */
  datatype Elementary = Elementary(exp: real -> real, sqrt: real -> real) {
    ghost predicate Valid() {
      && (forall x :: exp(x) > 0.0)
      && (forall x :: x > 0.0 ==> sqrt(x) > 0.0)
    }

    /** sqrt is the square root. Only the check of its dual rule below needs this. */
    ghost predicate TakesRoots() {
      forall x {:trigger sqrt(x)} :: x > 0.0 ==> sqrt(x) * sqrt(x) == x
    }
  }

  datatype Dual = Dual(v: real, d: real)

  function Const(c: real): Dual { Dual(c, 0.0) }

  function Add(a: Dual, b: Dual): Dual { Dual(a.v + b.v, a.d + b.d) }

  function Sub(a: Dual, b: Dual): Dual { Dual(a.v - b.v, a.d - b.d) }

  function Mul(a: Dual, b: Dual): Dual { Dual(a.v * b.v, a.d * b.v + a.v * b.d) }

  function Neg(a: Dual): Dual { Dual(-a.v, -a.d) }

  function Div(a: Dual, b: Dual): Dual
    requires b.v != 0.0
  {
    NonZeroProduct(b.v, b.v, b.v * b.v);
    Dual(a.v / b.v, (a.d * b.v - a.v * b.d) / (b.v * b.v))
  }

  /** Division by a constant. */
  function Over(a: Dual, c: real): Dual
    requires c != 0.0
  {
    Dual(a.v / c, a.d / c)
  }

  function Exp(m: Elementary, a: Dual): Dual { Dual(m.exp(a.v), m.exp(a.v) * a.d) }

  function Sqrt(m: Elementary, a: Dual): Dual
    requires m.sqrt(a.v) != 0.0
  {
    Dual(m.sqrt(a.v), a.d / (2.0 * m.sqrt(a.v)))
  }

  /** The rule for Sqrt is forced: no other dual number with a positive value squares to a. */
  lemma SqrtRule(m: Elementary, a: Dual, s: Dual)
    requires m.Valid() && m.TakesRoots() && a.v > 0.0
    ensures s.v > 0.0 && Mul(s, s) == a <==> s == Sqrt(m, a)
  {
    var root := Sqrt(m, a);
    DivisionUndone(a.d, 2.0 * root.v);
    Twice(root.v, root.d);
    if s.v > 0.0 && Mul(s, s) == a {
      EqualSquares(s.v, root.v);
      Twice(s.v, s.d);
      Cancel(2.0 * s.v, s.d, root.d);
    }
  }

  lemma Twice(v: real, d: real)
    ensures d * v + v * d == d * (2.0 * v) == 2.0 * v * d
  {
  }

  lemma EqualSquares(x: real, y: real)
    requires x > 0.0 && y > 0.0 && x * x == y * y
    ensures x == y
  {
    assert (x + y) * (x - y) == 0.0;
    Cancel(x + y, x - y, 0.0);
  }

  /** The rule for Div is forced: no other dual number times b is a. */
  lemma DivRule(a: Dual, b: Dual, q: Dual)
    requires b.v != 0.0
    ensures Mul(q, b) == a <==> q == Div(a, b)
  {
    NonZeroProduct(b.v, b.v, b.v * b.v);
    QuotientIs(a.v, b.v, q.v);
    QuotientIs(a.d * b.v - a.v * b.d, b.v * b.v, q.d);
    if q.v * b.v == a.v {
      Regroup(q.v, q.d, b.v, b.d, a.v, a.d);
      if q.d * (b.v * b.v) == a.d * b.v - a.v * b.d {
        Cancel(b.v, q.d * b.v + q.v * b.d, a.d);
      }
    }
  }

  lemma Regroup(v: real, d: real, bv: real, bd: real, av: real, ad: real)
    requires v * bv == av
    ensures bv * (d * bv + v * bd) == d * (bv * bv) + av * bd
    ensures d * bv + v * bd == ad ==> d * (bv * bv) == ad * bv - av * bd
    ensures d * (bv * bv) == ad * bv - av * bd ==> bv * (d * bv + v * bd) == bv * ad
  {
    assert bv * (d * bv) == d * (bv * bv);
    assert bv * (v * bd) == av * bd;
  }

  ghost function DualSum(n: nat, f: int -> Dual): Dual {
    if n == 0 then Const(0.0) else Add(DualSum(n - 1, f), f(n - 1))
  }

  lemma {:induction false} DualSumParts(n: nat, f: int -> Dual, v: int -> real, d: int -> real)
    requires forall i :: 0 <= i < n ==> f(i) == Dual(v(i), d(i))
    ensures DualSum(n, f) == Dual(Sum(n, v), Sum(n, d))
  {
    if n == 0 {
    } else {
      DualSumParts(n - 1, f, v, d);
    }
  }

  function Values(x: seq<Dual>): (r: seq<real>)
    ensures |r| == |x|
  {
    seq(|x|, i requires 0 <= i < |x| => x[i].v)
  }

  function Tangents(x: seq<Dual>): (r: seq<real>)
    ensures |r| == |x|
  {
    seq(|x|, i requires 0 <= i < |x| => x[i].d)
  }

  function Zip(v: seq<real>, d: seq<real>): (r: seq<Dual>)
    requires |v| == |d|
    ensures |r| == |v|
  {
    seq(|v|, i requires 0 <= i < |v| => Dual(v[i], d[i]))
  }

  // ---------------------------------------------------------------- SiLU

  /** x / (1 + exp(-x)) */
  function Silu(m: Elementary, x: real): real
    requires m.exp(-x) > 0.0
  {
    x / (1.0 + m.exp(-x))
  }

  /** The slope formula of the source: s + x*s*(1-s) with s the logistic function. */
  function SiluDerivative(m: Elementary, x: real): real
    requires m.exp(-x) > 0.0
  {
    var sigmoid := 1.0 / (1.0 + m.exp(-x));
    sigmoid + x * sigmoid * (1.0 - sigmoid)
  }

  /** SiLU run on dual numbers. */
  function DualSilu(m: Elementary, a: Dual): Dual
    requires m.exp(-a.v) > 0.0
  {
    Div(a, Add(Const(1.0), Exp(m, Neg(a))))
  }

  /** The source's slope formula is the derivative of SiLU. */
  lemma SiluSlope(m: Elementary, a: Dual)
    requires m.Valid()
    ensures DualSilu(m, a) == Dual(Silu(m, a.v), SiluDerivative(m, a.v) * a.d)
  {
    var x, e := a.v, m.exp(-a.v);
    var q := 1.0 + e;
    var s := 1.0 / q;
    DivisionUndone(1.0, q);
    SiluScalars(x, a.d, e, q, s);
    NonZeroProduct(q, q, q * q);
    QuotientIs(a.d * q - x * (e * -a.d), q * q, SiluDerivative(m, x) * a.d);
    assert a.d * q - x * (0.0 + e * -a.d) == a.d * q - x * (e * -a.d);
  }

  lemma SiluScalars(x: real, d: real, e: real, q: real, s: real)
    requires q == 1.0 + e && s * q == 1.0
    ensures (s + x * s * (1.0 - s)) * d * (q * q) == d * q - x * (e * -d)
  {
    assert (1.0 - s) * q == e;
    assert (s + x * s * (1.0 - s)) * (q * q) == (s * q) * q + x * (s * q) * ((1.0 - s) * q);
  }
}
