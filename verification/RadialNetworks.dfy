/** The radial networks (libsymmetrix/source/compact_radial.cpp:493-596): bias-free layers with a scaled SiLU between
    them, the derivative of the network with respect to its weights, and the reverse pass that computes it. */
module RadialNetworks {
  import opened RealArithmetic
  import opened FiniteSums
  import opened FlatIndex
  import opened DualNumbers

  /** A scalar function, its slope, and the same function as a program on dual numbers. */
  datatype Activation = Activation(value: real -> real, slope: real -> real, dual: Dual -> Dual) {
    /** The slope is the derivative. */
    ghost predicate Derived() {
      forall a: Dual :: DerivedAt(a)
    }

    ghost predicate DerivedAt(a: Dual) {
      dual(a) == Sloped(value(a.v), slope(a.v), a.d)
    }
  }

  /** Value y and tangent s*d. */
  function Sloped(y: real, s: real, d: real): Dual {
    Dual(y, s * d)
  }

  function Linear(): Activation {
    Activation(z => z, _ => 1.0, a => a)
  }

  lemma LinearDerived()
    ensures Linear().Derived()
  {
    forall a: Dual ensures Linear().DerivedAt(a) {
    }
  }

  /** scale * z / (1 + exp(-z)) */
  function ScaledSilu(m: Elementary, scale: real, z: real): real
    requires m.exp(-z) > 0.0
  {
    scale * z / (1.0 + m.exp(-z))
  }

  /** Its slope, as the source computes it. */
  function ScaledSiluSlope(m: Elementary, scale: real, z: real): real
    requires m.exp(-z) > 0.0
  {
    var sigmoid := 1.0 / (1.0 + m.exp(-z));
    scale * sigmoid * (1.0 + z * (1.0 - sigmoid))
  }

  ghost function ScaledSiluActivation(m: Elementary, scale: real): Activation
    requires m.Valid()
  {
    Activation(z => ScaledSilu(m, scale, z), z => ScaledSiluSlope(m, scale, z),
               a => DualScaledSilu(m, scale, a))
  }

  lemma ScaledSiluDerived(m: Elementary, scale: real)
    requires m.Valid()
    ensures ScaledSiluActivation(m, scale).Derived()
  {
    var act := ScaledSiluActivation(m, scale);
    forall a: Dual ensures act.DerivedAt(a) {
      ScaledSiluDual(m, scale, a);
    }
  }

  ghost function DualScaledSilu(m: Elementary, scale: real, a: Dual): Dual
    requires m.Valid()
  {
    Div(Mul(Const(scale), a), Add(Const(1.0), Exp(m, Neg(a))))
  }

  lemma ScaledSiluDual(m: Elementary, scale: real, a: Dual)
    requires m.Valid()
    ensures DualScaledSilu(m, scale, a) == Sloped(ScaledSilu(m, scale, a.v), ScaledSiluSlope(m, scale, a.v), a.d)
  {
    var e := m.exp(-a.v);
    var q := 1.0 + e;
    DivisionUndone(1.0, q);
    NonZeroProduct(q, q, q * q);
    ScaledSiluScalars(scale, a.v, a.d, e, q, 1.0 / q);
    QuotientIs((0.0 * a.v + scale * a.d) * q - scale * a.v * (0.0 + e * -a.d), q * q,
               ScaledSiluSlope(m, scale, a.v) * a.d);
  }

  lemma ScaledSiluScalars(c: real, x: real, d: real, e: real, q: real, s: real)
    requires q == 1.0 + e && s * q == 1.0
    ensures c * s * (1.0 + x * (1.0 - s)) * d * (q * q) == (0.0 * x + c * d) * q - c * x * (0.0 + e * -d)
  {
    assert (1.0 - s) * q == e;
    assert s * (1.0 + x * (1.0 - s)) * (q * q) == (s * q) * (q + x * ((1.0 - s) * q));
    assert c * s * (1.0 + x * (1.0 - s)) * d * (q * q) == c * d * (s * (1.0 + x * (1.0 - s)) * (q * q));
    assert c * d * (q + x * e) == (0.0 * x + c * d) * q - c * x * (0.0 + e * -d);
  }

  function Square(z: real): real { z * z }

  /** 2 z (1 - tanh(z^2)^2), as the source computes it. */
  function TanhSquareSlope(tanh: real -> real, z: real): real {
    var t := tanh(Square(z));
    2.0 * z * (1.0 - t * t)
  }

  /** tanh on dual numbers: its slope is 1 - tanh^2. */
  function DualTanh(tanh: real -> real, a: Dual): Dual {
    Dual(tanh(a.v), (1.0 - tanh(a.v) * tanh(a.v)) * a.d)
  }

  /** tanh(z^2) */
  function TanhSquareActivation(tanh: real -> real): Activation {
    Activation(z => tanh(Square(z)), z => TanhSquareSlope(tanh, z), a => DualTanh(tanh, Mul(a, a)))
  }

  lemma TanhSquareDerived(tanh: real -> real)
    ensures TanhSquareActivation(tanh).Derived()
  {
    var act := TanhSquareActivation(tanh);
    forall a: Dual ensures act.DerivedAt(a) {
      TanhSquareDual(tanh, a, Mul(a, a));
    }
  }

  lemma TanhSquareDual(tanh: real -> real, a: Dual, square: Dual)
    requires square == Mul(a, a)
    ensures DualTanh(tanh, square) == Sloped(tanh(Square(a.v)), TanhSquareSlope(tanh, a.v), a.d)
  {
    assert square.v == Square(a.v);
    var t := tanh(square.v);
    TanhSquareScalars(a.v, a.d, square.d, t);
    assert DualTanh(tanh, square).d == (1.0 - t * t) * square.d;
    assert TanhSquareSlope(tanh, a.v) == 2.0 * a.v * (1.0 - t * t);
  }

  lemma TanhSquareScalars(v: real, d: real, slope: real, t: real)
    requires slope == d * v + v * d
    ensures (1.0 - t * t) * slope == 2.0 * v * (1.0 - t * t) * d
  {
    var k := 1.0 - t * t;
    assert k * (d * v + v * d) == 2.0 * v * k * d;
  }

  /** Bias-free layers with an activation between them and a postprocessing behind the last one. */
  datatype Perceptron = Perceptron(shape: seq<nat>, weights: seq<seq<real>>, activation: Activation, post: Activation) {
    ghost predicate Valid() {
      |shape| >= 2 && |weights| == |shape| - 1 && forall l :: 0 <= l < |shape| ==> shape[l] > 0
    }

    /** Both activations come with their true slopes. */
    ghost predicate Differentiable() {
      activation.Derived() && post.Derived()
    }

    function Layers(): nat { |weights| }

    /** Every layer but the last is followed by the activation. */
    function After(l: nat): Activation {
      if l + 1 < |shape| - 1 then activation else Linear()
    }

    ghost function Weight(l: nat): (int, int) -> real
      requires l < |weights| && l < |shape|
    {
      MatrixOf(weights[l], shape[l])
    }

    /** The vector in front of layer l. */
    ghost function Level(x: int -> real, l: nat): int -> real
      requires Valid() && l <= Layers()
      decreases l, 0
    {
      if l == 0 then x else Composed(After(l - 1).value, Pre(x, l - 1))
    }

    /** Layer l before its activation. */
    ghost function Pre(x: int -> real, l: nat): int -> real
      requires Valid() && l < Layers()
      decreases l, 1
    {
      Applied(shape[l], Weight(l), Level(x, l))
    }

    /** The slopes of the activation behind layer l. */
    ghost function Slopes(x: int -> real, l: nat): int -> real
      requires Valid() && l < Layers()
    {
      Composed(After(l).slope, Pre(x, l))
    }

    ghost function Output(x: int -> real): int -> real
      requires Valid()
    {
      Composed(post.value, Level(x, Layers()))
    }

    // ------------------------------------------------------------ reverse pass

    /** Adjoint in front of layer l, given the adjoint w in front of layer `top`. */
    ghost function Adjoint(x: int -> real, w: int -> real, l: nat, top: nat): int -> real
      requires Valid() && l <= top <= Layers()
      decreases top - l, 0
    {
      if l == top then w else Pulled(shape[l + 1], Weight(l), Delta(x, w, l, top))
    }

    /** Adjoint of layer l before its activation. */
    ghost function Delta(x: int -> real, w: int -> real, l: nat, top: nat): int -> real
      requires Valid() && l < top <= Layers()
      decreases top - l - 1, 1
    {
      Times(Adjoint(x, w, l + 1, top), Slopes(x, l))
    }

    /** The gradient of weight l that one sample adds. */
    ghost function WeightGradient(x: int -> real, w: int -> real, l: nat, top: nat): (int, int) -> real
      requires Valid() && l < top <= Layers()
    {
      Outer(Delta(x, w, l, top), Level(x, l))
    }

    /** The adjoint of the last layer's output, given that of the postprocessed output. */
    ghost function TopAdjoint(x: int -> real, g: int -> real): int -> real
      requires Valid()
    {
      Times(g, Composed(post.slope, Level(x, Layers())))
    }

    // ------------------------------------------------------------ derivative with respect to the weights

    /** A change of the weights. */
    predicate IsDirection(dw: seq<seq<real>>) {
      |dw| == |weights|
    }

    /** The network run on dual numbers: the weights move along dw, the features stay. */
    ghost function DualLevel(dw: seq<seq<real>>, x: int -> real, l: nat): int -> Dual
      requires Valid() && IsDirection(dw) && l <= Layers()
    {
      if l == 0 then i => Const(x(i)) else
        var w, d, before := Weight(l - 1), MatrixOf(dw[l - 1], shape[l - 1]), DualLevel(dw, x, l - 1);
        var f := After(l - 1).dual;
        o => f(DualProduct(shape[l - 1], w, d, before, o))
    }

    /** The tangents of the vector in front of layer l, in closed form. */
    ghost function Tangent(dw: seq<seq<real>>, x: int -> real, l: nat): int -> real
      requires Valid() && IsDirection(dw) && l <= Layers()
      decreases l, 0
    {
      if l == 0 then _ => 0.0 else Times(Slopes(x, l - 1), PreTangent(dw, x, l - 1))
    }

    ghost function PreTangent(dw: seq<seq<real>>, x: int -> real, l: nat): int -> real
      requires Valid() && IsDirection(dw) && l < Layers()
      decreases l, 1
    {
      Plus(Applied(shape[l], MatrixOf(dw[l], shape[l]), Level(x, l)), Applied(shape[l], Weight(l), Tangent(dw, x, l)))
    }

    /** Running the network on dual numbers gives its values and the closed-form tangents. */
    lemma {:induction false} DualLevelParts(dw: seq<seq<real>>, x: int -> real, l: nat, o: int)
      requires Valid() && Differentiable() && IsDirection(dw) && l <= Layers() && 0 <= o < shape[l]
      ensures DualLevel(dw, x, l)(o) == Dual(Level(x, l)(o), Tangent(dw, x, l)(o))
      decreases l
    {
      if l == 0 {
      } else {
        var n, w, d := shape[l - 1], Weight(l - 1), MatrixOf(dw[l - 1], shape[l - 1]);
        var value, tangent, before := Level(x, l - 1), Tangent(dw, x, l - 1), DualLevel(dw, x, l - 1);
        forall i | 0 <= i < n ensures before(i) == Dual(value(i), tangent(i)) {
          DualLevelParts(dw, x, l - 1, i);
        }
        assert After(l - 1).Derived() by { LinearDerived(); }
        DualLayerParts(After(l - 1), n, w, d, value, tangent, before, o);
      }
    }

    /** Only the features of the first layer's inputs count. */
    lemma {:induction false} DualLevelCong(dw: seq<seq<real>>, x: int -> real, x': int -> real, l: nat, o: int)
      requires Valid() && IsDirection(dw) && l <= Layers() && 0 <= o < shape[l]
      requires forall i :: 0 <= i < shape[0] ==> x(i) == x'(i)
      ensures DualLevel(dw, x, l)(o) == DualLevel(dw, x', l)(o)
      decreases l
    {
      if l == 0 {
      } else {
        var below := l - 1;
        var n, w, d := shape[below], Weight(below), MatrixOf(dw[below], shape[below]);
        var before, before' := DualLevel(dw, x, below), DualLevel(dw, x', below);
        forall i | 0 <= i < n ensures before(i) == before'(i) {
          DualLevelCong(dw, x, x', below, i);
        }
        DualProductCong(n, w, d, before, before', o);
      }
    }

    // ------------------------------------------------------------ the reverse pass is the transpose

    /** The gradient of weight l, paired with the direction. */
    ghost function LayerPaired(dw: seq<seq<real>>, x: int -> real, w: int -> real, l: nat, top: nat): real
      requires Valid() && IsDirection(dw) && l < top <= Layers()
    {
      Paired(shape[l + 1], shape[l], WeightGradient(x, w, l, top), MatrixOf(dw[l], shape[l]))
    }

    /** One layer: what the adjoint in front of the layer loses, the weight gradient gains. */
    lemma LayerTransposed(dw: seq<seq<real>>, x: int -> real, w: int -> real, l: nat, next: nat, top: nat)
      requires Valid() && IsDirection(dw) && l < top <= Layers() && next == l + 1
      ensures Inner(shape[next], Adjoint(x, w, next, top), Tangent(dw, x, next))
           == Inner(shape[l], Adjoint(x, w, l, top), Tangent(dw, x, l))
              + LayerPaired(dw, x, w, l, top)
    {
      var n, k, d := shape[next], shape[l], MatrixOf(dw[l], shape[l]);
      TimesMoves(n, Adjoint(x, w, next, top), Slopes(x, l), PreTangent(dw, x, l));
      PlusSplits(n, Delta(x, w, l, top), Applied(k, d, Level(x, l)), Applied(k, Weight(l), Tangent(dw, x, l)));
      MatrixTranspose(n, k, Weight(l), Delta(x, w, l, top), Tangent(dw, x, l));
      OuterPairs(n, k, Delta(x, w, l, top), Level(x, l), d);
    }

    /** The weight gradients below layer l, paired with the direction. */
    ghost function PairedBelow(dw: seq<seq<real>>, x: int -> real, w: int -> real, l: nat, top: nat): real
      requires Valid() && IsDirection(dw) && l <= top <= Layers()
    {
      if l == 0 then 0.0 else
        PairedBelow(dw, x, w, l - 1, top) + LayerPaired(dw, x, w, l - 1, top)
    }

    lemma NothingBelow(dw: seq<seq<real>>, x: int -> real, w: int -> real)
      requires Valid() && IsDirection(dw)
      ensures Inner(shape[0], w, Tangent(dw, x, 0)) == 0.0
    {
      InnerWithZero(shape[0], w, Tangent(dw, x, 0));
    }

    lemma PairedBelowStep(dw: seq<seq<real>>, x: int -> real, w: int -> real, l: nat, next: nat, top: nat)
      requires Valid() && IsDirection(dw) && l < top <= Layers() && next == l + 1
      ensures PairedBelow(dw, x, w, next, top)
           == PairedBelow(dw, x, w, l, top)
              + LayerPaired(dw, x, w, l, top)
    {
    }

    lemma {:induction false} GradientsCollect(dw: seq<seq<real>>, x: int -> real, w: int -> real, l: nat, top: nat)
      requires Valid() && IsDirection(dw) && l <= top <= Layers()
      ensures Inner(shape[l], Adjoint(x, w, l, top), Tangent(dw, x, l)) == PairedBelow(dw, x, w, l, top)
      decreases l
    {
      if l == 0 {
        NothingBelow(dw, x, Adjoint(x, w, 0, top));
      } else {
        var below := l - 1;
        GradientsCollect(dw, x, w, below, top);
        LayerTransposed(dw, x, w, below, l, top);
        PairedBelowStep(dw, x, w, below, l, top);
      }
    }

    /** The tangent of the network's output. */
    ghost function OutputTangent(dw: seq<seq<real>>, x: int -> real): int -> real
      requires Valid() && IsDirection(dw)
    {
      var last := DualLevel(dw, x, Layers());
      o => post.dual(last(o)).d
    }

    /** Run on dual numbers, the network gives its output together with that tangent. */
    lemma OutputDual(dw: seq<seq<real>>, x: int -> real, f: int)
      requires Valid() && Differentiable() && IsDirection(dw) && 0 <= f < shape[Layers()]
      ensures post.dual(DualLevel(dw, x, Layers())(f)) == Dual(Output(x)(f), OutputTangent(dw, x)(f))
    {
      DualLevelParts(dw, x, Layers(), f);
      AppliedActivation(post, Level(x, Layers()), Tangent(dw, x, Layers()), DualLevel(dw, x, Layers())(f), f);
    }

    lemma OutputTangentCong(dw: seq<seq<real>>, x: int -> real, x': int -> real, f: int)
      requires Valid() && IsDirection(dw) && 0 <= f < shape[Layers()]
      requires forall i :: 0 <= i < shape[0] ==> x(i) == x'(i)
      ensures OutputTangent(dw, x)(f) == OutputTangent(dw, x')(f)
    {
      DualLevelCong(dw, x, x', Layers(), f);
    }

    /** Backpropagation computes the gradient: pairing the output adjoint with the derivative of the network along any
        change of its weights equals pairing the weight gradients with that change. */
    lemma BackpropagationIsTheGradient(dw: seq<seq<real>>, x: int -> real, g: int -> real)
      requires Valid() && Differentiable() && IsDirection(dw)
      ensures Inner(shape[Layers()], g, OutputTangent(dw, x))
                == PairedBelow(dw, x, TopAdjoint(x, g), Layers(), Layers())
    {
      var n, L := shape[Layers()], Layers();
      var slopes, t, out := Composed(post.slope, Level(x, L)), Tangent(dw, x, L), OutputTangent(dw, x);
      forall o | 0 <= o < n ensures out(o) == Times(slopes, t)(o) {
        DualLevelParts(dw, x, L, o);
        AppliedActivation(post, Level(x, L), t, DualLevel(dw, x, L)(o), o);
      }
      InnerCong(n, g, out, g, Times(slopes, t));
      TimesMoves(n, g, slopes, t);
      GradientsCollect(dw, x, TopAdjoint(x, g), L, L);
    }

    // ------------------------------------------------------------ full against factorized

    /** What the factorized mode is given for one sample: the adjoint of the penultimate layer. */
    ghost function PenultimateAdjoint(g: int -> real): int -> real
      requires Valid()
    {
      Pulled(shape[Layers()], Weight(Layers() - 1), g)
    }

    /** Without postprocessing, the last layer's own adjoint is the given one. */
    lemma LastDelta(x: int -> real, g: int -> real, o: int)
      requires Valid() && post == Linear()
      ensures Delta(x, TopAdjoint(x, g), Layers() - 1, Layers())(o) == g(o)
    {
      TimesOne(g, Composed(post.slope, Level(x, Layers())), o);
      TimesOne(TopAdjoint(x, g), Slopes(x, Layers() - 1), o);
    }

    /** Without postprocessing, the adjoints below the last layer are those of the shorter network. */
    lemma {:induction false} AdjointsFactor(x: int -> real, g: int -> real, p: int -> real, l: nat, i: int)
      requires Valid() && post == Linear() && l <= Layers() - 1 && 0 <= i < shape[l]
      requires forall e :: 0 <= e < shape[Layers() - 1] ==> p(e) == PenultimateAdjoint(g)(e)
      ensures Adjoint(x, TopAdjoint(x, g), l, Layers())(i) == Adjoint(x, p, l, Layers() - 1)(i)
      decreases Layers() - l
    {
      var L := Layers();
      if l == L - 1 {
        LastAdjoint(x, g, i);
      } else {
        var w := TopAdjoint(x, g);
        var full, short := Adjoint(x, w, l + 1, L), Adjoint(x, p, l + 1, L - 1);
        forall o | 0 <= o < shape[l + 1] ensures full(o) == short(o) {
          AdjointsFactor(x, g, p, l + 1, o);
        }
        AdjointStep(x, w, L, full, p, L - 1, short, l, i);
      }
    }

    /** Adjoints that agree above a layer agree below it. */
    lemma AdjointStep(x: int -> real, w: int -> real, top: nat, above: int -> real,
                      w': int -> real, top': nat, above': int -> real, l: nat, i: int)
      requires Valid() && l < top <= Layers() && l < top' <= Layers()
      requires above == Adjoint(x, w, l + 1, top) && above' == Adjoint(x, w', l + 1, top')
      requires forall o :: 0 <= o < shape[l + 1] ==> above(o) == above'(o)
      ensures Adjoint(x, w, l, top)(i) == Adjoint(x, w', l, top')(i)
    {
      TimesPulledCong(shape[l + 1], Weight(l), above, above', Slopes(x, l), i);
    }

    /** The penultimate adjoint of the full mode is what the factorized mode is given. */
    lemma LastAdjoint(x: int -> real, g: int -> real, i: int)
      requires Valid() && post == Linear()
      ensures Adjoint(x, TopAdjoint(x, g), Layers() - 1, Layers())(i) == PenultimateAdjoint(g)(i)
    {
      var l := Layers() - 1;
      var delta := Delta(x, TopAdjoint(x, g), l, Layers());
      forall o ensures delta(o) == g(o) {
        LastDelta(x, g, o);
      }
      PulledCong(shape[l + 1], Weight(l), delta, g, i);
    }

    /** So every weight gradient below the last layer is the same in both modes. */
    lemma GradientsFactor(x: int -> real, g: int -> real, p: int -> real, l: nat, o: int, i: int)
      requires Valid() && post == Linear() && l < Layers() - 1 && 0 <= o < shape[l + 1]
      requires forall e :: 0 <= e < shape[Layers() - 1] ==> p(e) == PenultimateAdjoint(g)(e)
      ensures WeightGradient(x, TopAdjoint(x, g), l, Layers())(o, i) == WeightGradient(x, p, l, Layers() - 1)(o, i)
    {
      AdjointsFactor(x, g, p, l + 1, o);
      var full, short := Adjoint(x, TopAdjoint(x, g), l + 1, Layers()), Adjoint(x, p, l + 1, Layers() - 1);
      TimesCong(full, short, Slopes(x, l), o);
      OuterCong(Delta(x, TopAdjoint(x, g), l, Layers()), Delta(x, p, l, Layers() - 1), Level(x, l), o, i);
    }

    /** And the last layer's gradient is the output adjoint times the penultimate value. */
    lemma LastGradient(x: int -> real, g: int -> real, o: int, i: int)
      requires Valid() && post == Linear()
      ensures WeightGradient(x, TopAdjoint(x, g), Layers() - 1, Layers())(o, i)
                == Outer(g, Level(x, Layers() - 1))(o, i)
    {
      LastDelta(x, g, o);
    }
  }

  // -------------------------------------------------------------- index functions

  ghost function Composed(f: real -> real, x: int -> real): int -> real {
    i => f(x(i))
  }

  ghost function Times(f: int -> real, g: int -> real): int -> real {
    i => f(i) * g(i)
  }

  ghost function Plus(f: int -> real, g: int -> real): int -> real {
    i => f(i) + g(i)
  }

  ghost function Outer(f: int -> real, g: int -> real): (int, int) -> real {
    (o, i) => f(o) * g(i)
  }

  /** A flat row-major buffer as a matrix with rows of n entries. */
  ghost function MatrixOf(flat: seq<real>, n: nat): (int, int) -> real {
    (o, i) => At(flat, Offset(o, n, i))
  }

  ghost function RowOf(a: (int, int) -> real, o: int): int -> real {
    i => a(o, i)
  }

  ghost function ColumnOf(a: (int, int) -> real, i: int): int -> real {
    o => a(o, i)
  }

  ghost function PairedRow(columns: nat, a: (int, int) -> real, b: (int, int) -> real, o: int): real {
    Inner(columns, RowOf(a, o), RowOf(b, o))
  }

  /** Entrywise pairing of two matrices. */
  ghost function Paired(rows: nat, columns: nat, a: (int, int) -> real, b: (int, int) -> real): real {
    Sum(rows, o => PairedRow(columns, a, b, o))
  }

  lemma TimesMoves(n: nat, a: int -> real, s: int -> real, t: int -> real)
    ensures Inner(n, a, Times(s, t)) == Inner(n, Times(a, s), t)
  {
    var st, as_ := Times(s, t), Times(a, s);
    forall o ensures a(o) * st(o) == as_(o) * t(o) {
      Regroup(a(o), s(o), t(o), st(o), as_(o));
    }
    SumCong(n, o => a(o) * st(o), o => as_(o) * t(o));
  }

  lemma Regroup(a: real, s: real, t: real, st: real, as_: real)
    requires st == s * t && as_ == a * s
    ensures a * st == as_ * t
  {
  }

  lemma TimesOne(f: int -> real, one: int -> real, o: int)
    requires one(o) == 1.0
    ensures Times(f, one)(o) == f(o)
  {
  }

  lemma TimesCong(f: int -> real, g: int -> real, s: int -> real, o: int)
    requires f(o) == g(o)
    ensures Times(f, s)(o) == Times(g, s)(o)
  {
  }

  lemma TimesPulledCong(m: nat, a: (int, int) -> real, f: int -> real, g: int -> real, s: int -> real, i: int)
    requires forall o :: 0 <= o < m ==> f(o) == g(o)
    ensures Pulled(m, a, Times(f, s))(i) == Pulled(m, a, Times(g, s))(i)
  {
    var fs, gs := Times(f, s), Times(g, s);
    forall o | 0 <= o < m ensures fs(o) == gs(o) {
      TimesCong(f, g, s, o);
    }
    PulledCong(m, a, fs, gs, i);
  }

  lemma OuterCong(f: int -> real, g: int -> real, v: int -> real, o: int, i: int)
    requires f(o) == g(o)
    ensures Outer(f, v)(o, i) == Outer(g, v)(o, i)
  {
  }

  lemma PlusSplits(n: nat, a: int -> real, f: int -> real, g: int -> real)
    ensures Inner(n, a, Plus(f, g)) == Inner(n, a, f) + Inner(n, a, g)
  {
    InnerLinear(n, a, 1.0, f, 1.0, g, Plus(f, g));
  }

  lemma InnerWithZero(n: nat, f: int -> real, g: int -> real)
    requires forall i :: g(i) == 0.0
    ensures Inner(n, f, g) == 0.0
  {
    SumZero(n, i => f(i) * g(i));
  }

  lemma OuterPairsRow(k: nat, delta: int -> real, value: int -> real, d: (int, int) -> real, o: int)
    ensures delta(o) * Applied(k, d, value)(o) == PairedRow(k, Outer(delta, value), d, o)
  {
    var outer, row, product := Outer(delta, value), i => d(o, i) * value(i),
                               i => RowOf(Outer(delta, value), o)(i) * RowOf(d, o)(i);
    forall i ensures product(i) == delta(o) * row(i) {
      OuterTerm(delta(o), value(i), d(o, i), RowOf(outer, o)(i), RowOf(d, o)(i), row(i), product(i));
    }
    SumScaled(k, delta(o), row, product);
  }

  /** <delta, D value> = <delta x value, D>. */
  lemma OuterPairs(n: nat, k: nat, delta: int -> real, value: int -> real, d: (int, int) -> real)
    ensures Inner(n, delta, Applied(k, d, value)) == Paired(n, k, Outer(delta, value), d)
  {
    var applied, outer := Applied(k, d, value), Outer(delta, value);
    forall o ensures delta(o) * applied(o) == PairedRow(k, outer, d, o) {
      OuterPairsRow(k, delta, value, d, o);
    }
    SumCong(n, o => delta(o) * applied(o), o => PairedRow(k, outer, d, o));
  }

  lemma OuterTerm(delta: real, value: real, d: real, outer: real, entry: real, term: real, product: real)
    requires outer == delta * value && entry == d && term == d * value && product == outer * entry
    ensures product == delta * term
  {
    assert product == delta * value * d;
  }

  /** Row o of a matrix-vector product on dual numbers: the matrix w moves along d. */
  ghost function DualProduct(n: nat, w: (int, int) -> real, d: (int, int) -> real, x: int -> Dual, o: int): Dual {
    DualSum(n, i => Mul(Dual(w(o, i), d(o, i)), x(i)))
  }

  lemma DualProductParts(n: nat, w: (int, int) -> real, d: (int, int) -> real, value: int -> real, tangent: int -> real,
                         x: int -> Dual, o: int)
    requires forall i :: 0 <= i < n ==> x(i) == Dual(value(i), tangent(i))
    ensures DualProduct(n, w, d, x, o)
         == Dual(Applied(n, w, value)(o), Plus(Applied(n, d, value), Applied(n, w, tangent))(o))
  {
    var moved, carried := i => d(o, i) * value(i), i => w(o, i) * tangent(i);
    DualSumParts(n, i => Mul(Dual(w(o, i), d(o, i)), x(i)), i => w(o, i) * value(i), Plus(moved, carried));
    SumAdded(n, moved, carried, Plus(moved, carried));
  }

  lemma DualProductCong(n: nat, w: (int, int) -> real, d: (int, int) -> real, x: int -> Dual, x': int -> Dual, o: int)
    requires forall i :: 0 <= i < n ==> x(i) == x'(i)
    ensures DualProduct(n, w, d, x, o) == DualProduct(n, w, d, x', o)
  {
    DualSumCong(n, i => Mul(Dual(w(o, i), d(o, i)), x(i)), i => Mul(Dual(w(o, i), d(o, i)), x'(i)));
  }

  lemma {:induction false} DualSumCong(n: nat, f: int -> Dual, g: int -> Dual)
    requires forall i :: 0 <= i < n ==> f(i) == g(i)
    ensures DualSum(n, f) == DualSum(n, g)
  {
    if n == 0 {
    } else {
      DualSumCong(n - 1, f, g);
    }
  }

  /** One layer on dual numbers. */
  lemma DualLayerParts(act: Activation, n: nat, w: (int, int) -> real, d: (int, int) -> real, value: int -> real,
                       tangent: int -> real, x: int -> Dual, o: int)
    requires act.Derived() && forall i :: 0 <= i < n ==> x(i) == Dual(value(i), tangent(i))
    ensures var pre, t := Applied(n, w, value), Plus(Applied(n, d, value), Applied(n, w, tangent));
            (act.dual(DualProduct(n, w, d, x, o))
          == Dual(Composed(act.value, pre)(o), Times(Composed(act.slope, pre), t)(o)))
  {
    var pre, t := Applied(n, w, value), Plus(Applied(n, d, value), Applied(n, w, tangent));
    DualProductParts(n, w, d, value, tangent, x, o);
    AppliedActivation(act, pre, t, DualProduct(n, w, d, x, o), o);
  }

  /** An activation with its true slope, on dual numbers. */
  lemma AppliedActivation(act: Activation, value: int -> real, tangent: int -> real, a: Dual, o: int)
    requires act.Derived() && a == Dual(value(o), tangent(o))
    ensures act.dual(a) == Dual(Composed(act.value, value)(o), Times(Composed(act.slope, value), tangent)(o))
  {
    assert act.DerivedAt(a);
  }
}
