/** The layers of an affine network, what each computes, and how an adjoint is pulled back through each
    (libsymmetrix/source/affine_mlp.cpp). */
module AffineLayers {
  import opened RealArithmetic
  import opened FiniteSums
  import opened FlatIndex
  import opened DualNumbers

  datatype Layer =
    | Linear(inputs: nat, outputs: nat, weight: seq<real>, bias: seq<real>)
    | LayerNorm(width: nat, eps: real, gamma: seq<real>, beta: seq<real>)
    | SiLU(size: nat)
  {
    /** The checks of the source's constructor. */
    ghost predicate Valid() {
      match this
      case Linear(inputs, outputs, weight, bias) =>
        inputs > 0 && outputs > 0 && |weight| == outputs * inputs && |bias| == outputs
      case LayerNorm(width, eps, gamma, beta) =>
        width > 0 && eps > 0.0 && |gamma| == width && |beta| == width
      case SiLU(size) => size > 0
    }

    function InputSize(): nat {
      match this
      case Linear(inputs, _, _, _) => inputs
      case LayerNorm(width, _, _, _) => width
      case SiLU(size) => size
    }

    function OutputSize(): nat {
      match this
      case Linear(_, outputs, _, _) => outputs
      case LayerNorm(width, _, _, _) => width
      case SiLU(size) => size
    }

    /** n inputs can be fed: a linear layer may be fed its leading columns only. */
    predicate Accepts(n: nat) {
      if Linear? then 0 < n <= inputs else n == InputSize()
    }
  }

  /** The weight matrix: row-major with the full input size as row length. */
  ghost function WeightMatrix(layer: Layer): (int, int) -> real
    requires layer.Linear?
  {
    (row, column) => At(layer.weight, Offset(row, layer.inputs, column))
  }

  // ---------------------------------------------------------------- normalisation statistics

  ghost function Mean(x: seq<real>): real
    requires |x| > 0
  {
    Sum(|x|, Entries(x)) / |x| as real
  }

  ghost function Centered(x: seq<real>): int -> real
    requires |x| > 0
  {
    var mean := Mean(x); i => At(x, i) - mean
  }

  ghost function Variance(x: seq<real>): real
    requires |x| > 0
  {
    Inner(|x|, Centered(x), Centered(x)) / |x| as real
  }

  lemma VarianceNonNegative(x: seq<real>)
    requires |x| > 0
    ensures Variance(x) >= 0.0
  {
    var c := Centered(x);
    SumNonNegative(|x|, i => c(i) * c(i));
    var total := Inner(|x|, c, c);
    QuotientNonNegative(total, |x| as real);
  }

  lemma QuotientNonNegative(p: real, d: real)
    requires p >= 0.0 && d > 0.0
    ensures p / d >= 0.0
  {
  }

  ghost function InverseStddev(m: Elementary, x: seq<real>, eps: real): (r: real)
    requires m.Valid() && |x| > 0 && eps > 0.0
    ensures r > 0.0
  {
    VarianceNonNegative(x);
    1.0 / m.sqrt(Variance(x) + eps)
  }

  // ---------------------------------------------------------------- forward

  function Normalised(x: real, mean: real, inverse: real, gamma: real, beta: real): real {
    (x - mean) * inverse * gamma + beta
  }

  /** What the layer computes. */
  ghost function Forward(m: Elementary, layer: Layer, x: seq<real>): (y: seq<real>)
    requires m.Valid() && layer.Valid() && layer.Accepts(|x|)
    ensures |y| == layer.OutputSize()
  {
    match layer
    case Linear(inputs, outputs, weight, bias) =>
      var product := Applied(|x|, WeightMatrix(layer), Entries(x));
      seq(outputs, row requires 0 <= row < outputs => bias[row] + product(row))
    case LayerNorm(width, eps, gamma, beta) =>
      var mean, inverse := Mean(x), InverseStddev(m, x, eps);
      seq(width, i requires 0 <= i < width => Normalised(x[i], mean, inverse, gamma[i], beta[i]))
    case SiLU(size) =>
      seq(size, i requires 0 <= i < size => Silu(m, x[i]))
  }

  /** The equations that fix every entry of a layer's output. A linear layer adds row i of the weight, which starts at
      flat position `start`, times the input to the bias; */
  lemma LinearEntry(m: Elementary, layer: Layer, x: seq<real>, i: int, start: int)
    requires m.Valid() && layer.Linear? && layer.Valid() && layer.Accepts(|x|) && 0 <= i < layer.outputs
    requires start == i * layer.inputs
    ensures Forward(m, layer, x)[i] == layer.bias[i] + Sum(|x|, c => At(layer.weight, start + c) * At(x, c))
  {
    ProductRow(layer, x, i, start);
  }

  /** a normalised entry solves this equation, with the mean and the variance of the input, and nothing else does; */
  lemma NormEntry(m: Elementary, layer: Layer, x: seq<real>, mean: real, variance: real, i: int, v: real)
    requires m.Valid() && layer.LayerNorm? && layer.Valid() && |x| == layer.width && 0 <= i < layer.width
    requires HasStatistics(x, mean, variance)
    ensures v == Forward(m, layer, x)[i] <==>
            (v - layer.beta[i]) * m.sqrt(variance + layer.eps) == (x[i] - mean) * layer.gamma[i]
  {
    var s := m.sqrt(variance + layer.eps);
    InverseIs(m, x, mean, variance, layer.eps, s);
    NormEntryIs(m, layer, x, i, v, mean, s);
  }

  /** Mean and variance, written out. */
  ghost predicate HasStatistics(x: seq<real>, mean: real, variance: real) {
    && mean * |x| as real == Sum(|x|, c => At(x, c))
    && variance * |x| as real == Sum(|x|, c => (At(x, c) - mean) * (At(x, c) - mean))
  }

  lemma InverseIs(m: Elementary, x: seq<real>, mean: real, variance: real, eps: real, s: real)
    requires m.Valid() && eps > 0.0 && |x| > 0 && HasStatistics(x, mean, variance) && s == m.sqrt(variance + eps)
    ensures mean == Mean(x) && s > 0.0 && InverseStddev(m, x, eps) == 1.0 / s
  {
    StatisticsAre(x, mean, variance);
    VarianceNonNegative(x);
  }

  /** and so it is with SiLU. */
  lemma SiluEntry(m: Elementary, layer: Layer, x: seq<real>, i: int, v: real)
    requires m.Valid() && layer.SiLU? && layer.Valid() && |x| == layer.size && 0 <= i < layer.size
    ensures v == Forward(m, layer, x)[i] <==> v * (1.0 + m.exp(-x[i])) == x[i]
  {
    QuotientIs(x[i], 1.0 + m.exp(-x[i]), v);
  }

  lemma ProductRow(layer: Layer, x: seq<real>, row: int, start: int)
    requires layer.Linear? && start == row * layer.inputs
    ensures Applied(|x|, WeightMatrix(layer), Entries(x))(row)
         == Sum(|x|, c => At(layer.weight, start + c) * At(x, c))
  {
    var a, e := WeightMatrix(layer), Entries(x);
    forall c ensures a(row, c) * e(c) == At(layer.weight, start + c) * At(x, c) {
      assert Offset(row, layer.inputs, c) == start + c;
    }
    SumCong(|x|, c => a(row, c) * e(c), c => At(layer.weight, start + c) * At(x, c));
  }

  lemma NormEntryIs(m: Elementary, layer: Layer, x: seq<real>, i: int, v: real, mean: real, s: real)
    requires m.Valid() && layer.LayerNorm? && layer.Valid() && |x| == layer.width && 0 <= i < layer.width
    requires mean == Mean(x) && s > 0.0 && InverseStddev(m, x, layer.eps) == 1.0 / s
    ensures v == Forward(m, layer, x)[i] <==> (v - layer.beta[i]) * s == (x[i] - mean) * layer.gamma[i]
  {
    var inverse := InverseStddev(m, x, layer.eps);
    NormalisedIs(x[i], v, mean, s, inverse, layer.gamma[i], layer.beta[i]);
    assert Forward(m, layer, x)[i] == Normalised(x[i], mean, inverse, layer.gamma[i], layer.beta[i]);
  }

  lemma StatisticsAre(x: seq<real>, mean: real, variance: real)
    requires |x| > 0 && HasStatistics(x, mean, variance)
    ensures mean == Mean(x) && variance == Variance(x)
  {
    SumCong(|x|, Entries(x), c => At(x, c));
    QuotientIs(Sum(|x|, Entries(x)), |x| as real, mean);
    var d := Centered(x);
    SumCong(|x|, c => d(c) * d(c), c => (At(x, c) - mean) * (At(x, c) - mean));
    QuotientIs(Inner(|x|, d, d), |x| as real, variance);
  }

  lemma NormalisedIs(x: real, y: real, mean: real, s: real, inverse: real, gamma: real, beta: real)
    requires s > 0.0 && inverse == 1.0 / s
    ensures y == Normalised(x, mean, inverse, gamma, beta) <==> (y - beta) * s == (x - mean) * gamma
  {
    DivisionUndone(1.0, s);
    QuotientIs((x - mean) * gamma, s, y - beta);
    QuotientIs((x - mean) * gamma, s, (x - mean) * inverse * gamma);
    assert (x - mean) * inverse * gamma * s == (x - mean) * gamma * (inverse * s);
  }

  /** What the layer computes on dual numbers: the same program, so its tangents are the derivative. */
  ghost function DualForward(m: Elementary, layer: Layer, x: seq<Dual>): (y: seq<Dual>)
    requires m.Valid() && layer.Valid() && layer.Accepts(|x|)
    ensures |y| == layer.OutputSize()
  {
    match layer
    case Linear(inputs, outputs, weight, bias) =>
      var a := WeightMatrix(layer);
      seq(outputs, row requires 0 <= row < outputs =>
        Add(Const(bias[row]), DualSum(|x|, c => Mul(Const(a(row, c)), DualAt(x, c)))))
    case LayerNorm(width, eps, gamma, beta) =>
      var mean := DualMean(x);
      var inverse := DualInverse(m, x, eps);
      seq(width, i requires 0 <= i < width =>
        Add(Mul(Mul(Sub(x[i], mean), inverse), Const(gamma[i])), Const(beta[i])))
    case SiLU(size) =>
      seq(size, i requires 0 <= i < size => DualSilu(m, x[i]))
  }

  ghost function DualAt(x: seq<Dual>, i: int): Dual {
    if 0 <= i < |x| then x[i] else Const(0.0)
  }

  ghost function DualMean(x: seq<Dual>): Dual
    requires |x| > 0
  {
    Over(DualSum(|x|, i => DualAt(x, i)), |x| as real)
  }

  ghost function DualVariance(x: seq<Dual>): Dual
    requires |x| > 0
  {
    var mean := DualMean(x);
    Over(DualSum(|x|, i => Mul(Sub(DualAt(x, i), mean), Sub(DualAt(x, i), mean))), |x| as real)
  }

  ghost function DualInverse(m: Elementary, x: seq<Dual>, eps: real): Dual
    requires m.Valid() && |x| > 0 && eps > 0.0
  {
    DualVarianceParts(x);
    VarianceNonNegative(Values(x));
    Div(Const(1.0), Sqrt(m, Add(DualVariance(x), Const(eps))))
  }

  // ---------------------------------------------------------------- the dual statistics in closed form

  ghost function MeanTangent(x: seq<Dual>): real
    requires |x| > 0
  {
    Mean(Tangents(x))
  }

  /** 2 <centered, tangent> / n */
  ghost function VarianceTangent(x: seq<Dual>): real
    requires |x| > 0
  {
    2.0 * Inner(|x|, Centered(Values(x)), Entries(Tangents(x))) / |x| as real
  }

  /** The source's slope of 1/sqrt(variance + eps): -0.5 * var' * inverse^3. */
  function InverseSlope(dvariance: real, inverse: real): real {
    -0.5 * dvariance * inverse * inverse * inverse
  }

  lemma DualMeanParts(x: seq<Dual>)
    requires |x| > 0
    ensures DualMean(x) == Dual(Mean(Values(x)), MeanTangent(x))
  {
    DualSumParts(|x|, i => DualAt(x, i), Entries(Values(x)), Entries(Tangents(x)));
  }

  /** Centred terms sum to zero. */
  lemma CenteredSumsToZero(x: seq<real>)
    requires |x| > 0
    ensures Sum(|x|, Centered(x)) == 0.0
  {
    var n, mean := |x|, Mean(x);
    SumConst(n, mean, _ => mean);
    SumLinear(n, 1.0, Entries(x), -1.0, _ => mean, Centered(x));
    DivisionUndone(Sum(n, Entries(x)), n as real);
    assert Sum(n, Entries(x)) == mean * n as real;
  }

  /** The derivative of the sum of squares: the mean's own derivative drops out. */
  lemma SquaresTangent(n: nat, c: int -> real, t: int -> real, dm: real, r: int -> real)
    requires Sum(n, c) == 0.0
    requires forall i :: 0 <= i < n ==> r(i) == 2.0 * c(i) * (t(i) - dm)
    ensures Sum(n, r) == 2.0 * Inner(n, c, t)
  {
    forall i | 0 <= i < n ensures r(i) == 2.0 * (c(i) * t(i)) + (-2.0 * dm) * c(i) {
      SquareTerm(c(i), t(i), dm);
    }
    SumLinear(n, 2.0, i => c(i) * t(i), -2.0 * dm, c, r);
  }

  lemma SquareTerm(c: real, t: real, dm: real)
    ensures 2.0 * c * (t - dm) == 2.0 * (c * t) + (-2.0 * dm) * c
  {
  }

  lemma DualVarianceParts(x: seq<Dual>)
    requires |x| > 0
    ensures DualVariance(x) == Dual(Variance(Values(x)), VarianceTangent(x))
  {
    var n, c, t := |x|, Centered(Values(x)), Entries(Tangents(x));
    var mean := DualMean(x);
    var f := i => Mul(Sub(DualAt(x, i), mean), Sub(DualAt(x, i), mean));
    forall i | 0 <= i < n ensures f(i) == SquareDual(c(i), t(i) - MeanTangent(x)) {
      DualSquare(x, i);
    }
    CenteredSumsToZero(Values(x));
    DualSquaresSum(n, f, c, t, MeanTangent(x));
  }

  /** The square of c with slope d. */
  function SquareDual(c: real, d: real): Dual {
    Dual(c * c, 2.0 * c * d)
  }

  lemma DualSquaresSum(n: nat, f: int -> Dual, c: int -> real, t: int -> real, dm: real)
    requires forall i :: 0 <= i < n ==> f(i) == SquareDual(c(i), t(i) - dm)
    requires Sum(n, c) == 0.0
    ensures DualSum(n, f) == Dual(Inner(n, c, c), 2.0 * Inner(n, c, t))
  {
    var slopes := i => 2.0 * c(i) * (t(i) - dm);
    DualSumParts(n, f, i => c(i) * c(i), slopes);
    SquaresTangent(n, c, t, dm, slopes);
  }

  lemma DualSquare(x: seq<Dual>, i: int)
    requires 0 <= i < |x|
    ensures var centered, c := Sub(DualAt(x, i), DualMean(x)), Centered(Values(x));
            Mul(centered, centered) == SquareDual(c(i), At(Tangents(x), i) - MeanTangent(x))
  {
    DualMeanParts(x);
    var c, d := Centered(Values(x))(i), At(Tangents(x), i) - MeanTangent(x);
    assert Sub(DualAt(x, i), DualMean(x)) == Dual(c, d);
    ProductRule(c, d);
  }

  lemma ProductRule(c: real, d: real)
    ensures d * c + c * d == 2.0 * c * d
  {
  }

  /** 1/sqrt on dual numbers has the slope the source computes. */
  lemma DualInverseParts(m: Elementary, x: seq<Dual>, eps: real)
    requires m.Valid() && |x| > 0 && eps > 0.0
    ensures var inverse := InverseStddev(m, Values(x), eps);
            DualInverse(m, x, eps) == Dual(inverse, InverseSlope(VarianceTangent(x), inverse))
  {
    DualVarianceParts(x);
    VarianceNonNegative(Values(x));
    var s, d := m.sqrt(Variance(Values(x)) + eps), VarianceTangent(x);
    InverseTangent(s, d);
  }

  lemma InverseTangent(s: real, d: real)
    requires s > 0.0
    ensures s * s != 0.0
    ensures (0.0 * s - 1.0 * (d / (2.0 * s))) / (s * s) == InverseSlope(d, 1.0 / s)
  {
    var q := 1.0 / s;
    DivisionUndone(1.0, s);
    NonZeroProduct(s, s, s * s);
    QuotientIs(d, 2.0 * s, 0.5 * d * q);
    CubedReciprocal(q, s, d);
    QuotientIs(0.0 * s - 1.0 * (d / (2.0 * s)), s * s, -0.5 * d * q * q * q);
  }

  lemma CubedReciprocal(q: real, s: real, d: real)
    requires q * s == 1.0
    ensures 0.5 * d * q * (2.0 * s) == d
    ensures -0.5 * d * q * q * q * (s * s) == -(0.5 * d * q)
  {
    var k := -0.5 * d * q;
    assert q * q * (s * s) == (q * s) * (q * s) == 1.0;
    assert k * q * q * (s * s) == k * (q * q * (s * s));
  }

  // ---------------------------------------------------------------- forward-mode derivative of one layer

  /** The tangents of the layer's output, in the closed form the source computes. */
  ghost function Tangent(m: Elementary, layer: Layer, x: seq<real>, dx: seq<real>): (dy: seq<real>)
    requires m.Valid() && layer.Valid() && layer.Accepts(|x|) && |dx| == |x|
    ensures |dy| == layer.OutputSize()
  {
    match layer
    case Linear(inputs, outputs, weight, bias) =>
      var product := Applied(|x|, WeightMatrix(layer), Entries(dx));
      seq(outputs, row requires 0 <= row < outputs => product(row))
    case LayerNorm(width, eps, gamma, beta) =>
      var mean, inverse, dmean := Mean(x), InverseStddev(m, x, eps), Mean(dx);
      var dvariance := VarianceTangent(Zip(x, dx));
      seq(width, i requires 0 <= i < width => TangentEntry(gamma[i], dx[i], dmean, inverse, x[i] - mean, dvariance))
    case SiLU(size) =>
      seq(size, i requires 0 <= i < size => dx[i] * SiluDerivative(m, x[i]))
  }

  lemma ZipParts(x: seq<real>, dx: seq<real>)
    requires |x| == |dx|
    ensures Values(Zip(x, dx)) == x && Tangents(Zip(x, dx)) == dx
  {
  }

  lemma NormTerm(x: real, dx: real, mean: real, dmean: real, inverse: real, dinverse: real, gamma: real, beta: real)
    ensures Add(Mul(Mul(Sub(Dual(x, dx), Dual(mean, dmean)), Dual(inverse, dinverse)), Const(gamma)), Const(beta))
         == Dual(Normalised(x, mean, inverse, gamma, beta), gamma * TangentTerm(dx, dmean, inverse, x - mean, dinverse))
  {
    var a := TangentTerm(dx, dmean, inverse, x - mean, dinverse);
    assert a * gamma + (x - mean) * inverse * 0.0 + 0.0 == gamma * a;
  }

  /** Running a layer on dual numbers gives the layer's value and the closed-form tangent. */
  lemma DualForwardParts(m: Elementary, layer: Layer, x: seq<real>, dx: seq<real>)
    requires m.Valid() && layer.Valid() && layer.Accepts(|x|) && |dx| == |x|
    ensures DualForward(m, layer, Zip(x, dx)) == Zip(Forward(m, layer, x), Tangent(m, layer, x, dx))
  {
    ZipParts(x, dx);
    var z, y, dy := Zip(x, dx), Forward(m, layer, x), Tangent(m, layer, x, dx);
    match layer
    case Linear(inputs, outputs, weight, bias) =>
      forall row | 0 <= row < outputs
        ensures DualForward(m, layer, z)[row] == Dual(y[row], dy[row])
      {
        LinearRowParts(layer, x, dx, row);
      }
    case LayerNorm(width, eps, gamma, beta) =>
      forall i | 0 <= i < width
        ensures DualForward(m, layer, z)[i] == Dual(y[i], dy[i])
      {
        NormParts(m, layer, x, dx, i);
      }
    case SiLU(size) =>
      forall i | 0 <= i < size
        ensures DualForward(m, layer, z)[i] == Dual(y[i], dy[i])
      {
        SiluSlope(m, z[i]);
      }
  }

  lemma NormParts(m: Elementary, layer: Layer, x: seq<real>, dx: seq<real>, i: int)
    requires m.Valid() && layer.Valid() && layer.LayerNorm? && layer.Accepts(|x|) && |dx| == |x| && 0 <= i < |x|
    ensures DualForward(m, layer, Zip(x, dx))[i] == Dual(Forward(m, layer, x)[i], Tangent(m, layer, x, dx)[i])
  {
    var z, mean, dmean, inverse := Zip(x, dx), Mean(x), Mean(dx), InverseStddev(m, x, layer.eps);
    var dinverse := InverseSlope(VarianceTangent(z), inverse);
    StatisticsParts(m, x, dx, layer.eps);
    NormDual(m, layer, z, i, Dual(x[i], dx[i]), Dual(mean, dmean), Dual(inverse, dinverse));
    NormTerm(x[i], dx[i], mean, dmean, inverse, dinverse, layer.gamma[i], layer.beta[i]);
    NormEntries(m, layer, x, dx, i, mean, dmean, inverse, dinverse);
  }

  lemma StatisticsParts(m: Elementary, x: seq<real>, dx: seq<real>, eps: real)
    requires m.Valid() && |x| == |dx| > 0 && eps > 0.0
    ensures var z, inverse := Zip(x, dx), InverseStddev(m, x, eps);
            && DualMean(z) == Dual(Mean(x), Mean(dx))
            && DualInverse(m, z, eps) == Dual(inverse, InverseSlope(VarianceTangent(z), inverse))
  {
    ZipParts(x, dx);
    DualMeanParts(Zip(x, dx));
    DualInverseParts(m, Zip(x, dx), eps);
  }

  lemma NormDual(m: Elementary, layer: Layer, z: seq<Dual>, i: int, entry: Dual, mean: Dual, inverse: Dual)
    requires m.Valid() && layer.Valid() && layer.LayerNorm? && layer.Accepts(|z|) && 0 <= i < |z|
    requires entry == z[i] && mean == DualMean(z) && inverse == DualInverse(m, z, layer.eps)
    ensures DualForward(m, layer, z)[i]
         == Add(Mul(Mul(Sub(entry, mean), inverse), Const(layer.gamma[i])), Const(layer.beta[i]))
  {
  }

  lemma NormEntries(m: Elementary, layer: Layer, x: seq<real>, dx: seq<real>, i: int, mean: real, dmean: real,
                    inverse: real, dinverse: real)
    requires m.Valid() && layer.Valid() && layer.LayerNorm? && layer.Accepts(|x|) && |dx| == |x| && 0 <= i < |x|
    requires mean == Mean(x) && dmean == Mean(dx) && inverse == InverseStddev(m, x, layer.eps)
    requires dinverse == InverseSlope(VarianceTangent(Zip(x, dx)), inverse)
    ensures Forward(m, layer, x)[i] == Normalised(x[i], mean, inverse, layer.gamma[i], layer.beta[i])
    ensures Tangent(m, layer, x, dx)[i] == layer.gamma[i] * TangentTerm(dx[i], dmean, inverse, x[i] - mean, dinverse)
  {
    assert Tangent(m, layer, x, dx)[i]
        == TangentEntry(layer.gamma[i], dx[i], Mean(dx), inverse, x[i] - Mean(x), VarianceTangent(Zip(x, dx)));
  }

  lemma ConstTimes(a: real, v: real, d: real)
    ensures Mul(Const(a), Dual(v, d)) == Dual(a * v, a * d)
  {
  }

  lemma LinearRowParts(layer: Layer, x: seq<real>, dx: seq<real>, row: int)
    requires layer.Linear? && layer.Valid() && layer.Accepts(|x|) && |dx| == |x| && 0 <= row < layer.outputs
    ensures var a, z := WeightMatrix(layer), Zip(x, dx);
            (Add(Const(layer.bias[row]), DualSum(|z|, c => Mul(Const(a(row, c)), DualAt(z, c))))
          == Dual(layer.bias[row] + Applied(|x|, a, Entries(x))(row), Applied(|x|, a, Entries(dx))(row)))
  {
    var a, z, e, de := WeightMatrix(layer), Zip(x, dx), Entries(x), Entries(dx);
    var f := c => Mul(Const(a(row, c)), DualAt(z, c));
    forall c | 0 <= c < |z| ensures f(c) == Dual(a(row, c) * e(c), a(row, c) * de(c)) {
      assert DualAt(z, c) == Dual(e(c), de(c));
      ConstTimes(a(row, c), e(c), de(c));
    }
    DualSumParts(|z|, f, c => a(row, c) * e(c), c => a(row, c) * de(c));
  }

  // ---------------------------------------------------------------- reverse mode of one layer

  /** The adjoint of the layer's input, given the adjoint w of its output. */
  ghost function PullBack(m: Elementary, layer: Layer, x: seq<real>, w: seq<real>): (r: seq<real>)
    requires m.Valid() && layer.Valid() && layer.Accepts(|x|) && |w| == layer.OutputSize()
    ensures |r| == |x|
  {
    match layer
    case Linear(inputs, outputs, weight, bias) =>
      var pulled := Pulled(outputs, WeightMatrix(layer), Entries(w));
      seq(|x|, column requires 0 <= column < |x| => pulled(column))
    case LayerNorm(width, eps, gamma, beta) =>
      var inverse, c, scaled := InverseStddev(m, x, eps), Centered(x), Products(Entries(w), Entries(gamma));
      var sumScaled := Sum(width, scaled);
      var sumScaledCentered := Inner(width, scaled, c);
      seq(width, i requires 0 <= i < width =>
        AdjointTerm(width as real, inverse, scaled(i), sumScaled, c(i), sumScaledCentered))
    case SiLU(size) =>
      seq(size, i requires 0 <= i < size => w[i] * SiluDerivative(m, x[i]))
  }

  ghost function Products(w: int -> real, gamma: int -> real): int -> real {
    i => w(i) * gamma(i)
  }

  /** Reverse mode is the transpose of forward mode: <w, J dx> = <J^T w, dx>. */
  lemma PullBackTransposes(m: Elementary, layer: Layer, x: seq<real>, dx: seq<real>, w: seq<real>)
    requires m.Valid() && layer.Valid() && layer.Accepts(|x|) && |dx| == |x| && |w| == layer.OutputSize()
    ensures Dot(w, Tangent(m, layer, x, dx)) == Dot(PullBack(m, layer, x, w), dx)
  {
    match layer
    case Linear(_, _, _, _) => LinearTransposes(m, layer, x, dx, w);
    case LayerNorm(_, _, _, _) => NormTransposes(m, layer, x, dx, w);
    case SiLU(_) => SiluTransposes(m, layer, x, dx, w);
  }

  lemma LinearTransposes(m: Elementary, layer: Layer, x: seq<real>, dx: seq<real>, w: seq<real>)
    requires m.Valid() && layer.Valid() && layer.Linear?
    requires layer.Accepts(|x|) && |dx| == |x| && |w| == layer.OutputSize()
    ensures Dot(w, Tangent(m, layer, x, dx)) == Dot(PullBack(m, layer, x, w), dx)
  {
    var a, y, r := WeightMatrix(layer), Tangent(m, layer, x, dx), PullBack(m, layer, x, w);
    MatrixTranspose(|w|, |x|, a, Entries(w), Entries(dx));
    InnerCong(|w|, Entries(w), Entries(y), Entries(w), Applied(|x|, a, Entries(dx)));
    InnerCong(|x|, Entries(r), Entries(dx), Pulled(|w|, a, Entries(w)), Entries(dx));
  }

  lemma SiluTransposes(m: Elementary, layer: Layer, x: seq<real>, dx: seq<real>, w: seq<real>)
    requires m.Valid() && layer.Valid() && layer.SiLU?
    requires layer.Accepts(|x|) && |dx| == |x| && |w| == layer.OutputSize()
    ensures Dot(w, Tangent(m, layer, x, dx)) == Dot(PullBack(m, layer, x, w), dx)
  {
    var y, r := Tangent(m, layer, x, dx), PullBack(m, layer, x, w);
    var ew, ey, er, ed := Entries(w), Entries(y), Entries(r), Entries(dx);
    forall i | 0 <= i < |w| ensures ew(i) * ey(i) == er(i) * ed(i) {
      SiluTerm(m, layer, x, dx, w, i);
    }
    SumCong(|w|, i => ew(i) * ey(i), i => er(i) * ed(i));
  }

  lemma SiluTerm(m: Elementary, layer: Layer, x: seq<real>, dx: seq<real>, w: seq<real>, i: int)
    requires m.Valid() && layer.Valid() && layer.SiLU? && 0 <= i < |w|
    requires layer.Accepts(|x|) && |dx| == |x| && |w| == layer.OutputSize()
    ensures w[i] * Tangent(m, layer, x, dx)[i] == PullBack(m, layer, x, w)[i] * dx[i]
  {
    SiluTransposed(w[i], dx[i], SiluDerivative(m, x[i]), Tangent(m, layer, x, dx)[i], PullBack(m, layer, x, w)[i]);
  }

  lemma SiluTransposed(w: real, dx: real, slope: real, y: real, r: real)
    requires y == dx * slope && r == w * slope
    ensures w * y == r * dx
  {
    Reassociate(w, dx, slope);
  }

  lemma Reassociate(a: real, b: real, c: real)
    ensures a * (b * c) == a * c * b
  {
  }

  lemma InnerWithOnes(n: nat, s: int -> real)
    ensures Inner(n, s, _ => 1.0) == Sum(n, s)
  {
    var one: int -> real := _ => 1.0;
    SumCong(n, i => s(i) * one(i), s);
  }

  /** The inner product of y with a*s + b + k*c. */
  lemma InnerOfThree(n: nat, y: int -> real, a: real, s: int -> real, b: real, k: real, c: int -> real, r: int -> real)
    requires forall i :: 0 <= i < n ==> r(i) == a * s(i) + (b + k * c(i))
    ensures Inner(n, y, r) == a * Inner(n, y, s) + (b * Sum(n, y) + k * Inner(n, y, c))
  {
    var tail := i => b * 1.0 + k * c(i);
    InnerLinear(n, y, a, s, 1.0, tail, r);
    InnerLinear(n, y, b, _ => 1.0, k, c, tail);
    InnerWithOnes(n, y);
  }

  // The sums that occur on both sides of LayerNorm's identity: with s the scaled adjoint, t the input tangent
  // and c the centred input, a = <s,t>, total = sum s, d = sum t, p = <c,t>, q = <s,c>.

  function TangentTerm(t: real, dm: real, inverse: real, c: real, dinverse: real): real {
    (t - dm) * inverse + c * dinverse
  }

  /** One entry of LayerNorm's output tangent. */
  function TangentEntry(gamma: real, t: real, dm: real, inverse: real, c: real, dv: real): real {
    gamma * TangentTerm(t, dm, inverse, c, InverseSlope(dv, inverse))
  }

  function AdjointTerm(n: real, inverse: real, s: real, total: real, c: real, q: real): real
    requires n != 0.0
  {
    inverse * (n * s - total - c * inverse * (inverse * q)) / n
  }

  lemma TangentTermSplit(t: real, dm: real, inverse: real, c: real, dinverse: real)
    ensures TangentTerm(t, dm, inverse, c, dinverse) == inverse * t + (-(dm * inverse) + dinverse * c)
  {
  }

  lemma AdjointTermSplit(n: real, u: real, inverse: real, s: real, total: real, c: real, q: real)
    requires n != 0.0 && u * n == inverse
    ensures AdjointTerm(n, inverse, s, total, c, q)
         == inverse * s + (-(u * total) + -(u * inverse * (inverse * q)) * c)
  {
    var normalized := inverse * q;
    var x := u * (n * s - total - c * inverse * normalized);
    assert x * n == inverse * (n * s - total - c * inverse * normalized);
    QuotientIs(inverse * (n * s - total - c * inverse * normalized), n, x);
    assert u * (c * inverse * normalized) == u * inverse * normalized * c;
    assert u * (n * s) == inverse * s;
  }

  /** The identity itself, on the gathered sums. */
  lemma NormScalars(n: real, u: real, inverse: real, total: real, d: real, p: real, q: real, dm: real, dv: real,
                    dinverse: real, b: real, a: real, k: real)
    requires u * n == inverse && dm * n == d && dv * n == 2.0 * p
    requires dinverse == InverseSlope(dv, inverse) && b == -(dm * inverse)
    requires a == -(u * total) && k == -(u * inverse * (inverse * q))
    ensures b * total + dinverse * q == a * d + k * p
  {
    assert dm * inverse * total == u * total * (dm * n);
    assert dv * inverse == u * (dv * n);
    assert -0.5 * dv * inverse * inverse * inverse * q == -0.5 * (dv * inverse) * inverse * inverse * q;
    assert -0.5 * (u * (2.0 * p)) * inverse * inverse * q == -(u * inverse * (inverse * q)) * p;
  }

  lemma ForwardSide(n: nat, s: int -> real, t: int -> real, c: int -> real, dm: real, inverse: real, dv: real,
                    dinverse: real, b: real, w: int -> real, gamma: int -> real, y: int -> real)
    requires dinverse == InverseSlope(dv, inverse) && b == -(dm * inverse)
    requires s == Products(w, gamma)
    requires IsTangent(n, y, gamma, t, dm, inverse, c, dv)
    ensures Inner(n, w, y) == inverse * Inner(n, s, t) + (b * Sum(n, s) + dinverse * Inner(n, s, c))
  {
    var r := i => TangentTerm(t(i), dm, inverse, c(i), dinverse);
    forall i | 0 <= i < n ensures w(i) * y(i) == s(i) * r(i) {
      Reassociated(w(i), gamma(i), r(i), y(i), s(i));
    }
    SumCong(n, i => w(i) * y(i), i => s(i) * r(i));
    forall i | 0 <= i < n ensures r(i) == inverse * t(i) + (b + dinverse * c(i)) {
      TangentTermSplit(t(i), dm, inverse, c(i), dinverse);
    }
    InnerOfThree(n, s, inverse, t, b, dinverse, c, r);
  }

  lemma Reassociated(a: real, b: real, c: real, bc: real, ab: real)
    requires bc == b * c && ab == a * b
    ensures a * bc == ab * c
  {
  }

  lemma ReverseSide(n: nat, N: real, u: real, s: int -> real, t: int -> real, c: int -> real,
                    inverse: real, total: real, q: real, a: real, k: real, r: int -> real)
    requires N != 0.0 && u * N == inverse
    requires a == -(u * total) && k == -(u * inverse * (inverse * q))
    requires forall i :: 0 <= i < n ==> r(i) == AdjointTerm(N, inverse, s(i), total, c(i), q)
    ensures Inner(n, r, t) == inverse * Inner(n, s, t) + (a * Sum(n, t) + k * Inner(n, c, t))
  {
    forall i | 0 <= i < n ensures r(i) == inverse * s(i) + (a + k * c(i)) {
      AdjointTermSplit(N, u, inverse, s(i), total, c(i), q);
    }
    InnerOfThree(n, t, inverse, s, a, k, c, r);
    InnerSymmetric(n, r, t);
    InnerSymmetric(n, s, t);
    InnerSymmetric(n, c, t);
  }

  /** y holds the formula's tangents, r its adjoints. */
  ghost predicate IsTangent(n: nat, y: int -> real, gamma: int -> real, t: int -> real, dm: real, inverse: real,
                            c: int -> real, dv: real)
  {
    forall i :: 0 <= i < n ==> y(i) == TangentEntry(gamma(i), t(i), dm, inverse, c(i), dv)
  }

  ghost predicate IsAdjoint(n: nat, N: real, r: int -> real, inverse: real, s: int -> real, c: int -> real)
    requires N != 0.0
  {
    var total, q := Sum(n, s), Inner(n, s, c);
    forall i :: 0 <= i < n ==> r(i) == AdjointTerm(N, inverse, s(i), total, c(i), q)
  }

  lemma NormTangentEntry(m: Elementary, layer: Layer, x: seq<real>, dx: seq<real>, i: int)
    requires m.Valid() && layer.Valid() && layer.LayerNorm? && layer.Accepts(|x|) && |dx| == |x| && 0 <= i < |x|
    ensures var inverse, dv := InverseStddev(m, x, layer.eps), VarianceTangent(Zip(x, dx));
            (At(Tangent(m, layer, x, dx), i)
          == TangentEntry(At(layer.gamma, i), At(dx, i), Mean(dx), inverse, Centered(x)(i), dv))
  {
    assert Centered(x)(i) == x[i] - Mean(x);
  }

  lemma NormAdjointEntry(m: Elementary, layer: Layer, x: seq<real>, w: seq<real>, i: int)
    requires m.Valid() && layer.Valid() && layer.LayerNorm? && layer.Accepts(|x|) && |w| == |x| && 0 <= i < |x|
    ensures var n, s, c := |x|, Products(Entries(w), Entries(layer.gamma)), Centered(x);
            var inverse := InverseStddev(m, x, layer.eps);
            (At(PullBack(m, layer, x, w), i)
          == AdjointTerm(n as real, inverse, s(i), Sum(n, s), c(i), Inner(n, s, c)))
  {
  }

  lemma NormTangentEntries(m: Elementary, layer: Layer, x: seq<real>, dx: seq<real>)
    requires m.Valid() && layer.Valid() && layer.LayerNorm? && layer.Accepts(|x|) && |dx| == |x|
    ensures var inverse, dv := InverseStddev(m, x, layer.eps), VarianceTangent(Zip(x, dx));
            var y, t, c := Entries(Tangent(m, layer, x, dx)), Entries(dx), Centered(x);
            IsTangent(|x|, y, Entries(layer.gamma), t, Mean(dx), inverse, c, dv)
  {
    forall i | 0 <= i < |x| {
      NormTangentEntry(m, layer, x, dx, i);
    }
  }

  lemma NormAdjointEntries(m: Elementary, layer: Layer, x: seq<real>, w: seq<real>)
    requires m.Valid() && layer.Valid() && layer.LayerNorm? && layer.Accepts(|x|) && |w| == |x|
    ensures var n, s, c := |x|, Products(Entries(w), Entries(layer.gamma)), Centered(x);
            var inverse, r := InverseStddev(m, x, layer.eps), Entries(PullBack(m, layer, x, w));
            IsAdjoint(n, n as real, r, inverse, s, c)
  {
    forall i | 0 <= i < |x| {
      NormAdjointEntry(m, layer, x, w, i);
    }
  }

  lemma NormTransposes(m: Elementary, layer: Layer, x: seq<real>, dx: seq<real>, w: seq<real>)
    requires m.Valid() && layer.Valid() && layer.LayerNorm?
    requires layer.Accepts(|x|) && |dx| == |x| && |w| == layer.OutputSize()
    ensures Dot(w, Tangent(m, layer, x, dx)) == Dot(PullBack(m, layer, x, w), dx)
  {
    NormTangentEntries(m, layer, x, dx);
    NormAdjointEntries(m, layer, x, w);
    NormPassesAgree(x, dx, InverseStddev(m, x, layer.eps), Entries(w), Entries(layer.gamma),
                    Entries(Tangent(m, layer, x, dx)), Entries(PullBack(m, layer, x, w)));
  }

  lemma NormPassesAgree(x: seq<real>, dx: seq<real>, inverse: real,
                        w: int -> real, gamma: int -> real, y: int -> real, r: int -> real)
    requires |x| == |dx| > 0
    requires IsTangent(|x|, y, gamma, Entries(dx), Mean(dx), inverse, Centered(x), VarianceTangent(Zip(x, dx)))
    requires IsAdjoint(|x|, |x| as real, r, inverse, Products(w, gamma), Centered(x))
    ensures Inner(|x|, w, y) == Inner(|x|, r, Entries(dx))
  {
    var u := QuotientsCleared(x, dx, inverse);
    NormIdentity(|x|, |x| as real, u, Products(w, gamma), Entries(dx), Centered(x), Mean(dx),
                 VarianceTangent(Zip(x, dx)), inverse, w, gamma, y, r);
  }

  /** u, dm and dv are quotients by N of inverse, a sum and twice an inner product. */
  ghost predicate Cleared(N: real, u: real, inverse: real, dm: real, sum: real, dv: real, product: real) {
    u * N == inverse && dm * N == sum && dv * N == 2.0 * product
  }

  lemma QuotientsCleared(x: seq<real>, dx: seq<real>, inverse: real) returns (u: real)
    requires |x| == |dx| > 0
    ensures Cleared(|x| as real, u, inverse, Mean(dx), Sum(|x|, Entries(dx)), VarianceTangent(Zip(x, dx)),
                    Inner(|x|, Centered(x), Entries(dx)))
  {
    ZipParts(x, dx);
    u := inverse / |x| as real;
    DivisionUndone(inverse, |x| as real);
    DivisionUndone(Sum(|x|, Entries(dx)), |x| as real);
    DivisionUndone(2.0 * Inner(|x|, Centered(x), Entries(dx)), |x| as real);
  }

  /** Both sides assembled: the two inner products agree. */
  lemma NormIdentity(n: nat, N: real, u: real, s: int -> real, t: int -> real, c: int -> real,
                     dm: real, dv: real, inverse: real,
                     w: int -> real, gamma: int -> real, y: int -> real, r: int -> real)
    requires N != 0.0 && Cleared(N, u, inverse, dm, Sum(n, t), dv, Inner(n, c, t))
    requires s == Products(w, gamma)
    requires IsTangent(n, y, gamma, t, dm, inverse, c, dv) && IsAdjoint(n, N, r, inverse, s, c)
    ensures Inner(n, w, y) == Inner(n, r, t)
  {
    var dinverse, b := InverseSlope(dv, inverse), -(dm * inverse);
    var total, q := Sum(n, s), Inner(n, s, c);
    var a, k := -(u * total), -(u * inverse * (inverse * q));
    ForwardSide(n, s, t, c, dm, inverse, dv, dinverse, b, w, gamma, y);
    ReverseSide(n, N, u, s, t, c, inverse, total, q, a, k, r);
    NormScalars(N, u, inverse, total, Sum(n, t), Inner(n, c, t), q, dm, dv, dinverse, b, a, k);
  }
}
