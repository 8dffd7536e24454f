/** The per-sample passes of the CPU network (libsymmetrix/source/affine_mlp.cpp), loop by loop. */
module AffineMlp {
  import opened Results
  import opened FiniteSums
  import opened FlatIndex
  import opened DualNumbers
  import opened AffineLayers
  import opened AffineNetworks

  datatype MlpError = InvalidArgument

  // ---------------------------------------------------------------- single-layer loops

  /** One row: start plus the products of the row's leading |x| columns. */
  method RowProduct(layer: Layer, x: seq<real>, row: nat, start: real) returns (value: real)
    requires layer.Linear? && layer.Valid() && layer.Accepts(|x|) && row < layer.outputs
    ensures value == start + Applied(|x|, WeightMatrix(layer), Entries(x))(row)
  {
    ghost var a, e := WeightMatrix(layer), Entries(x);
    value := start;
    for column := 0 to |x|
      invariant value == start + Sum(column, c => a(row, c) * e(c))
    {
      OffsetBound(row, layer.outputs, layer.inputs, column);
      var weight := layer.weight[row * layer.inputs + column];
      assert weight == a(row, column) && x[column] == e(column);
      value := value + weight * x[column];
    }
  }

  /** Row `row` of the column block starting at `offset`, times `values`. */
  method BlockRow(layer: Layer, offset: nat, values: seq<real>, row: nat) returns (value: real)
    requires layer.Linear? && layer.Valid() && row < layer.outputs && offset + |values| <= layer.inputs
    ensures value == Contribution(layer, offset, values)[row]
  {
    ghost var a := WeightMatrix(layer);
    value := 0.0;
    for column := 0 to |values|
      invariant value == Sum(column, c => a(row, offset + c) * At(values, c))
    {
      OffsetBound(row, layer.outputs, layer.inputs, offset + column);
      var weight := layer.weight[row * layer.inputs + offset + column];
      assert weight == a(row, offset + column) && values[column] == At(values, column);
      value := value + weight * values[column];
    }
  }

  /** start + W x over the leading |x| columns; the rows of W keep their full length. */
  method LinearForward(layer: Layer, x: seq<real>, start: seq<real>) returns (y: seq<real>)
    requires layer.Linear? && layer.Valid() && layer.Accepts(|x|) && |start| == layer.outputs
    ensures |y| == layer.outputs
    ensures forall row :: 0 <= row < layer.outputs ==>
              y[row] == start[row] + Applied(|x|, WeightMatrix(layer), Entries(x))(row)
  {
    y := start;
    for row := 0 to layer.outputs
      invariant |y| == layer.outputs
      invariant forall k :: 0 <= k < row ==> y[k] == start[k] + Applied(|x|, WeightMatrix(layer), Entries(x))(k)
      invariant forall k :: row <= k < layer.outputs ==> y[k] == start[k]
    {
      var value := RowProduct(layer, x, row, y[row]);
      y := y[row := value];
    }
  }

  method NormStatistics(x: seq<real>) returns (mean: real, variance: real)
    requires |x| > 0
    ensures mean == Mean(x) && variance == Variance(x)
  {
    mean := 0.0;
    for i := 0 to |x|
      invariant mean == Sum(i, Entries(x))
    {
      mean := mean + x[i];
    }
    mean := mean / |x| as real;
    variance := 0.0;
    ghost var c := Centered(x);
    for i := 0 to |x|
      invariant variance == Inner(i, c, c)
    {
      assert x[i] - mean == c(i);
      variance := variance + (x[i] - mean) * (x[i] - mean);
    }
    variance := variance / |x| as real;
  }

  method InverseOf(m: Elementary, x: seq<real>, variance: real, eps: real) returns (inverse: real)
    requires m.Valid() && |x| > 0 && variance == Variance(x) && eps > 0.0
    ensures inverse == InverseStddev(m, x, eps)
  {
    VarianceNonNegative(x);
    inverse := 1.0 / m.sqrt(variance + eps);
  }

  /** LayerNorm, overwriting the values in place. */
  method NormForward(m: Elementary, layer: Layer, x: seq<real>) returns (y: seq<real>)
    requires m.Valid() && layer.LayerNorm? && layer.Valid() && layer.Accepts(|x|)
    ensures y == Forward(m, layer, x)
  {
    var mean, variance := NormStatistics(x);
    var inverse := InverseOf(m, x, variance, layer.eps);
    y := x;
    for i := 0 to layer.width
      invariant |y| == layer.width
      invariant forall k :: 0 <= k < i ==> y[k] == Forward(m, layer, x)[k]
      invariant forall k :: i <= k < layer.width ==> y[k] == x[k]
    {
      var value := NormEntry(y[i], mean, inverse, layer.gamma[i], layer.beta[i]);
      y := y[i := value];
    }
  }

  method NormEntry(x: real, mean: real, inverse: real, gamma: real, beta: real) returns (value: real)
    ensures value == Normalised(x, mean, inverse, gamma, beta)
  {
    value := (x - mean) * inverse * gamma + beta;
  }

  method SiluForward(m: Elementary, layer: Layer, x: seq<real>) returns (y: seq<real>)
    requires m.Valid() && layer.SiLU? && layer.Valid() && layer.Accepts(|x|)
    ensures y == Forward(m, layer, x)
  {
    y := x;
    for i := 0 to |x|
      invariant |y| == |x|
      invariant forall k :: 0 <= k < i ==> y[k] == Silu(m, x[k])
      invariant forall k :: i <= k < |x| ==> y[k] == x[k]
    {
      y := y[i := y[i] / (1.0 + m.exp(-y[i]))];
    }
  }

  /** W^T w over the leading columns. */
  method LinearReverse(layer: Layer, columns: nat, w: seq<real>) returns (r: seq<real>)
    requires layer.Linear? && layer.Valid() && layer.Accepts(columns) && |w| == layer.outputs
    ensures |r| == columns
    ensures forall column :: 0 <= column < columns ==>
              r[column] == Pulled(layer.outputs, WeightMatrix(layer), Entries(w))(column)
  {
    ghost var a, e := WeightMatrix(layer), Entries(w);
    r := seq(columns, _ => 0.0);
    for row := 0 to layer.outputs
      invariant |r| == columns
      invariant forall c :: 0 <= c < columns ==> r[c] == Sum(row, i => a(i, c) * e(i))
    {
      for column := 0 to columns
        invariant |r| == columns
        invariant forall c :: 0 <= c < column ==> r[c] == Sum(row + 1, i => a(i, c) * e(i))
        invariant forall c :: column <= c < columns ==> r[c] == Sum(row, i => a(i, c) * e(i))
      {
        OffsetBound(row, layer.outputs, layer.inputs, column);
        var weight := layer.weight[row * layer.inputs + column];
        assert weight == a(row, column) && w[row] == e(row);
        r := r[column := r[column] + weight * w[row]];
      }
    }
  }

  /** The normalised inputs, the scaled adjoints and their two sums. */
  method ScaledAdjoints(layer: Layer, x: seq<real>, w: seq<real>, mean: real, inverse: real)
    returns (normalized: seq<real>, scaled: seq<real>, sumScaled: real, sumScaledNormalized: real)
    requires layer.LayerNorm? && layer.Valid() && layer.Accepts(|x|) && |w| == |x| && mean == Mean(x)
    ensures |normalized| == |scaled| == |x|
    ensures var s, c := Products(Entries(w), Entries(layer.gamma)), Centered(x);
            && (forall k :: 0 <= k < |x| ==> normalized[k] == Scale(c(k), inverse) && scaled[k] == s(k))
            && sumScaled == Sum(|x|, s) && sumScaledNormalized == Scale(inverse, Inner(|x|, s, c))
  {
    normalized, scaled := seq(|x|, _ => 0.0), seq(|x|, _ => 0.0);
    sumScaled, sumScaledNormalized := 0.0, 0.0;
    ghost var s, c := Products(Entries(w), Entries(layer.gamma)), Centered(x);
    for i := 0 to |x|
      invariant |normalized| == |scaled| == |x|
      invariant forall k :: 0 <= k < i ==> normalized[k] == Scale(c(k), inverse)
      invariant forall k :: 0 <= k < i ==> scaled[k] == s(k)
      invariant sumScaled == Sum(i, s)
      invariant sumScaledNormalized == Scale(inverse, Inner(i, s, c))
    {
      var normal, scale, product := Entry(x[i], w[i], layer.gamma[i], mean, inverse);
      normalized, scaled := normalized[i := normal], scaled[i := scale];
      ScaledSums(layer, x, w, i, inverse, normal, scale, product);
      sumScaled := sumScaled + scale;
      sumScaledNormalized := sumScaledNormalized + product;
    }
  }

  method Entry(x: real, w: real, gamma: real, mean: real, inverse: real)
    returns (normal: real, scale: real, product: real)
    ensures normal == Scale(x - mean, inverse) && scale == Scale(w, gamma) && product == Scale(scale, normal)
  {
    normal, scale := (x - mean) * inverse, w * gamma;
    product := scale * normal;
  }

  /** One more entry in the two sums. */
  lemma ScaledSums(layer: Layer, x: seq<real>, w: seq<real>, i: nat, inverse: real, normal: real, scale: real,
                   product: real)
    requires layer.LayerNorm? && layer.Valid() && layer.Accepts(|x|) && |w| == |x| && i < |x|
    requires normal == Scale(x[i] - Mean(x), inverse) && scale == Scale(w[i], layer.gamma[i])
    requires product == Scale(scale, normal)
    ensures var s, c := Products(Entries(w), Entries(layer.gamma)), Centered(x);
            && scale == s(i) && normal == Scale(c(i), inverse) && Sum(i + 1, s) == Sum(i, s) + scale
            && Scale(inverse, Inner(i + 1, s, c)) == Scale(inverse, Inner(i, s, c)) + product
  {
    var s, c := Products(Entries(w), Entries(layer.gamma)), Centered(x);
    NormalizedTerm(inverse, Inner(i, s, c), s(i), c(i), normal);
    var terms := k => s(k) * c(k);
    assert Sum(i + 1, terms) == Sum(i, terms) + terms(i);
  }

  /** The reverse of LayerNorm, overwriting the adjoint in place. */
  method NormReverse(m: Elementary, layer: Layer, x: seq<real>, w: seq<real>) returns (r: seq<real>)
    requires m.Valid() && layer.LayerNorm? && layer.Valid() && layer.Accepts(|x|) && |w| == |x|
    ensures r == PullBack(m, layer, x, w)
  {
    var width := layer.width;
    var mean, variance := NormStatistics(x);
    var inverse := InverseOf(m, x, variance, layer.eps);
    var normalized, scaled, sumScaled, sumScaledNormalized := ScaledAdjoints(layer, x, w, mean, inverse);
    ghost var s, c := Products(Entries(w), Entries(layer.gamma)), Centered(x);
    r := w;
    for i := 0 to width
      invariant |r| == width
      invariant forall k :: 0 <= k < i ==>
                  r[k] == AdjointTerm(width as real, inverse, s(k), Sum(width, s), c(k), Inner(width, s, c))
    {
      var adjoint := AdjointEntry(width as real, inverse, scaled[i], sumScaled, normalized[i], sumScaledNormalized,
                                  c(i), Inner(width, s, c));
      r := r[i := adjoint];
    }
    NormAdjointEntries(m, layer, x, w);
    assert forall k :: 0 <= k < width ==> r[k] == Entries(PullBack(m, layer, x, w))(k);
  }

  method AdjointEntry(n: real, inverse: real, s: real, total: real, normalized: real, sum: real, ghost c: real,
                      ghost q: real)
    returns (r: real)
    requires n != 0.0 && normalized == Scale(c, inverse) && sum == Scale(inverse, q)
    ensures r == AdjointTerm(n, inverse, s, total, c, q)
  {
    r := inverse * (n * s - total - normalized * sum) / n;
  }

  function Scale(a: real, b: real): real {
    a * b
  }

  lemma NormalizedTerm(inverse: real, q: real, s: real, c: real, normal: real)
    requires normal == Scale(c, inverse)
    ensures Scale(inverse, q) + s * normal == Scale(inverse, q + s * c)
  {
  }

  method SiluReverse(m: Elementary, layer: Layer, x: seq<real>, w: seq<real>) returns (r: seq<real>)
    requires m.Valid() && layer.SiLU? && layer.Valid() && layer.Accepts(|x|) && |w| == |x|
    ensures r == PullBack(m, layer, x, w)
  {
    r := w;
    for i := 0 to |w|
      invariant |r| == |w|
      invariant forall k :: 0 <= k < i ==> r[k] == PullBack(m, layer, x, w)[k]
      invariant forall k :: i <= k < |w| ==> r[k] == w[k]
    {
      r := r[i := r[i] * SiluDerivative(m, x[i])];
    }
  }

  // ---------------------------------------------------------------- forward-mode loops

  method NormTangentStatistics(x: seq<real>, dx: seq<real>)
    returns (mean: real, dmean: real, variance: real, dvariance: real)
    requires |x| == |dx| > 0
    ensures mean == Mean(x) && dmean == Mean(dx) && variance == Variance(x)
    ensures dvariance == VarianceTangent(Zip(x, dx))
  {
    mean, dmean := 0.0, 0.0;
    for i := 0 to |x|
      invariant mean == Sum(i, Entries(x)) && dmean == Sum(i, Entries(dx))
    {
      mean := mean + x[i];
      dmean := dmean + dx[i];
    }
    mean, dmean := mean / |x| as real, dmean / |x| as real;
    variance, dvariance := TangentSquares(x, dx, mean, dmean);
    variance, dvariance := variance / |x| as real, dvariance / |x| as real;
    TangentSums(x, dx);
  }

  /** The second loop: squares and their derivative. */
  method TangentSquares(x: seq<real>, dx: seq<real>, mean: real, dmean: real) returns (squares: real, dsquares: real)
    requires |x| == |dx| > 0 && mean == Mean(x)
    ensures squares == Inner(|x|, Centered(x), Centered(x)) && dsquares == 2.0 * Inner(|x|, Centered(x), Entries(dx))
  {
    squares, dsquares := 0.0, 0.0;
    ghost var c, t := Centered(x), Entries(dx);
    ghost var slopes := i => TwiceProduct(c(i), t(i) - dmean);
    for i := 0 to |x|
      invariant squares == Inner(i, c, c) && dsquares == Sum(i, slopes)
    {
      var square, dsquare := SquareEntry(x[i] - mean, dx[i] - dmean);
      SquareSums(x, dx, i, dmean, slopes, square, dsquare);
      squares := squares + square;
      dsquares := dsquares + dsquare;
    }
    CenteredSumsToZero(x);
    SquaresTangent(|x|, c, t, dmean, slopes);
  }

  method SquareEntry(centered: real, slope: real) returns (square: real, dsquare: real)
    ensures square == Scale(centered, centered) && dsquare == TwiceProduct(centered, slope)
  {
    square, dsquare := centered * centered, 2.0 * centered * slope;
  }

  /** One more entry in the two sums. */
  lemma SquareSums(x: seq<real>, dx: seq<real>, i: nat, dmean: real, slopes: int -> real, square: real, dsquare: real)
    requires |x| == |dx| && i < |x|
    requires slopes(i) == TwiceProduct(Centered(x)(i), Entries(dx)(i) - dmean)
    requires square == Scale(x[i] - Mean(x), x[i] - Mean(x)) && dsquare == TwiceProduct(x[i] - Mean(x), dx[i] - dmean)
    ensures Inner(i + 1, Centered(x), Centered(x)) == Inner(i, Centered(x), Centered(x)) + square
    ensures Sum(i + 1, slopes) == Sum(i, slopes) + dsquare
  {
    var c := Centered(x);
    assert c(i) == x[i] - Mean(x);
    var terms := k => c(k) * c(k);
    assert Sum(i + 1, terms) == Sum(i, terms) + terms(i);
  }

  function TwiceProduct(c: real, d: real): real {
    2.0 * c * d
  }

  lemma TangentSums(x: seq<real>, dx: seq<real>)
    requires |x| == |dx| > 0
    ensures VarianceTangent(Zip(x, dx)) == 2.0 * Inner(|x|, Centered(x), Entries(dx)) / |x| as real
  {
    ZipParts(x, dx);
  }

  method NormTangentPass(m: Elementary, layer: Layer, x: seq<real>, dx: seq<real>) returns (y: seq<real>, dy: seq<real>)
    requires m.Valid() && layer.LayerNorm? && layer.Valid() && layer.Accepts(|x|) && |dx| == |x|
    ensures y == Forward(m, layer, x) && dy == Tangent(m, layer, x, dx)
  {
    var mean, dmean, variance, dvariance := NormTangentStatistics(x, dx);
    var inverse := InverseOf(m, x, variance, layer.eps);
    var dinverse := SlopeOfInverse(dvariance, inverse);
    y, dy := NormTangentLoop(layer, x, dx, mean, dmean, inverse, dinverse, dvariance);
    NormValuesAre(m, layer, x, y, mean, inverse);
    NormSlopesAre(m, layer, x, dx, dy, mean, dmean, inverse, dvariance);
  }

  method SlopeOfInverse(dvariance: real, inverse: real) returns (dinverse: real)
    ensures dinverse == InverseSlope(dvariance, inverse)
  {
    dinverse := -0.5 * dvariance * inverse * inverse * inverse;
  }

  method NormTangentLoop(layer: Layer, x: seq<real>, dx: seq<real>, mean: real, dmean: real, inverse: real,
                         dinverse: real,
                         ghost dvariance: real)
    returns (y: seq<real>, dy: seq<real>)
    requires layer.LayerNorm? && layer.Valid() && layer.Accepts(|x|) && |dx| == |x|
    requires dinverse == InverseSlope(dvariance, inverse)
    ensures AreNormalised(layer, x, y, mean, inverse)
    ensures AreNormSlopes(layer, x, dx, dy, mean, dmean, inverse, dvariance)
  {
    y, dy := x, dx;
    for i := 0 to layer.width
      invariant |y| == |dy| == layer.width
      invariant forall k :: 0 <= k < i ==> y[k] == Normalised(x[k], mean, inverse, layer.gamma[k], layer.beta[k])
      invariant forall k :: 0 <= k < i ==>
                  dy[k] == TangentEntry(layer.gamma[k], dx[k], dmean, inverse, x[k] - mean, dvariance)
      invariant forall k :: i <= k < layer.width ==> y[k] == x[k] && dy[k] == dx[k]
    {
      var value, slope := NormTangentAt(layer, y[i], dy[i], i, mean, dmean, inverse, dinverse, dvariance);
      y, dy := y[i := value], dy[i := slope];
    }
  }

  ghost predicate AreNormalised(layer: Layer, x: seq<real>, y: seq<real>, mean: real, inverse: real)
    requires layer.LayerNorm? && layer.Valid() && layer.Accepts(|x|)
  {
    |y| == |x| && forall k :: 0 <= k < |x| ==> y[k] == Normalised(x[k], mean, inverse, layer.gamma[k], layer.beta[k])
  }

  ghost predicate AreNormSlopes(layer: Layer, x: seq<real>, dx: seq<real>, dy: seq<real>, mean: real, dmean: real,
                                inverse: real, dvariance: real)
    requires layer.LayerNorm? && layer.Valid() && layer.Accepts(|x|)
  {
    && |dx| == |dy| == |x|
    && forall k :: 0 <= k < |x| ==> dy[k] == TangentEntry(layer.gamma[k], dx[k], dmean, inverse, x[k] - mean, dvariance)
  }

  lemma NormValuesAre(m: Elementary, layer: Layer, x: seq<real>, y: seq<real>, mean: real, inverse: real)
    requires m.Valid() && layer.LayerNorm? && layer.Valid() && layer.Accepts(|x|)
    requires mean == Mean(x) && inverse == InverseStddev(m, x, layer.eps) && AreNormalised(layer, x, y, mean, inverse)
    ensures y == Forward(m, layer, x)
  {
  }

  lemma NormSlopesAre(m: Elementary, layer: Layer, x: seq<real>, dx: seq<real>, dy: seq<real>, mean: real, dmean: real,
                      inverse: real, dvariance: real)
    requires m.Valid() && layer.LayerNorm? && layer.Valid() && layer.Accepts(|x|) && |dx| == |x|
    requires mean == Mean(x) && dmean == Mean(dx) && inverse == InverseStddev(m, x, layer.eps)
    requires dvariance == VarianceTangent(Zip(x, dx))
    requires AreNormSlopes(layer, x, dx, dy, mean, dmean, inverse, dvariance)
    ensures dy == Tangent(m, layer, x, dx)
  {
  }

  method NormTangentAt(layer: Layer, x: real, dx: real, i: nat, mean: real, dmean: real,
                       inverse: real, dinverse: real, ghost dvariance: real) returns (value: real, slope: real)
    requires layer.LayerNorm? && layer.Valid() && i < layer.width && dinverse == InverseSlope(dvariance, inverse)
    ensures value == Normalised(x, mean, inverse, layer.gamma[i], layer.beta[i])
    ensures slope == TangentEntry(layer.gamma[i], dx, dmean, inverse, x - mean, dvariance)
  {
    var centered := x - mean;
    value := centered * inverse * layer.gamma[i] + layer.beta[i];
    slope := layer.gamma[i] * ((dx - dmean) * inverse + centered * dinverse);
  }

  method SiluTangentPass(m: Elementary, layer: Layer, x: seq<real>, dx: seq<real>) returns (y: seq<real>, dy: seq<real>)
    requires m.Valid() && layer.SiLU? && layer.Valid() && layer.Accepts(|x|) && |dx| == |x|
    ensures y == Forward(m, layer, x) && dy == Tangent(m, layer, x, dx)
  {
    y, dy := x, dx;
    for i := 0 to |x|
      invariant |y| == |dy| == |x|
      invariant forall k :: 0 <= k < i ==> y[k] == Forward(m, layer, x)[k] && dy[k] == Tangent(m, layer, x, dx)[k]
      invariant forall k :: i <= k < |x| ==> y[k] == x[k] && dy[k] == dx[k]
    {
      dy := dy[i := dy[i] * SiluDerivative(m, y[i])];
      y := y[i := y[i] / (1.0 + m.exp(-y[i]))];
    }
  }

  // ---------------------------------------------------------------- whole passes

  /** How the first layer's bias is extended. */
  datatype Conditioning = Unconditioned | Contributions(first: seq<real>, second: seq<real>)

  /** tape[k] is the input of layer k; the first `done` layers have been recorded. */
  ghost predicate IsTape(m: Elementary, layers: seq<Layer>, tape: seq<seq<real>>, x: seq<real>, done: nat) {
    && m.Valid() && done <= |layers| && |tape| == done + 1 && tape[0] == x
    && (forall k :: 0 <= k <= done ==> Fits(layers[k..], |tape[k]|))
    && (forall k :: 0 <= k < done ==> StepsTo(m, layers[k], tape[k], tape[k + 1]))
  }

  ghost predicate StepsTo(m: Elementary, layer: Layer, x: seq<real>, y: seq<real>) {
    m.Valid() && layer.Valid() && layer.Accepts(|x|) && y == Forward(m, layer, x)
  }

  lemma TapeExtended(m: Elementary, layers: seq<Layer>, tape: seq<seq<real>>, x: seq<real>, k: nat, y: seq<real>)
    requires k < |layers| && IsTape(m, layers, tape, x, k)
    requires StepsTo(m, layers[k], tape[k], y)
    ensures IsTape(m, layers, tape + [y], x, k + 1)
  {
    SuffixStep(m, layers, k, tape[k]);
    var longer := tape + [y];
    forall j | 0 <= j <= k + 1 ensures Fits(layers[j..], |longer[j]|) {
      if j <= k { assert longer[j] == tape[j]; }
    }
    forall j | 0 <= j < k + 1 ensures StepsTo(m, layers[j], longer[j], longer[j + 1]) {
      if j < k { assert longer[j] == tape[j] && longer[j + 1] == tape[j + 1]; }
    }
  }

  datatype AffineMLP = AffineMLP(m: Elementary, layers: seq<Layer>) {
    /** What the constructor has checked. */
    ghost predicate Valid() {
      && m.Valid() && layers != [] && !layers[0].SiLU? && Fits(layers, layers[0].InputSize())
      && (forall k: nat :: 1 <= k < |layers| ==> Linked(k))
    }

    /** Layer k takes as many inputs as the layer in front of it has outputs. */
    predicate Linked(k: nat)
      requires 1 <= k < |layers|
    {
      layers[k].InputSize() == layers[k - 1].OutputSize()
    }

    function InputSize(): nat
      requires layers != []
    {
      layers[0].InputSize()
    }

    /** The output size of the last layer that is not an activation. */
    function OutputSize(): nat { SizedOutput(layers) }

    predicate SupportsConditionedInput(n: nat) {
      layers != [] && layers[0].Linear? && 0 < n < layers[0].inputs
    }

    predicate AcceptsInput(n: nat, c: Conditioning)
      requires layers != []
    {
      match c
      case Unconditioned => n == InputSize()
      case Contributions(first, second) =>
        SupportsConditionedInput(n) && |first| == layers[0].outputs && |second| == layers[0].outputs
    }

    /** The layer list a pass effectively runs. */
    ghost function Effective(n: nat, c: Conditioning): seq<Layer>
      requires Valid() && AcceptsInput(n, c)
    {
      match c
      case Unconditioned => layers
      case Contributions(first, second) => Conditioned(layers, first, second)
    }

    lemma EffectiveFits(n: nat, c: Conditioning)
      requires Valid() && AcceptsInput(n, c)
      ensures Fits(Effective(n, c), n) && |Effective(n, c)| == |layers|
      ensures Width(Effective(n, c), n) == OutputSize()
      ensures forall k :: 1 <= k < |layers| ==> Effective(n, c)[k] == layers[k]
    {
      SizedOutputIsWidth(layers, layers[0].InputSize());
      if c.Contributions? {
        ConditionedFits(layers, c.first, c.second, n);
      }
    }

    /** The bias the first layer effectively has: both contributions are added, entry by entry. */
    lemma EffectiveBias(n: nat, c: Conditioning)
      requires Valid() && AcceptsInput(n, c) && c.Contributions?
      ensures layers[0].Linear?
      ensures Effective(n, c)
           == [layers[0].(bias := seq(layers[0].outputs,
                                      j => At(layers[0].bias, j) + At(c.first, j) + At(c.second, j)))]
              + layers[1..]
    {
      var b := seq(layers[0].outputs, j => At(layers[0].bias, j) + At(c.first, j) + At(c.second, j));
      assert Effective(n, c)[0].bias == b;
    }

    /** All layers on one input. A plain input fills the first layer; a conditioned one is shorter, and then the first
        bias has both contributions added. */
    method EvaluateImpl(input: seq<real>, c: Conditioning) returns (result: Result<seq<seq<real>>, MlpError>)
      requires Valid()
      ensures result.Err? <==> !AcceptsInput(|input|, c)
      ensures result.Ok? <==>
                if c.Unconditioned? then |input| == layers[0].InputSize() else
                  && layers[0].Linear? && 0 < |input| < layers[0].inputs
                  && |c.first| == |c.second| == layers[0].outputs
      ensures result.Ok? ==> IsTape(m, Effective(|input|, c), result.value, input, |layers|)
      ensures result.Ok? ==> result.value[|layers|] == Evaluate(m, Effective(|input|, c), input)
      ensures result.Ok? && c.Unconditioned? ==> result.value[|layers|] == Evaluate(m, layers, input)
      ensures result.Ok? && c.Contributions? ==>
                var net := [layers[0].(bias := seq(layers[0].outputs,
                                                   j => At(layers[0].bias, j) + At(c.first, j) + At(c.second, j)))]
                           + layers[1..];
                Fits(net, |input|) && result.value[|layers|] == Evaluate(m, net, input)
    {
      if !AcceptsInput(|input|, c) {
        return Err(InvalidArgument);
      }
      EffectiveFits(|input|, c);
      if c.Contributions? {
        EffectiveBias(|input|, c);
      }
      ghost var eff := Effective(|input|, c);
      assert eff[0..] == eff;
      var values := input;
      var tape := [values];
      for k := 0 to |layers|
        invariant IsTape(m, eff, tape, input, k) && tape[k] == values
        invariant Fits(eff[k..], |values|) && Evaluate(m, eff, input) == Evaluate(m, eff[k..], values)
      {
        SuffixStep(m, eff, k, values);
        var next := LayerPass(values, k, c, |input|);
        TapeExtended(m, eff, tape, input, k, next);
        values := next;
        tape := tape + [values];
      }
      result := Ok(tape);
    }

    /** One layer of a pass: only the first layer sees the contributions. */
    method LayerPass(x: seq<real>, k: nat, c: Conditioning, ghost n: nat) returns (y: seq<real>)
      requires Valid() && AcceptsInput(n, c) && k < |layers| && (k == 0 ==> |x| == n)
      requires var eff := Effective(n, c); |eff| == |layers| && eff[k].Valid() && eff[k].Accepts(|x|)
      requires k > 0 ==> Effective(n, c)[k] == layers[k]
      ensures y == Forward(m, Effective(n, c)[k], x)
    {
      var layer := layers[k];
      match layer
      case Linear(_, outputs, _, bias) =>
        var start := bias;
        if c.Contributions? && k == 0 {
          start := seq(outputs, row requires 0 <= row < outputs => bias[row] + (c.first[row] + c.second[row]));
        }
        y := LinearForward(layer, x, start);
        LinearIsForward(layer, Effective(n, c)[k], x, start, y);
      case LayerNorm(_, _, _, _) => y := NormForward(m, layer, x);
      case SiLU(_) => y := SiluForward(m, layer, x);
    }

    lemma LinearIsForward(layer: Layer, eff: Layer, x: seq<real>, start: seq<real>, y: seq<real>)
      requires m.Valid() && layer.Linear? && layer.Valid() && eff == layer.(bias := start) && |start| == layer.outputs
      requires layer.Accepts(|x|) && |y| == layer.outputs
      requires forall row :: 0 <= row < layer.outputs ==>
                 y[row] == start[row] + Applied(|x|, WeightMatrix(layer), Entries(x))(row)
      ensures y == Forward(m, eff, x)
    {
      assert WeightMatrix(eff) == WeightMatrix(layer);
    }

    /** Reverse mode from a freshly recorded tape. */
    method EvaluateGradientImpl(input: seq<real>, c: Conditioning, outputAdjoint: seq<real>)
      returns (result: Result<seq<real>, MlpError>)
      requires Valid()
      ensures result.Err? <==> |outputAdjoint| != OutputSize() || !AcceptsInput(|input|, c)
      ensures result.Ok? ==>
                && Fits(Effective(|input|, c), |input|)
                && Width(Effective(|input|, c), |input|) == |outputAdjoint|
                && result.value == Gradient(m, Effective(|input|, c), input, outputAdjoint)
      ensures result.Ok? && c.Contributions? ==>
                && layers[0].Linear?
                && var net := [layers[0].(bias := seq(layers[0].outputs,
                                                      j => At(layers[0].bias, j) + At(c.first, j) + At(c.second, j)))]
                              + layers[1..];
                   && Fits(net, |input|) && Width(net, |input|) == |outputAdjoint|
                   && result.value == Gradient(m, net, input, outputAdjoint)
    {
      if |outputAdjoint| != OutputSize() {
        return Err(InvalidArgument);
      }
      var values := EvaluateImpl(input, c);
      if values.Err? {
        return Err(values.error);
      }
      EffectiveFits(|input|, c);
      ghost var eff := Effective(|input|, c);
      var tape := values.value;
      SizedOutputIsWidth(layers, layers[0].InputSize());
      var adjoint := ReverseTape(eff, tape, input, c, outputAdjoint);
      if c.Contributions? {
        EffectiveBias(|input|, c);
      }
      result := Ok(adjoint);
    }

    /** The reverse loop over a recorded tape. */
    method ReverseTape(ghost eff: seq<Layer>, tape: seq<seq<real>>, ghost input: seq<real>, ghost c: Conditioning,
                       outputAdjoint: seq<real>)
      returns (adjoint: seq<real>)
      requires Valid() && AcceptsInput(|input|, c) && eff == Effective(|input|, c) && |eff| == |layers|
      requires IsTape(m, eff, tape, input, |layers|) && |outputAdjoint| == |tape[|layers|]|
      ensures Fits(eff, |input|) && Width(eff, |input|) == |outputAdjoint|
      ensures adjoint == Gradient(m, eff, input, outputAdjoint)
    {
      assert eff[0..] == eff;
      assert Fits(eff[|layers|..], |tape[|layers|]|);
      adjoint := outputAdjoint;
      for k := |layers| downto 0
        invariant Fits(eff[k..], |tape[k]|) && Width(eff[k..], |tape[k]|) == |outputAdjoint|
        invariant adjoint == Gradient(m, eff[k..], tape[k], outputAdjoint)
      {
        assert Fits(eff[k..], |tape[k]|) && StepsTo(m, eff[k], tape[k], tape[k + 1]);
        StepBack(eff, k, tape[k], tape[k + 1], outputAdjoint);
        adjoint := LayerReverse(layers[k], eff[k], tape[k], adjoint);
      }
    }

    /** From the gradient behind layer k to the gradient in front of it. */
    lemma StepBack(eff: seq<Layer>, k: nat, x: seq<real>, next: seq<real>, w: seq<real>)
      requires m.Valid() && k < |eff| && Fits(eff[k..], |x|) && StepsTo(m, eff[k], x, next)
      requires Fits(eff[k + 1..], |next|) && Width(eff[k + 1..], |next|) == |w|
      ensures eff[k].Valid() && eff[k].Accepts(|x|) && Width(eff[k..], |x|) == |w| && |next| == eff[k].OutputSize()
      ensures Gradient(m, eff[k..], x, w) == PullBack(m, eff[k], x, Gradient(m, eff[k + 1..], next, w))
    {
      SuffixStep(m, eff, k, x);
      SuffixGradient(m, eff, k, x, w);
    }

    /** One layer of the reverse pass; the bias plays no part in it. */
    method LayerReverse(layer: Layer, ghost eff: Layer, x: seq<real>, w: seq<real>) returns (r: seq<real>)
      requires m.Valid() && eff.Valid() && eff.Accepts(|x|) && |w| == eff.OutputSize()
      requires layer == eff
                 || (layer.Linear? && eff.Linear? && |layer.bias| == layer.outputs && eff == layer.(bias := eff.bias))
      ensures r == PullBack(m, eff, x, w)
    {
      match layer
      case Linear(_, _, _, _) =>
        r := LinearReverse(layer, |x|, w);
        assert WeightMatrix(eff) == WeightMatrix(layer);
      case LayerNorm(_, _, _, _) => r := NormReverse(m, layer, x, w);
      case SiLU(_) => r := SiluReverse(m, layer, x, w);
    }

    /** Value and directional derivative in one sweep. */
    method EvaluateConditionedWithDirectionalDerivative(input: seq<real>, inputDerivative: seq<real>,
                                                        first: seq<real>, second: seq<real>)
      returns (result: Result<(seq<real>, seq<real>), MlpError>)
      requires Valid()
      ensures var c := Contributions(first, second);
              && (result.Err? <==> |inputDerivative| != |input| || !AcceptsInput(|input|, c))
              && (result.Ok? ==>
                    var eff := Effective(|input|, c);
                    && Fits(eff, |input|)
                    && result.value == (Evaluate(m, eff, input), Derivative(m, eff, input, inputDerivative)))
    {
      var c := Contributions(first, second);
      if |inputDerivative| != |input| || !AcceptsInput(|input|, c) {
        return Err(InvalidArgument);
      }
      EffectiveFits(|input|, c);
      ghost var eff := Effective(|input|, c);
      assert eff[0..] == eff;
      var output, outputDerivative := input, inputDerivative;
      for k := 0 to |layers|
        invariant |output| == |outputDerivative| && Fits(eff[k..], |output|)
        invariant k == 0 ==> |output| == |input|
        invariant DualEvaluate(m, eff, Zip(input, inputDerivative))
               == DualEvaluate(m, eff[k..], Zip(output, outputDerivative))
      {
        SuffixDerivative(m, eff, k, output, outputDerivative);
        output, outputDerivative := LayerTangentPass(output, outputDerivative, k, c, |input|);
      }
      DerivativeCarriesValue(m, eff, input, inputDerivative);
      ZipParts(output, outputDerivative);
      result := Ok((output, outputDerivative));
    }

    method LayerTangentPass(x: seq<real>, dx: seq<real>, k: nat, c: Conditioning, ghost n: nat)
      returns (y: seq<real>, dy: seq<real>)
      requires Valid() && AcceptsInput(n, c) && k < |layers| && (k == 0 ==> |x| == n) && |dx| == |x|
      requires var eff := Effective(n, c); |eff| == |layers| && eff[k].Valid() && eff[k].Accepts(|x|)
      requires k > 0 ==> Effective(n, c)[k] == layers[k]
      ensures y == Forward(m, Effective(n, c)[k], x) && dy == Tangent(m, Effective(n, c)[k], x, dx)
    {
      var layer := layers[k];
      match layer
      case Linear(_, outputs, _, _) =>
        y := LayerPass(x, k, c, n);
        dy := LinearForward(layer, dx, seq(outputs, _ => 0.0));
        assert WeightMatrix(Effective(n, c)[k]) == WeightMatrix(layer);
      case LayerNorm(_, _, _, _) => y, dy := NormTangentPass(m, layer, x, dx);
      case SiLU(_) => y, dy := SiluTangentPass(m, layer, x, dx);
    }

    /** The product of one column block of the first weight with `values`. */
    method FirstLayerContribution(inputOffset: int, values: seq<real>) returns (result: Result<seq<real>, MlpError>)
      requires Valid()
      ensures result.Err? <==> !layers[0].Linear? || inputOffset < 0 || values == []
                               || inputOffset + |values| > layers[0].inputs
      ensures result.Ok? ==> result.value == Contribution(layers[0], inputOffset, values)
      ensures result.Ok? ==> forall row :: 0 <= row < layers[0].outputs ==>
                (result.value[row]
              == Sum(|values|, c => At(layers[0].weight, row * layers[0].inputs + inputOffset + c) * At(values, c)))
    {
      if !layers[0].Linear? || inputOffset < 0 || values == [] || inputOffset + |values| > layers[0].inputs {
        return Err(InvalidArgument);
      }
      var first := layers[0];
      var sums := seq(first.outputs, _ => 0.0);
      for row := 0 to first.outputs
        invariant |sums| == first.outputs
        invariant forall k :: 0 <= k < row ==> sums[k] == Contribution(first, inputOffset, values)[k]
        invariant forall k :: row <= k < first.outputs ==> sums[k] == 0.0
      {
        var value := BlockRow(first, inputOffset, values, row);
        sums := sums[row := value];
      }
      forall row | 0 <= row < first.outputs
        ensures sums[row]
             == Sum(|values|, c => At(first.weight, row * first.inputs + inputOffset + c) * At(values, c))
      {
        BlockRowIs(first, inputOffset, values, row, row * first.inputs + inputOffset);
      }
      result := Ok(sums);
    }
  }

  ghost function BlockTerms(layer: Layer, values: seq<real>, start: int): int -> real
    requires layer.Linear?
  {
    c => At(layer.weight, start + c) * At(values, c)
  }

  ghost function ContributionTerms(layer: Layer, offset: nat, values: seq<real>, row: nat): int -> real
    requires layer.Linear?
  {
    var a := WeightMatrix(layer);
    c => a(row, offset + c) * At(values, c)
  }

  lemma BlockTerm(layer: Layer, offset: nat, values: seq<real>, row: nat, c: int, start: int)
    requires layer.Linear? && start == row * layer.inputs + offset
    ensures ContributionTerms(layer, offset, values, row)(c) == BlockTerms(layer, values, start)(c)
  {
    assert Offset(row, layer.inputs, offset + c) == start + c;
  }

  /** The block of row `row` starts at flat position `start`. */
  lemma BlockRowIs(layer: Layer, offset: nat, values: seq<real>, row: nat, start: int)
    requires layer.Linear? && row < layer.outputs && start == row * layer.inputs + offset
    ensures Contribution(layer, offset, values)[row]
         == Sum(|values|, c => At(layer.weight, start + c) * At(values, c))
  {
    BlockRowSums(layer, offset, values, row, start);
    SumCong(|values|, BlockTerms(layer, values, start), c => At(layer.weight, start + c) * At(values, c));
  }

  lemma BlockRowSums(layer: Layer, offset: nat, values: seq<real>, row: nat, start: int)
    requires layer.Linear? && row < layer.outputs && start == row * layer.inputs + offset
    ensures Contribution(layer, offset, values)[row] == Sum(|values|, BlockTerms(layer, values, start))
  {
    var terms, blockTerms := ContributionTerms(layer, offset, values, row), BlockTerms(layer, values, start);
    forall c ensures terms(c) == blockTerms(c) {
      BlockTerm(layer, offset, values, row, c, start);
    }
    SumCong(|values|, terms, blockTerms);
    ContributionRow(layer, offset, values, row);
  }

  lemma ContributionRow(layer: Layer, offset: nat, values: seq<real>, row: nat)
    requires layer.Linear? && row < layer.outputs
    ensures Contribution(layer, offset, values)[row] == Sum(|values|, ContributionTerms(layer, offset, values, row))
  {
    var a := WeightMatrix(layer);
    SumCong(|values|, c => a(row, offset + c) * At(values, c), ContributionTerms(layer, offset, values, row));
  }

  function SizedOutput(layers: seq<Layer>): nat {
    if layers == [] then 0
    else if layers[|layers| - 1].SiLU? then SizedOutput(layers[..|layers| - 1])
    else layers[|layers| - 1].OutputSize()
  }

  /** Activations keep the size, so skipping them from the right finds the last layer's own output size. */
  lemma {:induction false} SizedOutputIsWidth(layers: seq<Layer>, n: nat)
    requires layers != [] && !layers[0].SiLU? && Fits(layers, n)
    ensures SizedOutput(layers) == Width(layers, n)
    decreases |layers|
  {
    var last := layers[|layers| - 1];
    if last.SiLU? {
      var front := layers[..|layers| - 1];
      assert layers == front + [last];
      FitsAppend(front, [last], n);
      SizedOutputIsWidth(front, n);
    }
  }
}
