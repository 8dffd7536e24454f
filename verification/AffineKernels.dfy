/** The batch kernels of the shared-arena network (libsymmetrix/source/affine_mlp_kokkos.cpp): the two forms of the
    linear layer, and LayerNorm fused with the SiLU that follows it. */
module AffineKernels {
  import opened FiniteSums
  import opened FlatIndex
  import opened DenseKernels
  import opened DualNumbers
  import opened AffineLayers
  import opened AffineMlp
  import opened AffineBatch

  /** compact holds the first `columns` columns of the layer's weight as rows of that length. */
  ghost predicate IsLeadingColumns(layer: Layer, columns: nat, compact: seq<real>)
    requires layer.Linear?
  {
    && |compact| == layer.outputs * columns
    && forall row, column :: 0 <= row < layer.outputs && 0 <= column < columns ==>
         At(compact, Offset(row, columns, column)) == WeightMatrix(layer)(row, column)
  }

  /** Copies the leading columns out of the full weight (lines 339-349). */
  method CompactWeight(layer: Layer, columns: nat) returns (compact: seq<real>)
    requires layer.Linear? && layer.Valid() && layer.Accepts(columns)
    ensures IsLeadingColumns(layer, columns, compact)
  {
    ProductNonNegative(layer.outputs, columns);
    compact := [];
    for t := 0 to layer.outputs * columns
      invariant |compact| == t
      invariant forall u :: 0 <= u < t ==> compact[u] == WeightMatrix(layer)(u / columns, u % columns)
    {
      FlatDecoded(t, layer.outputs, columns);
      OffsetBound(t / columns, layer.outputs, layer.inputs, t % columns);
      compact := compact + [layer.weight[t / columns * layer.inputs + t % columns]];
    }
    forall row, column | 0 <= row < layer.outputs && 0 <= column < columns
      ensures At(compact, Offset(row, columns, column)) == WeightMatrix(layer)(row, column)
    {
      OffsetBound(row, layer.outputs, columns, column);
      OffsetDecoded(row, columns, column);
    }
  }

  /** What one row of the linear layer's output must be. */
  ghost predicate IsLinearRow(layer: Layer, x: seq<real>, contribution: seq<real>, y: seq<real>)
    requires layer.Linear? && |layer.bias| == layer.outputs == |contribution| == |y|
  {
    forall row :: 0 <= row < layer.outputs ==>
      y[row] == layer.bias[row] + contribution[row] + Applied(|x|, WeightMatrix(layer), Entries(x))(row)
  }

  /** The view holds the first `columns` columns of the layer's weight and nothing else. */
  ghost predicate IsLeadingView(layer: Layer, columns: nat, view: Matrix)
    requires layer.Linear?
  {
    view.rows == layer.outputs && view.cols == columns && IsLeadingColumns(layer, columns, view.data)
  }

  /** Batches above four: a product with the weight it is given, then bias and contribution in an epilogue. The
      product is refused when the weight has another number of columns than the input. */
  method GemmLinear(layer: Layer, source: seq<real>, samples: nat, columns: nat, weight: Matrix,
                    contributions: seq<real>)
    returns (ok: bool, target: seq<real>)
    requires layer.Linear? && layer.Valid() && layer.Accepts(columns) && |source| == samples * columns
    requires weight.Valid() && (weight.cols == columns ==> IsLeadingView(layer, columns, weight))
    requires |contributions| == samples * layer.outputs
    ensures ok <==> weight.cols == columns
    ensures ok ==> |target| == samples * layer.outputs
    ensures ok ==> forall s :: 0 <= s < samples ==>
              IsLinearRow(layer, Row(source, columns, s), Row(contributions, layer.outputs, s),
                          Row(target, layer.outputs, s))
  {
    ok, target := KokkosGemmNT(Matrix(samples, columns, source), weight, samples, layer.outputs);
    if ok {
      target := Epilogue(layer, source, samples, columns, weight.data, target, contributions);
    }
  }

  /** Bias and contributions, added to the finished product. */
  method Epilogue(layer: Layer, ghost source: seq<real>, samples: nat, ghost columns: nat, ghost weight: seq<real>,
                  product: seq<real>, contributions: seq<real>)
    returns (target: seq<real>)
    requires layer.Linear? && layer.Valid() && layer.Accepts(columns) && |source| == samples * columns
    requires IsLeadingColumns(layer, columns, weight) && |product| == |contributions| == samples * layer.outputs
    requires forall i, j :: 0 <= i < samples && 0 <= j < layer.outputs ==>
               Row(product, layer.outputs, i)[j]
                 == Inner(columns, RowSlice(source, columns, i), RowSlice(weight, columns, j))
    ensures |target| == samples * layer.outputs
    ensures forall s :: 0 <= s < samples ==>
              IsLinearRow(layer, Row(source, columns, s), Row(contributions, layer.outputs, s),
                          Row(target, layer.outputs, s))
  {
    var n := layer.outputs;
    target := product;
    for flat := 0 to samples * n
      invariant |target| == samples * n
      invariant forall t :: 0 <= t < flat ==> target[t] == product[t] + (layer.bias[t % n] + contributions[t])
      invariant forall t :: flat <= t < samples * n ==> target[t] == product[t]
    {
      FlatDecoded(flat, samples, n);
      target := target[flat := target[flat] + (layer.bias[flat % n] + contributions[flat])];
    }
    forall s | 0 <= s < samples
      ensures IsLinearRow(layer, Row(source, columns, s), Row(contributions, n, s), Row(target, n, s))
    {
      forall j | 0 <= j < n
        ensures Row(target, n, s)[j] == layer.bias[j] + Row(contributions, n, s)[j]
                + Applied(columns, WeightMatrix(layer), Entries(Row(source, columns, s)))(j)
      {
        CompactEntry(layer, source, samples, columns, weight, product, s, j);
        RowEntry(target, samples, n, s, j);
        RowEntry(product, samples, n, s, j);
        RowEntry(contributions, samples, n, s, j);
        OffsetDecoded(s, n, j);
      }
    }
  }

  lemma CompactEntry(layer: Layer, source: seq<real>, samples: nat, columns: nat, weight: seq<real>,
                     product: seq<real>, s: int, j: int)
    requires layer.Linear? && layer.Valid() && layer.Accepts(columns) && |source| == samples * columns
    requires IsLeadingColumns(layer, columns, weight)
    requires 0 <= s < samples && 0 <= j < layer.outputs
    requires Row(product, layer.outputs, s)[j]
          == Inner(columns, RowSlice(source, columns, s), RowSlice(weight, columns, j))
    ensures Row(product, layer.outputs, s)[j]
         == Applied(columns, WeightMatrix(layer), Entries(Row(source, columns, s)))(j)
  {
    var a, e := WeightMatrix(layer), Entries(Row(source, columns, s));
    var f, g := RowSlice(source, columns, s), RowSlice(weight, columns, j);
    forall t | 0 <= t < columns ensures f(t) == e(t) && g(t) == a(j, t) {
      RowEntry(source, samples, columns, s, t);
    }
    AppliedByInner(columns, a, e, j, f, g);
  }

  /** Batches of at most four: one loop nest with the full weight, reading only the leading columns. */
  method SmallLinear(layer: Layer, source: seq<real>, samples: nat, columns: nat, contributions: seq<real>)
    returns (target: seq<real>)
    requires layer.Linear? && layer.Valid() && layer.Accepts(columns) && |source| == samples * columns
    requires |contributions| == samples * layer.outputs
    ensures |target| == samples * layer.outputs
    ensures forall s :: 0 <= s < samples ==>
              IsLinearRow(layer, Row(source, columns, s), Row(contributions, layer.outputs, s),
                          Row(target, layer.outputs, s))
  {
    var n := layer.outputs;
    ProductNonNegative(samples, n);
    target := seq(samples * n, _ => 0.0);
    for sample := 0 to samples
      invariant |target| == samples * n
      invariant forall s :: 0 <= s < sample ==>
                  IsLinearRow(layer, Row(source, columns, s), Row(contributions, n, s), Row(target, n, s))
    {
      var row := LinearForward(layer, Row(source, columns, sample), layer.bias);
      ghost var product := row;
      for j := 0 to n
        invariant |row| == n
        invariant forall i :: 0 <= i < j ==> row[i] == product[i] + Row(contributions, n, sample)[i]
        invariant forall i :: j <= i < n ==> row[i] == product[i]
      {
        row := row[j := row[j] + Row(contributions, n, sample)[j]];
      }
      forall u: nat | u < samples
        ensures (sample + 1) * n <= |target|
        ensures Row(PutRow(target, n, sample, row), n, u) == if u == sample then row else Row(target, n, u)
      {
        RowPut(target, samples, n, sample, row, u);
      }
      ProductMonotone(sample + 1, samples, n);
      target := PutRow(target, n, sample, row);
    }
  }

  /** LayerNorm and the SiLU after it in one pass over each row; the row between them is never stored. */
  method FusedNormSilu(m: Elementary, norm: Layer, silu: Layer, source: seq<real>, samples: nat, stale: seq<real>)
    returns (target: seq<real>)
    requires m.Valid() && norm.LayerNorm? && norm.Valid() && silu.SiLU? && silu.Valid() && silu.size == norm.width
    requires |source| == |stale| == samples * norm.width
    ensures |target| == samples * norm.width
    ensures forall s :: 0 <= s < samples ==>
              Row(target, norm.width, s) == Forward(m, silu, Forward(m, norm, Row(source, norm.width, s)))
  {
    var width := norm.width;
    target := stale;
    for sample := 0 to samples
      invariant |target| == samples * width
      invariant forall s :: 0 <= s < sample ==>
                  Row(target, width, s) == Forward(m, silu, Forward(m, norm, Row(source, width, s)))
    {
      var x := Row(source, width, sample);
      var row := FusedRow(m, norm, silu, x, Row(target, width, sample));
      forall u: nat | u < samples
        ensures (sample + 1) * width <= |target|
        ensures Row(PutRow(target, width, sample, row), width, u) == if u == sample then row else Row(target, width, u)
      {
        RowPut(target, samples, width, sample, row, u);
      }
      ProductMonotone(sample + 1, samples, width);
      target := PutRow(target, width, sample, row);
    }
  }

  method FusedRow(m: Elementary, norm: Layer, silu: Layer, x: seq<real>, stale: seq<real>) returns (row: seq<real>)
    requires m.Valid() && norm.LayerNorm? && norm.Valid() && silu.SiLU? && silu.Valid() && silu.size == norm.width
    requires |x| == |stale| == norm.width
    ensures row == Forward(m, silu, Forward(m, norm, x))
  {
    var mean, variance := NormStatistics(x);
    var inverse := InverseOf(m, x, variance, norm.eps);
    row := stale;
    for column := 0 to norm.width
      invariant |row| == norm.width
      invariant forall c :: 0 <= c < column ==>
                  row[c] == Silu(m, Normalised(x[c], mean, inverse, norm.gamma[c], norm.beta[c]))
    {
      var value := Normalised(x[column], mean, inverse, norm.gamma[column], norm.beta[column]);
      row := row[column := value / (1.0 + m.exp(-value))];
    }
  }

  method SiluSlopeAt(m: Elementary, value: real) returns (slope: real)
    requires m.Valid()
    ensures slope == SiluDerivative(m, value)
  {
    var probability := 1.0 / (1.0 + m.exp(-value));
    slope := probability + value * probability * (1.0 - probability);
  }

  method ThroughActivation(m: Elementary, norm: Layer, silu: Layer, x: seq<real>, targetAdjoint: seq<real>,
                           mean: real, inverse: real, column: nat) returns (adjoint: real)
    requires m.Valid() && norm.LayerNorm? && norm.Valid() && silu.SiLU? && silu.Valid() && silu.size == norm.width
    requires |x| == |targetAdjoint| == norm.width && column < norm.width
    requires mean == Mean(x) && inverse == InverseStddev(m, x, norm.eps)
    ensures adjoint == PullBack(m, silu, Forward(m, norm, x), targetAdjoint)[column]
  {
    var value := Normalised(x[column], mean, inverse, norm.gamma[column], norm.beta[column]);
    assert value == Forward(m, norm, x)[column];
    var slope := SiluSlopeAt(m, value);
    adjoint := targetAdjoint[column] * slope;
  }

  /** One row of the fused reverse: the normalised value is recomputed from the row that was stored, so the
      activation's slope needs no tape entry of its own. */
  method FusedReverseRow(m: Elementary, norm: Layer, silu: Layer, x: seq<real>, targetAdjoint: seq<real>)
    returns (row: seq<real>)
    requires m.Valid() && norm.LayerNorm? && norm.Valid() && silu.SiLU? && silu.Valid() && silu.size == norm.width
    requires |x| == |targetAdjoint| == norm.width
    ensures row == PullBack(m, norm, x, PullBack(m, silu, Forward(m, norm, x), targetAdjoint))
  {
    var mean, variance := NormStatistics(x);
    var inverse := InverseOf(m, x, variance, norm.eps);
    ghost var expected := PullBack(m, silu, Forward(m, norm, x), targetAdjoint);
    var through := seq(norm.width, _ => 0.0);
    for column := 0 to norm.width
      invariant |through| == norm.width
      invariant forall c :: 0 <= c < column ==> through[c] == expected[c]
    {
      var adjoint := ThroughActivation(m, norm, silu, x, targetAdjoint, mean, inverse, column);
      through := through[column := adjoint];
    }
    assert through == expected;
    row := NormReverse(m, norm, x, through);
  }

  /** The reverse of the fused pair: the activation's input is recomputed, not read back. */
  method FusedNormSiluReverse(m: Elementary, norm: Layer, silu: Layer, source: seq<real>, adjoint: seq<real>,
                              samples: nat, stale: seq<real>) returns (r: seq<real>)
    requires m.Valid() && norm.LayerNorm? && norm.Valid() && silu.SiLU? && silu.Valid() && silu.size == norm.width
    requires |source| == |adjoint| == |stale| == samples * norm.width
    ensures |r| == samples * norm.width
    ensures forall s :: 0 <= s < samples ==>
              var x := Row(source, norm.width, s);
              Row(r, norm.width, s)
              == PullBack(m, norm, x, PullBack(m, silu, Forward(m, norm, x), Row(adjoint, norm.width, s)))
  {
    var width := norm.width;
    r := stale;
    for sample := 0 to samples
      invariant |r| == samples * width
      invariant forall s :: 0 <= s < sample ==>
                  var x := Row(source, width, s);
                  Row(r, width, s)
                    == PullBack(m, norm, x, PullBack(m, silu, Forward(m, norm, x), Row(adjoint, width, s)))
    {
      var row := FusedReverseRow(m, norm, silu, Row(source, width, sample), Row(adjoint, width, sample));
      forall u: nat | u < samples
        ensures (sample + 1) * width <= |r|
        ensures Row(PutRow(r, width, sample, row), width, u) == if u == sample then row else Row(r, width, u)
      {
        RowPut(r, samples, width, sample, row, u);
      }
      ProductMonotone(sample + 1, samples, width);
      r := PutRow(r, width, sample, row);
    }
  }

  /** The full weight as a view. */
  function FullWeight(layer: Layer): (view: Matrix)
    requires layer.Linear? && layer.Valid()
    ensures view.Valid() && IsLeadingView(layer, layer.inputs, view)
  {
    Matrix(layer.outputs, layer.inputs, layer.weight)
  }

  /** Batches above four: adjoint times the weight it is given, refused when that has another number of columns than
      the adjoint of the input. */
  method GemmLinearReverse(layer: Layer, adjoint: seq<real>, samples: nat, columns: nat, weight: Matrix)
    returns (ok: bool, r: seq<real>)
    requires layer.Linear? && layer.Valid() && layer.Accepts(columns) && |adjoint| == samples * layer.outputs
    requires weight.Valid() && (weight.cols == columns ==> IsLeadingView(layer, columns, weight))
    ensures ok <==> weight.cols == columns
    ensures ok ==> |r| == samples * columns
    ensures ok ==> forall s, j :: 0 <= s < samples && 0 <= j < columns ==>
              (Row(r, columns, s)[j]
            == Pulled(layer.outputs, WeightMatrix(layer), Entries(Row(adjoint, layer.outputs, s)))(j))
  {
    ok, r := KokkosGemmNN(Matrix(samples, layer.outputs, adjoint), weight, samples, columns);
    if ok {
      forall s, j | 0 <= s < samples && 0 <= j < columns
        ensures Row(r, columns, s)[j]
             == Pulled(layer.outputs, WeightMatrix(layer), Entries(Row(adjoint, layer.outputs, s)))(j)
      {
        CompactReverseEntry(layer, adjoint, samples, columns, weight.data, r, s, j);
      }
    }
  }

  lemma CompactReverseEntry(layer: Layer, adjoint: seq<real>, samples: nat, columns: nat, weight: seq<real>,
                            r: seq<real>, s: int, j: int)
    requires layer.Linear? && layer.Valid() && |adjoint| == samples * layer.outputs
    requires IsLeadingColumns(layer, columns, weight) && 0 <= s < samples && 0 <= j < columns
    requires Row(r, columns, s)[j]
          == Inner(layer.outputs, ColumnSlice(weight, columns, j), RowSlice(adjoint, layer.outputs, s))
    ensures Row(r, columns, s)[j]
         == Pulled(layer.outputs, WeightMatrix(layer), Entries(Row(adjoint, layer.outputs, s)))(j)
  {
    var a, e := WeightMatrix(layer), Entries(Row(adjoint, layer.outputs, s));
    var f, g := ColumnSlice(weight, columns, j), RowSlice(adjoint, layer.outputs, s);
    forall t | 0 <= t < layer.outputs ensures f(t) == a(t, j) && g(t) == e(t) {
      RowEntry(adjoint, samples, layer.outputs, s, t);
    }
    PulledByInner(layer.outputs, a, e, j, f, g);
  }

  /** Batches of at most four: one loop nest with the full weight. */
  method SmallLinearReverse(layer: Layer, adjoint: seq<real>, samples: nat, columns: nat) returns (r: seq<real>)
    requires layer.Linear? && layer.Valid() && layer.Accepts(columns) && |adjoint| == samples * layer.outputs
    ensures |r| == samples * columns
    ensures forall s, j :: 0 <= s < samples && 0 <= j < columns ==>
              Row(r, columns, s)[j]
              == Pulled(layer.outputs, WeightMatrix(layer), Entries(Row(adjoint, layer.outputs, s)))(j)
  {
    ProductNonNegative(samples, columns);
    r := seq(samples * columns, _ => 0.0);
    for sample := 0 to samples
      invariant |r| == samples * columns
      invariant forall s, j :: 0 <= s < sample && 0 <= j < columns ==>
                  Row(r, columns, s)[j]
                  == Pulled(layer.outputs, WeightMatrix(layer), Entries(Row(adjoint, layer.outputs, s)))(j)
    {
      var row := LinearReverse(layer, columns, Row(adjoint, layer.outputs, sample));
      forall u: nat | u < samples
        ensures (sample + 1) * columns <= |r|
        ensures Row(PutRow(r, columns, sample, row), columns, u) == if u == sample then row else Row(r, columns, u)
      {
        RowPut(r, samples, columns, sample, row, u);
      }
      ProductMonotone(sample + 1, samples, columns);
      r := PutRow(r, columns, sample, row);
    }
  }
}
