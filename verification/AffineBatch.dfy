/** Batched passes over flat row-major buffers with a reusable tape and workspace (affine_mlp.cpp:353-496). */
module AffineBatch {
  import opened Results
  import opened FiniteSums
  import opened FlatIndex
  import opened DenseKernels
  import opened DualNumbers
  import opened AffineLayers
  import opened AffineNetworks
  import opened AffineMlp

  datatype BatchTape = BatchTape(samples: int, dynamicInputSize: int, values: seq<seq<real>>)

  /** std::vector::resize: keeps what was there, zero-fills the rest. */
  function Resized(old_: seq<real>, n: nat): (r: seq<real>)
    ensures |r| == n
  {
    if |old_| >= n then old_[..n] else old_ + seq(n - |old_|, _ => 0.0)
  }

  /** The buffer with row s replaced. */
  function PutRow(flat: seq<real>, width: nat, s: nat, row: seq<real>): (r: seq<real>)
    requires |row| == width && (s + 1) * width <= |flat|
    ensures |r| == |flat|
  {
    ProductNonNegative(s, width);
    ProductMonotone(s, s + 1, width);
    flat[..s * width] + row + flat[(s + 1) * width..]
  }

  lemma RowPut(flat: seq<real>, rows: nat, width: nat, s: nat, row: seq<real>, u: nat)
    requires |row| == width && s < rows && u < rows && |flat| == rows * width
    ensures (s + 1) * width <= |flat|
    ensures Row(PutRow(flat, width, s, row), width, u) == if u == s then row else Row(flat, width, u)
  {
    RowInside(rows, width, s, s * width);
    RowInside(rows, width, u, u * width);
    var r, start, first := PutRow(flat, width, s, row), s * width, u * width;
    assert r == flat[..start] + row + flat[start + width..];
    forall c | 0 <= c < width
      ensures Row(r, width, u)[c] == if u == s then row[c] else Row(flat, width, u)[c]
    {
      RowEntry(r, rows, width, u, c);
      RowEntry(flat, rows, width, u, c);
      PutAt(flat, width, s, row, u, c, start, first);
    }
  }

  lemma RowInside(rows: nat, width: nat, s: nat, start: int)
    requires s < rows && start == s * width
    ensures 0 <= start && start + width == (s + 1) * width <= rows * width
  {
    ProductNonNegative(s, width);
    ProductMonotone(s + 1, rows, width);
  }

  /** Position c of row u after row s has been replaced; their rows start at `start` and `first`. */
  lemma PutAt(flat: seq<real>, width: nat, s: nat, row: seq<real>, u: nat, c: nat, start: int, first: int)
    requires |row| == width && c < width && start == s * width && first == u * width
    requires 0 <= start && start + width <= |flat| && 0 <= first && first + width <= |flat|
    ensures (flat[..start] + row + flat[start + width..])[first + c] == if u == s then row[c] else flat[first + c]
  {
    if u < s {
      ProductMonotone(u + 1, s, width);
    } else if u > s {
      ProductMonotone(s + 1, u, width);
    }
  }

  function Zeros(n: nat): seq<real> { seq(n, _ => 0.0) }

  /** Size of one row of the k-th tape buffer. */
  function RowWidth(layers: seq<Layer>, dynamicInputSize: nat, k: nat): nat
    requires k <= |layers|
  {
    if k == 0 then dynamicInputSize else layers[k - 1].OutputSize()
  }

  /** The network that sample s effectively runs: its row of contributions is added to the first bias. */
  function SampleLayers(layers: seq<Layer>, contributions: seq<real>, s: int): seq<Layer>
    requires layers != [] && layers[0].Linear? && |layers[0].bias| == layers[0].outputs
  {
    Conditioned(layers, Row(contributions, layers[0].outputs, s), Zeros(layers[0].outputs))
  }

  /** Its first bias, entry by entry. */
  lemma SampleBias(layers: seq<Layer>, contributions: seq<real>, s: int)
    requires layers != [] && layers[0].Linear? && |layers[0].bias| == layers[0].outputs
    requires (s + 1) * layers[0].outputs <= |contributions| && s >= 0
    ensures SampleLayers(layers, contributions, s)
         == [layers[0].(bias := seq(layers[0].outputs,
                                    j => At(layers[0].bias, j) + At(contributions, s * layers[0].outputs + j)))]
            + layers[1..]
  {
    var n := layers[0].outputs;
    var b := seq(n, j => At(layers[0].bias, j) + At(contributions, s * n + j));
    forall j | 0 <= j < n ensures SampleLayers(layers, contributions, s)[0].bias[j] == b[j] {
      ProductNonNegative(s, n);
      assert (s + 1) * n == s * n + n;
      assert Row(contributions, n, s)[j] == At(contributions, s * n + j);
    }
    assert SampleLayers(layers, contributions, s)[0].bias == b;
  }

  /** The per-sample tape hidden in the flat buffers. */
  function SampleTape(layers: seq<Layer>, dynamicInputSize: nat, values: seq<seq<real>>, s: int): seq<seq<real>>
    requires |values| <= |layers| + 1
  {
    seq(|values|, k requires 0 <= k < |values| => Row(values[k], RowWidth(layers, dynamicInputSize, k), s))
  }

  /** The first `done` layers have been recorded for every sample. */
  ghost predicate Recorded(mlp: AffineMLP, values: seq<seq<real>>, samples: nat, dynamicInputSize: nat,
                           input: seq<real>, contributions: seq<real>, done: nat)
    requires mlp.Valid() && mlp.SupportsConditionedInput(dynamicInputSize) && done <= |mlp.layers|
  {
    && |values| == done + 1
    && (forall k :: 0 <= k <= done ==> |values[k]| == samples * RowWidth(mlp.layers, dynamicInputSize, k))
    && forall s :: 0 <= s < samples ==>
         IsTape(mlp.m, SampleLayers(mlp.layers, contributions, s),
                SampleTape(mlp.layers, dynamicInputSize, values, s), Row(input, dynamicInputSize, s), done)
  }

  lemma SampleLayersFit(mlp: AffineMLP, contributions: seq<real>, s: int, n: nat)
    requires mlp.Valid() && mlp.SupportsConditionedInput(n)
    ensures var eff := SampleLayers(mlp.layers, contributions, s);
            && |eff| == |mlp.layers| && Fits(eff, n) && Width(eff, n) == mlp.OutputSize() == Width(mlp.layers, n)
            && forall k :: 1 <= k < |eff| ==> eff[k] == mlp.layers[k]
  {
    var w := mlp.layers[0].outputs;
    mlp.EffectiveFits(n, Contributions(Row(contributions, w, s), Zeros(w)));
  }

  lemma {:induction false} TapeEvaluates(m: Elementary, layers: seq<Layer>, tape: seq<seq<real>>, x: seq<real>, k: nat)
    requires IsTape(m, layers, tape, x, |layers|) && k <= |layers|
    ensures Evaluate(m, layers[k..], tape[k]) == tape[|layers|]
    decreases |layers| - k
  {
    assert Fits(layers[k..], |tape[k]|);
    if k == |layers| {
    } else {
      assert StepsTo(m, layers[k], tape[k], tape[k + 1]);
      SuffixStep(m, layers, k, tape[k]);
      TapeEvaluates(m, layers, tape, x, k + 1);
    }
  }

  // ---------------------------------------------------------------- one layer over the whole batch

  /** Linear layer: one product for the batch, then bias and, on the first layer, the row contributions. */
  method BatchLinear(layer: Layer, source: seq<real>, samples: nat, active: nat, first: bool, contributions: seq<real>)
    returns (destination: seq<real>)
    requires layer.Linear? && layer.Valid() && layer.Accepts(active) && |source| == samples * active
    requires first ==> |contributions| == samples * layer.outputs
    ensures |destination| == samples * layer.outputs
    ensures forall s, j :: 0 <= s < samples && 0 <= j < layer.outputs ==>
              (Row(destination, layer.outputs, s)[j]
            == layer.bias[j] + (if first then Row(contributions, layer.outputs, s)[j] else 0.0)
               + Applied(active, WeightMatrix(layer), Entries(Row(source, active, s)))(j))
  {
    var n := layer.outputs;
    destination := GemmNT(samples, n, active, source, layer.weight, layer.inputs);
    ghost var product := destination;
    for offset := 0 to samples * n
      invariant |destination| == samples * n
      invariant forall t :: 0 <= t < offset ==>
                  destination[t] == product[t] + layer.bias[t % n] + (if first then contributions[t] else 0.0)
      invariant forall t :: offset <= t < samples * n ==> destination[t] == product[t]
    {
      FlatDecoded(offset, samples, n);
      destination := destination[offset := destination[offset] + layer.bias[offset % n]];
      if first {
        destination := destination[offset := destination[offset] + contributions[offset]];
      }
    }
    forall s, j | 0 <= s < samples && 0 <= j < n
      ensures Row(destination, n, s)[j]
           == layer.bias[j] + (if first then Row(contributions, n, s)[j] else 0.0)
              + Applied(active, WeightMatrix(layer), Entries(Row(source, active, s)))(j)
    {
      LinearEntry(layer, source, samples, active, product, s, j);
      RowEntry(destination, samples, n, s, j);
      RowEntry(product, samples, n, s, j);
      OffsetDecoded(s, n, j);
      if first {
        RowEntry(contributions, samples, n, s, j);
      }
    }
  }

  lemma LinearEntry(layer: Layer, source: seq<real>, samples: nat, active: nat, product: seq<real>, s: int, j: int)
    requires layer.Linear? && layer.Valid() && layer.Accepts(active) && |source| == samples * active
    requires 0 <= s < samples && 0 <= j < layer.outputs && |product| == samples * layer.outputs
    requires Row(product, layer.outputs, s)[j]
          == Inner(active, RowSlice(source, active, s), RowSlice(layer.weight, layer.inputs, j))
    ensures Row(product, layer.outputs, s)[j]
         == Applied(active, WeightMatrix(layer), Entries(Row(source, active, s)))(j)
  {
    var a, e := WeightMatrix(layer), Entries(Row(source, active, s));
    var f, g := RowSlice(source, active, s), RowSlice(layer.weight, layer.inputs, j);
    forall t | 0 <= t < active ensures f(t) == e(t) && g(t) == a(j, t) {
      RowEntry(source, samples, active, s, t);
    }
    AppliedByInner(active, a, e, j, f, g);
  }

  /** The first `done` rows hold the layer's values. */
  ghost predicate NormDone(m: Elementary, layer: Layer, source: seq<real>, destination: seq<real>, done: nat)
    requires m.Valid() && layer.LayerNorm? && layer.Valid()
  {
    forall s :: 0 <= s < done ==> Row(destination, layer.width, s) == Forward(m, layer, Row(source, layer.width, s))
  }

  method BatchNorm(m: Elementary, layer: Layer, source: seq<real>, samples: nat, stale: seq<real>)
    returns (destination: seq<real>)
    requires m.Valid() && layer.LayerNorm? && layer.Valid()
    requires |source| == |stale| == samples * layer.width
    ensures |destination| == samples * layer.width
    ensures forall s :: 0 <= s < samples ==>
              Row(destination, layer.width, s) == Forward(m, layer, Row(source, layer.width, s))
  {
    destination := stale;
    for sample := 0 to samples
      invariant |destination| == samples * layer.width
      invariant NormDone(m, layer, source, destination, sample)
    {
      var row := NormForward(m, layer, Row(source, layer.width, sample));
      forall u: nat | u < samples
        ensures (sample + 1) * layer.width <= |destination|
        ensures Row(PutRow(destination, layer.width, sample, row), layer.width, u)
             == if u == sample then row else Row(destination, layer.width, u)
      {
        RowPut(destination, samples, layer.width, sample, row, u);
      }
      ProductMonotone(sample + 1, samples, layer.width);
      destination := PutRow(destination, layer.width, sample, row);
    }
  }

  /** SiLU over the flat buffer; rows play no part in the loop. */
  method BatchSilu(m: Elementary, layer: Layer, source: seq<real>, samples: nat, stale: seq<real>)
    returns (destination: seq<real>)
    requires m.Valid() && layer.SiLU? && layer.Valid()
    requires |source| == |stale| == samples * layer.size
    ensures |destination| == samples * layer.size
    ensures forall s :: 0 <= s < samples ==>
              Row(destination, layer.size, s) == Forward(m, layer, Row(source, layer.size, s))
  {
    destination := stale;
    for index := 0 to |source|
      invariant |destination| == |source|
      invariant forall t :: 0 <= t < index ==> destination[t] == Silu(m, source[t])
    {
      destination := destination[index := source[index] / (1.0 + m.exp(-source[index]))];
    }
    forall s | 0 <= s < samples
      ensures Row(destination, layer.size, s) == Forward(m, layer, Row(source, layer.size, s))
    {
      forall c | 0 <= c < layer.size
        ensures Row(destination, layer.size, s)[c] == Forward(m, layer, Row(source, layer.size, s))[c]
      {
        RowEntry(destination, samples, layer.size, s, c);
        RowEntry(source, samples, layer.size, s, c);
      }
    }
  }

  /** The layer sample s effectively runs; only a first layer gets its row of contributions. */
  function SampleLayer(layer: Layer, first: bool, contributions: seq<real>, s: int): Layer
    requires first ==> layer.Linear? && |layer.bias| == layer.outputs
  {
    if first then SampleLayers([layer], contributions, s)[0] else layer
  }

  /** One layer: every row becomes what the sample's own layer makes of it. */
  method BatchLayer(m: Elementary, layer: Layer, first: bool, source: seq<real>, samples: nat, active: nat,
                    contributions: seq<real>, stale: seq<real>) returns (destination: seq<real>)
    requires m.Valid() && layer.Valid() && layer.Accepts(active)
    requires |source| == samples * active && |stale| == samples * layer.OutputSize()
    requires first ==> layer.Linear? && |contributions| == samples * layer.outputs
    ensures |destination| == samples * layer.OutputSize()
    ensures forall s :: 0 <= s < samples ==>
              StepsTo(m, SampleLayer(layer, first, contributions, s), Row(source, active, s),
                      Row(destination, layer.OutputSize(), s))
  {
    match layer {
      case Linear(_, outputs, _, _) =>
        destination := BatchLinear(layer, source, samples, active, first, contributions);
        forall s | 0 <= s < samples
          ensures StepsTo(m, SampleLayer(layer, first, contributions, s), Row(source, active, s),
                          Row(destination, outputs, s))
        {
          LinearRowSteps(m, layer, first, contributions, s, Row(source, active, s), Row(destination, outputs, s));
        }
      case LayerNorm(_, _, _, _) =>
        destination := BatchNorm(m, layer, source, samples, stale);
      case SiLU(_) =>
        destination := BatchSilu(m, layer, source, samples, stale);
    }
  }

  lemma LinearRowSteps(m: Elementary, layer: Layer, first: bool, contributions: seq<real>, s: int, x: seq<real>,
                       y: seq<real>)
    requires m.Valid() && layer.Linear? && layer.Valid() && layer.Accepts(|x|) && |y| == layer.outputs
    requires forall j :: 0 <= j < |y| ==>
               y[j] == layer.bias[j] + (if first then Row(contributions, |y|, s)[j] else 0.0)
                       + Applied(|x|, WeightMatrix(layer), Entries(x))(j)
    ensures StepsTo(m, SampleLayer(layer, first, contributions, s), x, y)
  {
    var eff := SampleLayer(layer, first, contributions, s);
    assert WeightMatrix(eff) == WeightMatrix(layer);
    assert y == Forward(m, eff, x);
  }

  /** One more layer recorded for every sample at once. */
  lemma RecordedStep(mlp: AffineMLP, values: seq<seq<real>>, samples: nat, dynamicInputSize: nat,
                     input: seq<real>, contributions: seq<real>, k: nat, next: seq<real>)
    requires mlp.Valid() && mlp.SupportsConditionedInput(dynamicInputSize) && k < |mlp.layers|
    requires Recorded(mlp, values, samples, dynamicInputSize, input, contributions, k)
    requires |next| == samples * RowWidth(mlp.layers, dynamicInputSize, k + 1)
    requires forall s :: 0 <= s < samples ==>
               StepsTo(mlp.m, SampleLayer(mlp.layers[k], k == 0, contributions, s),
                       Row(values[k], RowWidth(mlp.layers, dynamicInputSize, k), s),
                       Row(next, mlp.layers[k].OutputSize(), s))
    ensures Recorded(mlp, values + [next], samples, dynamicInputSize, input, contributions, k + 1)
  {
    forall s | 0 <= s < samples
      ensures IsTape(mlp.m, SampleLayers(mlp.layers, contributions, s),
                     SampleTape(mlp.layers, dynamicInputSize, values + [next], s), Row(input, dynamicInputSize, s),
                       k + 1)
    {
      var eff, tape := SampleLayers(mlp.layers, contributions, s), SampleTape(mlp.layers, dynamicInputSize, values, s);
      var y := Row(next, mlp.layers[k].OutputSize(), s);
      assert eff[k] == SampleLayer(mlp.layers[k], k == 0, contributions, s);
      TapeExtended(mlp.m, eff, tape, Row(input, dynamicInputSize, s), k, y);
      assert SampleTape(mlp.layers, dynamicInputSize, values + [next], s) == tape + [y];
    }
  }

  /** What layer k of a network that fits is fed. */
  lemma {:induction false} LayerAccepts(layers: seq<Layer>, n: nat, k: nat)
    requires Fits(layers, n) && k < |layers|
    ensures layers[k].Valid() && layers[k].Accepts(RowWidth(layers, n, k))
    decreases k
  {
    if k == 0 {
    } else {
      LayerAccepts(layers[1..], layers[0].OutputSize(), k - 1);
    }
  }

  /** The batched forward pass, reusing whatever the tape held before. */
  method EvaluateConditionedBatch(mlp: AffineMLP, input: seq<real>, samples: int, dynamicInputSize: int,
                                  rowContributions: seq<real>, reused: BatchTape)
    returns (result: Result<BatchTape, MlpError>)
    requires mlp.Valid()
    ensures result.Err? <==> samples < 0 || dynamicInputSize < 0 || !mlp.SupportsConditionedInput(dynamicInputSize)
                             || |input| != samples * dynamicInputSize
                             || |rowContributions| != samples * mlp.layers[0].outputs
    ensures result.Ok? ==>
              && result.value.samples == samples && result.value.dynamicInputSize == dynamicInputSize
              && Recorded(mlp, result.value.values, samples, dynamicInputSize, input, rowContributions, |mlp.layers|)
              && forall s :: 0 <= s < samples ==>
                   && Fits(SampleLayers(mlp.layers, rowContributions, s), dynamicInputSize)
                   && Row(result.value.values[|mlp.layers|], mlp.OutputSize(), s)
                      == Evaluate(mlp.m, SampleLayers(mlp.layers, rowContributions, s), Row(input, dynamicInputSize, s))
    ensures result.Ok? ==>
              && mlp.layers[0].Linear? && 0 < dynamicInputSize < mlp.layers[0].inputs
              && forall s: nat :: s < samples ==>
                   SampleLayers(mlp.layers, rowContributions, s)
                   == [mlp.layers[0].(bias := seq(mlp.layers[0].outputs, j => At(mlp.layers[0].bias, j)
                                                + At(rowContributions, s * mlp.layers[0].outputs + j)))]
                      + mlp.layers[1..]
  {
    if samples < 0 || dynamicInputSize < 0 || !mlp.SupportsConditionedInput(dynamicInputSize)
       || |input| != samples * dynamicInputSize || |rowContributions| != samples * mlp.layers[0].outputs {
      return Err(InvalidArgument);
    }
    var L := |mlp.layers|;
    var values := [input];
    forall s | 0 <= s < samples
      ensures IsTape(mlp.m, SampleLayers(mlp.layers, rowContributions, s),
                     SampleTape(mlp.layers, dynamicInputSize, values, s), Row(input, dynamicInputSize, s), 0)
    {
      SampleLayersFit(mlp, rowContributions, s, dynamicInputSize);
      assert SampleLayers(mlp.layers, rowContributions, s)[0..] == SampleLayers(mlp.layers, rowContributions, s);
    }
    SampleLayersFit(mlp, rowContributions, 0, dynamicInputSize);
    for k := 0 to L
      invariant Recorded(mlp, values, samples, dynamicInputSize, input, rowContributions, k)
    {
      LayerFed(mlp, rowContributions, dynamicInputSize, k);
      ProductNonNegative(samples, mlp.layers[k].OutputSize());
      var stale := Resized(if k + 1 < |reused.values| then reused.values[k + 1] else [],
                           samples * mlp.layers[k].OutputSize());
      var active := if k == 0 then dynamicInputSize else mlp.layers[k].InputSize();
      var next := BatchLayer(mlp.m, mlp.layers[k], k == 0, values[k], samples, active, rowContributions, stale);
      RecordedStep(mlp, values, samples, dynamicInputSize, input, rowContributions, k, next);
      values := values + [next];
    }
    forall s | 0 <= s < samples
      ensures Fits(SampleLayers(mlp.layers, rowContributions, s), dynamicInputSize)
      ensures Row(values[L], mlp.OutputSize(), s)
           == Evaluate(mlp.m, SampleLayers(mlp.layers, rowContributions, s), Row(input, dynamicInputSize, s))
    {
      OutputRow(mlp, values, samples, dynamicInputSize, input, rowContributions, s);
    }
    forall s: nat | s < samples
      ensures SampleLayers(mlp.layers, rowContributions, s)
           == [mlp.layers[0].(bias := seq(mlp.layers[0].outputs, j => At(mlp.layers[0].bias, j)
                                        + At(rowContributions, s * mlp.layers[0].outputs + j)))]
              + mlp.layers[1..]
    {
      ProductMonotone(s + 1, samples, mlp.layers[0].outputs);
      SampleBias(mlp.layers, rowContributions, s);
    }
    result := Ok(BatchTape(samples, dynamicInputSize, values));
  }

  lemma LayerFed(mlp: AffineMLP, contributions: seq<real>, n: nat, k: nat)
    requires mlp.Valid() && mlp.SupportsConditionedInput(n) && k < |mlp.layers|
    ensures mlp.layers[k].Valid() && mlp.layers[k].Accepts(RowWidth(mlp.layers, n, k))
    ensures k > 0 ==> RowWidth(mlp.layers, n, k) == mlp.layers[k].InputSize()
  {
    assert k > 0 ==> mlp.Linked(k);
    SampleLayersFit(mlp, contributions, 0, n);
    ConditionedFits(mlp.layers, Zeros(mlp.layers[0].outputs), Zeros(mlp.layers[0].outputs), n);
    LayerAccepts(mlp.layers, n, k);
  }

  lemma OutputRow(mlp: AffineMLP, values: seq<seq<real>>, samples: nat, dynamicInputSize: nat,
                  input: seq<real>, contributions: seq<real>, s: int)
    requires mlp.Valid() && mlp.SupportsConditionedInput(dynamicInputSize) && 0 <= s < samples
    requires Recorded(mlp, values, samples, dynamicInputSize, input, contributions, |mlp.layers|)
    ensures Fits(SampleLayers(mlp.layers, contributions, s), dynamicInputSize)
    ensures Row(values[|mlp.layers|], mlp.OutputSize(), s)
         == Evaluate(mlp.m, SampleLayers(mlp.layers, contributions, s), Row(input, dynamicInputSize, s))
  {
    var eff, L := SampleLayers(mlp.layers, contributions, s), |mlp.layers|;
    SampleLayersFit(mlp, contributions, s, dynamicInputSize);
    var tape := SampleTape(mlp.layers, dynamicInputSize, values, s);
    TapeEvaluates(mlp.m, eff, tape, Row(input, dynamicInputSize, s), 0);
    assert eff[0..] == eff;
    assert tape[L] == Row(values[L], RowWidth(mlp.layers, dynamicInputSize, L), s);
  }

  // ---------------------------------------------------------------- reverse

  method BatchLinearReverse(layer: Layer, adjoint: seq<real>, samples: nat, active: nat) returns (r: seq<real>)
    requires layer.Linear? && layer.Valid() && layer.Accepts(active) && |adjoint| == samples * layer.outputs
    ensures |r| == samples * active
    ensures forall s, j :: 0 <= s < samples && 0 <= j < active ==>
              Row(r, active, s)[j]
              == Pulled(layer.outputs, WeightMatrix(layer), Entries(Row(adjoint, layer.outputs, s)))(j)
  {
    r := GemmNN(samples, active, layer.outputs, adjoint, layer.weight, layer.inputs);
    forall s, j | 0 <= s < samples && 0 <= j < active
      ensures Row(r, active, s)[j]
           == Pulled(layer.outputs, WeightMatrix(layer), Entries(Row(adjoint, layer.outputs, s)))(j)
    {
      ReverseEntry(layer, adjoint, samples, active, r, s, j);
    }
  }

  lemma ReverseEntry(layer: Layer, adjoint: seq<real>, samples: nat, active: nat, r: seq<real>, s: int, j: int)
    requires layer.Linear? && layer.Valid() && layer.Accepts(active) && |adjoint| == samples * layer.outputs
    requires 0 <= s < samples && 0 <= j < active
    requires Row(r, active, s)[j]
          == Inner(layer.outputs, ColumnSlice(layer.weight, layer.inputs, j), RowSlice(adjoint, layer.outputs, s))
    ensures Row(r, active, s)[j]
         == Pulled(layer.outputs, WeightMatrix(layer), Entries(Row(adjoint, layer.outputs, s)))(j)
  {
    var a, e := WeightMatrix(layer), Entries(Row(adjoint, layer.outputs, s));
    var f, g := ColumnSlice(layer.weight, layer.inputs, j), RowSlice(adjoint, layer.outputs, s);
    forall t | 0 <= t < layer.outputs ensures f(t) == a(t, j) && g(t) == e(t) {
      RowEntry(adjoint, samples, layer.outputs, s, t);
    }
    PulledByInner(layer.outputs, a, e, j, f, g);
  }

  /** The first `done` rows hold the layer's adjoints. */
  ghost predicate NormPulled(m: Elementary, layer: Layer, source: seq<real>, adjoint: seq<real>, r: seq<real>,
                             done: nat)
    requires m.Valid() && layer.LayerNorm? && layer.Valid()
  {
    forall s :: 0 <= s < done ==>
      Row(r, layer.width, s) == PullBack(m, layer, Row(source, layer.width, s), Row(adjoint, layer.width, s))
  }

  method BatchNormReverse(m: Elementary, layer: Layer, source: seq<real>, adjoint: seq<real>, samples: nat,
                          stale: seq<real>)
    returns (r: seq<real>)
    requires m.Valid() && layer.LayerNorm? && layer.Valid()
    requires |source| == |adjoint| == |stale| == samples * layer.width
    ensures |r| == samples * layer.width
    ensures forall s :: 0 <= s < samples ==>
              Row(r, layer.width, s) == PullBack(m, layer, Row(source, layer.width, s), Row(adjoint, layer.width, s))
  {
    r := stale;
    for sample := 0 to samples
      invariant |r| == samples * layer.width
      invariant NormPulled(m, layer, source, adjoint, r, sample)
    {
      var row := NormReverse(m, layer, Row(source, layer.width, sample), Row(adjoint, layer.width, sample));
      forall u: nat | u < samples
        ensures (sample + 1) * layer.width <= |r|
        ensures Row(PutRow(r, layer.width, sample, row), layer.width, u)
             == if u == sample then row else Row(r, layer.width, u)
      {
        RowPut(r, samples, layer.width, sample, row, u);
      }
      ProductMonotone(sample + 1, samples, layer.width);
      r := PutRow(r, layer.width, sample, row);
    }
  }

  method BatchSiluReverse(m: Elementary, layer: Layer, source: seq<real>, adjoint: seq<real>, samples: nat,
                          stale: seq<real>)
    returns (r: seq<real>)
    requires m.Valid() && layer.SiLU? && layer.Valid()
    requires |source| == |adjoint| == |stale| == samples * layer.size
    ensures |r| == samples * layer.size
    ensures forall s :: 0 <= s < samples ==>
              Row(r, layer.size, s) == PullBack(m, layer, Row(source, layer.size, s), Row(adjoint, layer.size, s))
  {
    r := stale;
    for index := 0 to |source|
      invariant |r| == |source|
      invariant forall t :: 0 <= t < index ==> r[t] == adjoint[t] * SiluDerivative(m, source[t])
    {
      r := r[index := adjoint[index] * SiluDerivative(m, source[index])];
    }
    forall s | 0 <= s < samples
      ensures Row(r, layer.size, s) == PullBack(m, layer, Row(source, layer.size, s), Row(adjoint, layer.size, s))
    {
      forall c | 0 <= c < layer.size
        ensures Row(r, layer.size, s)[c]
             == PullBack(m, layer, Row(source, layer.size, s), Row(adjoint, layer.size, s))[c]
      {
        SiluReverseEntry(m, layer, source, adjoint, r, samples, s, c);
      }
    }
  }

  lemma SiluReverseEntry(m: Elementary, layer: Layer, source: seq<real>, adjoint: seq<real>, r: seq<real>,
                         samples: nat, s: nat, c: nat)
    requires m.Valid() && layer.SiLU? && layer.Valid() && s < samples && c < layer.size
    requires |source| == |adjoint| == |r| == samples * layer.size
    requires forall t :: 0 <= t < |r| ==> r[t] == adjoint[t] * SiluDerivative(m, source[t])
    ensures Row(r, layer.size, s)[c]
         == PullBack(m, layer, Row(source, layer.size, s), Row(adjoint, layer.size, s))[c]
  {
    RowEntry(r, samples, layer.size, s, c);
    RowEntry(source, samples, layer.size, s, c);
    RowEntry(adjoint, samples, layer.size, s, c);
  }

  /** The buffers the reverse pass ping-pongs between; both keep their contents from call to call. */
  class BatchWorkspace {
    var adjoint: seq<real>
    var scratch: seq<real>

    constructor ()
      ensures adjoint == [] && scratch == []
    {
      adjoint, scratch := [], [];
    }

    /** One layer of the batched reverse pass: the result goes to scratch and the buffers are swapped. */
    method ReverseLayer(m: Elementary, layer: Layer, layerInput: seq<real>, samples: nat, active: nat)
      requires m.Valid() && layer.Valid() && layer.Accepts(active)
      requires |layerInput| == samples * active && |adjoint| == samples * layer.OutputSize()
      modifies this
      ensures |adjoint| == samples * active && scratch == old(adjoint)
      ensures RowsPulled(m, layer, layerInput, old(adjoint), adjoint, samples, active)
    {
      ProductNonNegative(samples, active);
      scratch := Resized(scratch, samples * active);
      match layer {
        case Linear(_, outputs, _, _) =>
          if samples > 0 {
            scratch := BatchLinearReverse(layer, adjoint, samples, active);
          }
          forall s | 0 <= s < samples
            ensures Row(scratch, active, s) == PullBack(m, layer, Row(layerInput, active, s), Row(adjoint, outputs, s))
          {
            var target := PullBack(m, layer, Row(layerInput, active, s), Row(adjoint, outputs, s));
            assert forall j :: 0 <= j < active ==> Row(scratch, active, s)[j] == target[j];
          }
        case LayerNorm(_, _, _, _) =>
          scratch := BatchNormReverse(m, layer, layerInput, adjoint, samples, scratch);
        case SiLU(_) =>
          scratch := BatchSiluReverse(m, layer, layerInput, adjoint, samples, scratch);
      }
      adjoint, scratch := scratch, adjoint;
    }

    /** Every row of `below` is the row of `above` pulled back through the layer at its input row. */
    static ghost predicate RowsPulled(m: Elementary, layer: Layer, layerInput: seq<real>, above: seq<real>,
                                      below: seq<real>, samples: nat, active: nat)
      requires m.Valid() && layer.Valid() && layer.Accepts(active)
    {
      forall s :: 0 <= s < samples ==>
        Row(below, active, s) == PullBack(m, layer, Row(layerInput, active, s), Row(above, layer.OutputSize(), s))
    }

    /** The tape passes every size check the reverse pass makes. */
    static predicate TapeShapeOk(mlp: AffineMLP, tape: BatchTape)
    {
      && tape.samples >= 0 && tape.dynamicInputSize >= 0 && mlp.SupportsConditionedInput(tape.dynamicInputSize)
      && |tape.values| == |mlp.layers| + 1 && SizedFrom(mlp, tape, 0)
    }

    /** The inputs of layers `from` and above have the sizes the network asks for. */
    static predicate SizedFrom(mlp: AffineMLP, tape: BatchTape, from: nat)
      requires tape.samples >= 0 && tape.dynamicInputSize >= 0 && |tape.values| == |mlp.layers| + 1
    {
      forall k :: from <= k < |mlp.layers| ==>
        |tape.values[k]| == tape.samples * RowWidth(mlp.layers, tape.dynamicInputSize, k)
    }

    /** Every row of the buffer is the gradient of that sample's own network. */
    static ghost predicate RowsAreGradients(mlp: AffineMLP, tape: BatchTape, input: seq<real>,
                                            contributions: seq<real>, outputAdjoint: seq<real>, buffer: seq<real>)
      requires mlp.Valid() && TapeShapeOk(mlp, tape)
    {
      var n, outputs := tape.dynamicInputSize, mlp.OutputSize();
      forall s :: 0 <= s < tape.samples ==>
        var eff := SampleLayers(mlp.layers, contributions, s);
        && Fits(eff, n) && Width(eff, n) == outputs
        && Row(buffer, n, s) == Gradient(mlp.m, eff, Row(input, n, s), Row(outputAdjoint, outputs, s))
    }

    /** The batched reverse pass. A tape of the wrong shape is rejected; otherwise each row of the result is the
        gradient of that sample's own network, whatever the two buffers held before. */
    method ReverseConditionedBatch(mlp: AffineMLP, outputAdjoint: seq<real>, tape: BatchTape,
                                   ghost input: seq<real>, ghost contributions: seq<real>)
      returns (result: Result<seq<real>, MlpError>)
      requires mlp.Valid()
      requires TapeShapeOk(mlp, tape) ==>
                 Recorded(mlp, tape.values, tape.samples, tape.dynamicInputSize, input, contributions, |mlp.layers|)
      modifies this
      ensures result.Err? <==> !TapeShapeOk(mlp, tape) || |outputAdjoint| != tape.samples * mlp.OutputSize()
      ensures result.Ok? ==> RowsAreGradients(mlp, tape, input, contributions, outputAdjoint, result.value)
    {
      if tape.samples < 0 || tape.dynamicInputSize < 0 || !mlp.SupportsConditionedInput(tape.dynamicInputSize)
         || |tape.values| != |mlp.layers| + 1 || |outputAdjoint| != tape.samples * mlp.OutputSize() {
        return Err(InvalidArgument);
      }
      var L, n := |mlp.layers|, tape.dynamicInputSize;
      SampleLayersFit(mlp, contributions, 0, n);
      adjoint := outputAdjoint;
      if TapeShapeOk(mlp, tape) {
        NothingPulled(mlp, tape, contributions, outputAdjoint);
      }
      for k := L downto 0
        invariant SizedFrom(mlp, tape, k)
        invariant |adjoint| == tape.samples * RowWidth(mlp.layers, n, k)
        invariant TapeShapeOk(mlp, tape) ==> AllPulledTo(mlp, tape, contributions, outputAdjoint, k, adjoint)
      {
        LayerFed(mlp, contributions, n, k);
        if |tape.values[k]| != tape.samples * RowWidth(mlp.layers, n, k) {
          return Err(InvalidArgument);
        }
        ghost var before := adjoint;
        var active := if k == 0 then n else mlp.layers[k].InputSize();
        ReverseLayer(mlp.m, mlp.layers[k], tape.values[k], tape.samples, active);
        if TapeShapeOk(mlp, tape) {
          AllPulledStep(mlp, tape, input, contributions, outputAdjoint, k, active, before, adjoint);
        }
      }
      AllPulledDone(mlp, tape, input, contributions, outputAdjoint, adjoint);
      result := Ok(adjoint);
    }

    /** Every row of the buffer is its sample's adjoint pulled back through layers k and above. */
    static ghost predicate AllPulledTo(mlp: AffineMLP, tape: BatchTape, contributions: seq<real>,
                                       outputAdjoint: seq<real>,
                                       k: nat, buffer: seq<real>)
      requires mlp.Valid() && TapeShapeOk(mlp, tape) && k <= |mlp.layers|
    {
      forall s :: 0 <= s < tape.samples ==>
        PulledTo(mlp, tape, contributions, outputAdjoint, k, s,
                 Row(buffer, RowWidth(mlp.layers, tape.dynamicInputSize, k), s))
    }

    static lemma NothingPulled(mlp: AffineMLP, tape: BatchTape, contributions: seq<real>, outputAdjoint: seq<real>)
      requires mlp.Valid() && TapeShapeOk(mlp, tape)
      ensures AllPulledTo(mlp, tape, contributions, outputAdjoint, |mlp.layers|, outputAdjoint)
    {
      SampleLayersFit(mlp, contributions, 0, tape.dynamicInputSize);
    }

    static lemma AllPulledStep(mlp: AffineMLP, tape: BatchTape, input: seq<real>, contributions: seq<real>,
                               outputAdjoint: seq<real>, k: nat, active: nat, before: seq<real>,
                               after: seq<real>)
      requires mlp.Valid() && TapeShapeOk(mlp, tape) && k < |mlp.layers|
      requires active == RowWidth(mlp.layers, tape.dynamicInputSize, k)
      requires Recorded(mlp, tape.values, tape.samples, tape.dynamicInputSize, input, contributions, |mlp.layers|)
      requires mlp.layers[k].Valid() && mlp.layers[k].Accepts(active)
      requires AllPulledTo(mlp, tape, contributions, outputAdjoint, k + 1, before)
      requires RowsPulled(mlp.m, mlp.layers[k], tape.values[k], before, after, tape.samples, active)
      ensures AllPulledTo(mlp, tape, contributions, outputAdjoint, k, after)
    {
      var n := tape.dynamicInputSize;
      forall s | 0 <= s < tape.samples
        ensures PulledTo(mlp, tape, contributions, outputAdjoint, k, s, Row(after, RowWidth(mlp.layers, n, k), s))
      {
        PulledStep(mlp, tape, input, contributions, outputAdjoint, k, s, Row(before, mlp.layers[k].OutputSize(), s),
                   Row(after, RowWidth(mlp.layers, n, k), s));
      }
    }

    static lemma AllPulledDone(mlp: AffineMLP, tape: BatchTape, input: seq<real>, contributions: seq<real>,
                               outputAdjoint: seq<real>, buffer: seq<real>)
      requires mlp.Valid() && TapeShapeOk(mlp, tape)
      requires Recorded(mlp, tape.values, tape.samples, tape.dynamicInputSize, input, contributions, |mlp.layers|)
      requires AllPulledTo(mlp, tape, contributions, outputAdjoint, 0, buffer)
      ensures RowsAreGradients(mlp, tape, input, contributions, outputAdjoint, buffer)
    {
      var n := tape.dynamicInputSize;
      forall s | 0 <= s < tape.samples
        ensures var eff := SampleLayers(mlp.layers, contributions, s);
                && Fits(eff, n) && Width(eff, n) == mlp.OutputSize()
                && Row(buffer, n, s) == Gradient(mlp.m, eff, Row(input, n, s), Row(outputAdjoint, mlp.OutputSize(), s))
      {
        SampleLayersFit(mlp, contributions, s, n);
        assert PulledTo(mlp, tape, contributions, outputAdjoint, 0, s, Row(buffer, RowWidth(mlp.layers, n, 0), s));
        assert SampleLayers(mlp.layers, contributions, s)[0..] == SampleLayers(mlp.layers, contributions, s);
      }
    }

    /** w is the adjoint of sample s pulled back through layers k and above. */
    static ghost predicate PulledTo(mlp: AffineMLP, tape: BatchTape, contributions: seq<real>, outputAdjoint: seq<real>,
                                    k: nat, s: int, w: seq<real>)
      requires mlp.Valid() && TapeShapeOk(mlp, tape) && k <= |mlp.layers|
    {
      var eff := SampleLayers(mlp.layers, contributions, s);
      var x := Row(tape.values[k], RowWidth(mlp.layers, tape.dynamicInputSize, k), s);
      && Fits(eff[k..], |x|) && Width(eff[k..], |x|) == mlp.OutputSize()
      && w == Gradient(mlp.m, eff[k..], x, Row(outputAdjoint, mlp.OutputSize(), s))
    }

    static lemma PulledStep(mlp: AffineMLP, tape: BatchTape, input: seq<real>, contributions: seq<real>,
                            outputAdjoint: seq<real>, k: nat, s: int, w: seq<real>, r: seq<real>)
      requires mlp.Valid() && TapeShapeOk(mlp, tape) && k < |mlp.layers| && 0 <= s < tape.samples
      requires Recorded(mlp, tape.values, tape.samples, tape.dynamicInputSize, input, contributions, |mlp.layers|)
      requires PulledTo(mlp, tape, contributions, outputAdjoint, k + 1, s, w)
      requires mlp.layers[k].Valid() && mlp.layers[k].Accepts(RowWidth(mlp.layers, tape.dynamicInputSize, k))
      requires r == PullBack(mlp.m, mlp.layers[k],
                             Row(tape.values[k], RowWidth(mlp.layers, tape.dynamicInputSize, k), s), w)
      ensures PulledTo(mlp, tape, contributions, outputAdjoint, k, s, r)
    {
      var n, eff := tape.dynamicInputSize, SampleLayers(mlp.layers, contributions, s);
      var rows := SampleTape(mlp.layers, n, tape.values, s);
      var x := Row(tape.values[k], RowWidth(mlp.layers, n, k), s);
      SampleLayersFit(mlp, contributions, s, n);
      assert Fits(eff[k..], |rows[k]|) && StepsTo(mlp.m, eff[k], rows[k], rows[k + 1]);
      SuffixStep(mlp.m, eff, k, x);
      SuffixGradient(mlp.m, eff, k, x, Row(outputAdjoint, mlp.OutputSize(), s));
      if k == 0 {
        assert WeightMatrix(eff[0]) == WeightMatrix(mlp.layers[0]);
      }
    }
  }
}
