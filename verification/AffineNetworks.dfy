/** Whole affine networks: meaning, derivative, gradient and conditioning, for layer lists of any depth. */
module AffineNetworks {
  import opened FiniteSums
  import opened DualNumbers
  import opened AffineLayers

  /** The layers can be run one after the other on n inputs. */
  ghost predicate Fits(layers: seq<Layer>, n: nat) {
    layers != [] ==> layers[0].Valid() && layers[0].Accepts(n) && Fits(layers[1..], layers[0].OutputSize())
  }

  function Width(layers: seq<Layer>, n: nat): nat {
    if layers == [] then n else layers[|layers| - 1].OutputSize()
  }

  ghost function Evaluate(m: Elementary, layers: seq<Layer>, x: seq<real>): (y: seq<real>)
    requires m.Valid() && Fits(layers, |x|)
    ensures |y| == Width(layers, |x|)
    decreases |layers|
  {
    if layers == [] then x else Evaluate(m, layers[1..], Forward(m, layers[0], x))
  }

  /** The same program on dual numbers: the reference definition of its directional derivative. */
  ghost function DualEvaluate(m: Elementary, layers: seq<Layer>, x: seq<Dual>): (y: seq<Dual>)
    requires m.Valid() && Fits(layers, |x|)
    ensures |y| == Width(layers, |x|)
    decreases |layers|
  {
    if layers == [] then x else DualEvaluate(m, layers[1..], DualForward(m, layers[0], x))
  }

  /** Directional derivative at x along dx. */
  ghost function Derivative(m: Elementary, layers: seq<Layer>, x: seq<real>, dx: seq<real>): (dy: seq<real>)
    requires m.Valid() && Fits(layers, |x|) && |dx| == |x|
    ensures |dy| == Width(layers, |x|)
  {
    Tangents(DualEvaluate(m, layers, Zip(x, dx)))
  }

  /** Reverse mode: the adjoint w of the output pulled back to the input. */
  ghost function Gradient(m: Elementary, layers: seq<Layer>, x: seq<real>, w: seq<real>): (r: seq<real>)
    requires m.Valid() && Fits(layers, |x|) && |w| == Width(layers, |x|)
    ensures |r| == |x|
    decreases |layers|
  {
    if layers == [] then w
    else PullBack(m, layers[0], x, Gradient(m, layers[1..], Forward(m, layers[0], x), w))
  }

  // ---------------------------------------------------------------- forward mode and reverse mode

  /** One layer peeled off the derivative. */
  lemma DerivativeStep(m: Elementary, layers: seq<Layer>, x: seq<real>, dx: seq<real>)
    requires m.Valid() && Fits(layers, |x|) && |dx| == |x| && layers != []
    ensures DualEvaluate(m, layers, Zip(x, dx))
         == DualEvaluate(m, layers[1..], Zip(Forward(m, layers[0], x), Tangent(m, layers[0], x, dx)))
  {
    DualForwardParts(m, layers[0], x, dx);
  }

  /** The values carried along by the derivative are the network's own values. */
  lemma {:induction false} DerivativeCarriesValue(m: Elementary, layers: seq<Layer>, x: seq<real>, dx: seq<real>)
    requires m.Valid() && Fits(layers, |x|) && |dx| == |x|
    ensures Values(DualEvaluate(m, layers, Zip(x, dx))) == Evaluate(m, layers, x)
    decreases |layers|
  {
    if layers == [] {
      ZipParts(x, dx);
    } else {
      DerivativeStep(m, layers, x, dx);
      DerivativeCarriesValue(m, layers[1..], Forward(m, layers[0], x), Tangent(m, layers[0], x, dx));
    }
  }

  /** Reverse mode is the transpose of the derivative, for every layer list: <w, D f(x)[dx]> = <gradient, dx>. */
  lemma {:induction false} GradientTransposesDerivative(m: Elementary, layers: seq<Layer>,
                                                        x: seq<real>, dx: seq<real>, w: seq<real>)
    requires m.Valid() && Fits(layers, |x|) && |dx| == |x| && |w| == Width(layers, |x|)
    ensures Dot(w, Derivative(m, layers, x, dx)) == Dot(Gradient(m, layers, x, w), dx)
    decreases |layers|
  {
    if layers == [] {
      ZipParts(x, dx);
    } else {
      var y, dy := Forward(m, layers[0], x), Tangent(m, layers[0], x, dx);
      DerivativeStep(m, layers, x, dx);
      GradientTransposesDerivative(m, layers[1..], y, dy, w);
      PullBackTransposes(m, layers[0], x, dx, Gradient(m, layers[1..], y, w));
    }
  }

  // ---------------------------------------------------------------- running from layer k on

  /** Peeling layer k off the rest of the network. */
  lemma SuffixStep(m: Elementary, layers: seq<Layer>, k: nat, x: seq<real>)
    requires m.Valid() && k < |layers| && Fits(layers[k..], |x|)
    ensures layers[k].Valid() && layers[k].Accepts(|x|)
    ensures Fits(layers[k + 1..], layers[k].OutputSize())
    ensures Width(layers[k + 1..], layers[k].OutputSize()) == Width(layers[k..], |x|)
    ensures Evaluate(m, layers[k..], x) == Evaluate(m, layers[k + 1..], Forward(m, layers[k], x))
  {
    assert layers[k..][1..] == layers[k + 1..] && layers[k..][0] == layers[k];
  }

  lemma SuffixGradient(m: Elementary, layers: seq<Layer>, k: nat, x: seq<real>, w: seq<real>)
    requires m.Valid() && k < |layers| && Fits(layers[k..], |x|) && |w| == Width(layers[k..], |x|)
    ensures layers[k].Valid() && layers[k].Accepts(|x|)
    ensures Fits(layers[k + 1..], layers[k].OutputSize())
    ensures |w| == Width(layers[k + 1..], layers[k].OutputSize())
    ensures Gradient(m, layers[k..], x, w)
         == PullBack(m, layers[k], x, Gradient(m, layers[k + 1..], Forward(m, layers[k], x), w))
  {
    SuffixStep(m, layers, k, x);
    assert layers[k..][1..] == layers[k + 1..] && layers[k..][0] == layers[k];
  }

  lemma SuffixDerivative(m: Elementary, layers: seq<Layer>, k: nat, x: seq<real>, dx: seq<real>)
    requires m.Valid() && k < |layers| && Fits(layers[k..], |x|) && |dx| == |x|
    ensures layers[k].Valid() && layers[k].Accepts(|x|)
    ensures Fits(layers[k + 1..], layers[k].OutputSize())
    ensures DualEvaluate(m, layers[k..], Zip(x, dx))
         == DualEvaluate(m, layers[k + 1..], Zip(Forward(m, layers[k], x), Tangent(m, layers[k], x, dx)))
  {
    SuffixStep(m, layers, k, x);
    assert layers[k..][1..] == layers[k + 1..] && layers[k..][0] == layers[k];
    DerivativeStep(m, layers[k..], x, dx);
  }

  // ---------------------------------------------------------------- composition

  lemma {:induction false} FitsAppend(a: seq<Layer>, b: seq<Layer>, n: nat)
    ensures Fits(a + b, n) <==> Fits(a, n) && Fits(b, Width(a, n))
    decreases |a|
  {
    if a == [] {
      assert a + b == b;
    } else {
      assert (a + b)[1..] == a[1..] + b;
      FitsAppend(a[1..], b, a[0].OutputSize());
    }
  }

  lemma {:induction false} EvaluateAppend(m: Elementary, a: seq<Layer>, b: seq<Layer>, x: seq<real>)
    requires m.Valid() && Fits(a, |x|) && Fits(b, Width(a, |x|))
    ensures Fits(a + b, |x|)
    ensures Evaluate(m, a + b, x) == Evaluate(m, b, Evaluate(m, a, x))
    decreases |a|
  {
    FitsAppend(a, b, |x|);
    if a == [] {
      assert a + b == b;
    } else {
      assert (a + b)[1..] == a[1..] + b;
      EvaluateAppend(m, a[1..], b, Forward(m, a[0], x));
    }
  }

  lemma {:induction false} GradientAppend(m: Elementary, a: seq<Layer>, b: seq<Layer>, x: seq<real>, w: seq<real>)
    requires m.Valid() && Fits(a, |x|) && Fits(b, Width(a, |x|)) && |w| == Width(a + b, |x|)
    ensures Fits(a + b, |x|)
    ensures Gradient(m, a + b, x, w) == Gradient(m, a, x, Gradient(m, b, Evaluate(m, a, x), w))
    decreases |a|
  {
    FitsAppend(a, b, |x|);
    if a == [] {
      assert a + b == b;
    } else {
      assert (a + b)[1..] == a[1..] + b;
      GradientAppend(m, a[1..], b, Forward(m, a[0], x), w);
    }
  }

  // ---------------------------------------------------------------- conditioning the first layer

  /** The network whose first bias has the two contributions added. */
  function Conditioned(layers: seq<Layer>, first: seq<real>, second: seq<real>): seq<Layer>
    requires layers != [] && layers[0].Linear? && |layers[0].bias| == |first| == |second|
  {
    [Layer.Linear(layers[0].inputs, layers[0].outputs, layers[0].weight,
            seq(|first|, i requires 0 <= i < |first| => layers[0].bias[i] + (first[i] + second[i])))] + layers[1..]
  }

  /** Product of a column block of the first weight with `values`. */
  ghost function Contribution(layer: Layer, offset: nat, values: seq<real>): seq<real>
    requires layer.Linear?
  {
    var a := WeightMatrix(layer);
    seq(layer.outputs, row => Sum(|values|, c => a(row, offset + c) * At(values, c)))
  }

  lemma ConditionedFits(layers: seq<Layer>, first: seq<real>, second: seq<real>, n: nat)
    requires layers != [] && layers[0].Linear? && Fits(layers, layers[0].InputSize())
    requires |layers[0].bias| == |first| == |second| && 0 < n <= layers[0].inputs
    ensures Fits(Conditioned(layers, first, second), n) && Fits(layers, n)
    ensures Width(Conditioned(layers, first, second), n) == Width(layers, n)
  {
    assert Conditioned(layers, first, second)[1..] == layers[1..];
  }

  /** A row product over a concatenation splits into the products over the pieces. */
  lemma RowSplits(a: (int, int) -> real, row: int, x: seq<real>, y: seq<real>)
    ensures Sum(|x + y|, c => a(row, c) * At(x + y, c))
         == Sum(|x|, c => a(row, c) * At(x, c)) + Sum(|y|, c => a(row, |x| + c) * At(y, c))
  {
    var f := c => a(row, c) * At(x + y, c);
    SumSplit(|x|, |y|, f);
    forall c | 0 <= c < |x| ensures f(c) == a(row, c) * At(x, c) {
      assert At(x + y, c) == At(x, c);
    }
    SumCong(|x|, f, c => a(row, c) * At(x, c));
    forall c | 0 <= c < |y| ensures f(|x| + c) == a(row, |x| + c) * At(y, c) {
      assert At(x + y, |x| + c) == At(y, c);
    }
    SumCong(|y|, c => f(|x| + c), c => a(row, |x| + c) * At(y, c));
  }

  lemma ConditionedRow(layer: Layer, x: seq<real>, y: seq<real>, z: seq<real>, row: int)
    requires layer.Linear?
    ensures var a := WeightMatrix(layer);
            (Applied(|x + y + z|, a, Entries(x + y + z))(row)
          == Applied(|x|, a, Entries(x))(row)
             + (Sum(|y|, c => a(row, |x| + c) * At(y, c)) + Sum(|z|, c => a(row, |x| + |y| + c) * At(z, c))))
  {
    ThreeSegments(WeightMatrix(layer), row, x, y, z);
  }

  /** The same for any matrix. */
  lemma ThreeSegments(a: (int, int) -> real, row: int, x: seq<real>, y: seq<real>, z: seq<real>)
    ensures Applied(|x + y + z|, a, Entries(x + y + z))(row)
         == Applied(|x|, a, Entries(x))(row)
            + (Sum(|y|, c => a(row, |x| + c) * At(y, c)) + Sum(|z|, c => a(row, |x| + |y| + c) * At(z, c)))
  {
    RowSplits(a, row, x + y, z);
    RowSplits(a, row, x, y);
    assert |x + y| == |x| + |y|;
    var e, ex := Entries(x + y + z), Entries(x);
    SumCong(|x + y + z|, c => a(row, c) * e(c), c => a(row, c) * At(x + y + z, c));
    SumCong(|x|, c => a(row, c) * ex(c), c => a(row, c) * At(x, c));
  }

  /** Conditioning preserves meaning: when the dynamic input and the two pre-multiplied segments tile the first
      layer's columns, conditioned evaluation is evaluation of the concatenation. */
  lemma ConditionedEvaluation(m: Elementary, layers: seq<Layer>, x: seq<real>, y: seq<real>, z: seq<real>)
    requires m.Valid() && layers != [] && layers[0].Linear? && Fits(layers, layers[0].inputs)
    requires |x| > 0 && |x + y + z| == layers[0].inputs
    ensures var first, second := Contribution(layers[0], |x|, y), Contribution(layers[0], |x| + |y|, z);
            && Fits(Conditioned(layers, first, second), |x|)
            && Evaluate(m, Conditioned(layers, first, second), x) == Evaluate(m, layers, x + y + z)
  {
    var first, second := Contribution(layers[0], |x|, y), Contribution(layers[0], |x| + |y|, z);
    var conditioned := Conditioned(layers, first, second);
    ConditionedFits(layers, first, second, |x|);
    assert conditioned[1..] == layers[1..];
    ConditionedFirstLayer(m, layers, x, y, z);
  }

  lemma ConditionedFirstLayer(m: Elementary, layers: seq<Layer>, x: seq<real>, y: seq<real>, z: seq<real>)
    requires m.Valid() && layers != [] && layers[0].Linear? && Fits(layers, layers[0].inputs)
    requires |x| > 0 && |x + y + z| == layers[0].inputs
    ensures var first, second := Contribution(layers[0], |x|, y), Contribution(layers[0], |x| + |y|, z);
            var head := Conditioned(layers, first, second)[0];
            head.Valid() && head.Accepts(|x|) && Forward(m, head, x) == Forward(m, layers[0], x + y + z)
  {
    var first, second := Contribution(layers[0], |x|, y), Contribution(layers[0], |x| + |y|, z);
    var head := Conditioned(layers, first, second)[0];
    forall row | 0 <= row < layers[0].outputs
      ensures Forward(m, head, x)[row] == Forward(m, layers[0], x + y + z)[row]
    {
      ConditionedRow(layers[0], x, y, z, row);
      assert WeightMatrix(head) == WeightMatrix(layers[0]);
    }
  }

  /** The gradient of the conditioned network is the dynamic prefix of the full gradient. */
  lemma ConditionedGradient(m: Elementary, layers: seq<Layer>, x: seq<real>, y: seq<real>, z: seq<real>, w: seq<real>)
    requires m.Valid() && layers != [] && layers[0].Linear? && Fits(layers, layers[0].inputs)
    requires |x| > 0 && |x + y + z| == layers[0].inputs && |w| == Width(layers, layers[0].inputs)
    ensures var first, second := Contribution(layers[0], |x|, y), Contribution(layers[0], |x| + |y|, z);
            && Fits(Conditioned(layers, first, second), |x|)
            && Gradient(m, Conditioned(layers, first, second), x, w) == Gradient(m, layers, x + y + z, w)[..|x|]
  {
    var first, second := Contribution(layers[0], |x|, y), Contribution(layers[0], |x| + |y|, z);
    var conditioned := Conditioned(layers, first, second);
    ConditionedFits(layers, first, second, |x|);
    assert conditioned[1..] == layers[1..];
    ConditionedFirstLayer(m, layers, x, y, z);
    assert WeightMatrix(conditioned[0]) == WeightMatrix(layers[0]);
  }
}
