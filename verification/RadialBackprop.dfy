/** The reverse pass of the radial networks over all pairs and grid nodes
    (libsymmetrix/source/compact_radial.cpp:493-596). */
module RadialBackprop {
  import opened Results
  import opened RealArithmetic
  import opened FiniteSums
  import opened FlatIndex
  import opened DualNumbers
  import opened DenseKernels
  import opened RadialNetworks

  datatype BackpropError = InvalidSize | PostprocessingUnsupported | UnexpectedProjection

  /** A network as the model stores it. */
  datatype Network = Network(m: Elementary, shape: seq<nat>, weights: seq<seq<real>>, activationScale: real,
                             tanhSquare: bool, tanh: real -> real) {
    ghost predicate Valid() {
      && m.Valid() && |shape| >= 2 && |weights| == |shape| - 1
      && (forall l :: 0 <= l < |shape| ==> shape[l] > 0)
      && (forall l: nat :: l < |weights| ==> Sized(l))
    }

    predicate Sized(l: nat)
      requires l < |weights| && l + 1 < |shape|
    {
      |weights[l]| == shape[l + 1] * shape[l]
    }

    function Layers(): nat { |weights| }

    predicate Activates(l: nat) { l + 1 < |shape| - 1 }

    /** The network as a mathematical object. */
    ghost function Model(): (r: Perceptron)
      requires Valid()
      ensures r.Valid() && r.shape == shape && r.weights == weights
    {
      Perceptron(shape, weights, ScaledSiluActivation(m, activationScale),
                 if tanhSquare then TanhSquareActivation(tanh) else RadialNetworks.Linear())
    }

    /** A run of the network, written out in the entries of its weights: all layers but the last are followed by the
        scaled SiLU. */
    ghost predicate IsRun(u: seq<seq<real>>)
      requires Valid()
    {
      && |u| == |shape| && (forall l :: 0 <= l < |shape| ==> |u[l]| == shape[l])
      && forall l: nat :: l < |weights| ==> RunsLayer(l, u[l], u[l + 1])
    }

    ghost predicate RunsLayer(l: nat, x: seq<real>, y: seq<real>)
      requires Valid() && l < |weights| && |y| == shape[l + 1]
    {
      forall o :: 0 <= o < |y| ==>
        RunsEntry(l, x, y, o, Sum(shape[l], i => At(weights[l], o * shape[l] + i) * At(x, i)))
    }

    ghost predicate RunsEntry(l: nat, x: seq<real>, y: seq<real>, o: int, z: real)
      requires 0 <= o < |y|
    {
      if l + 1 < |weights| then y[o] * (1.0 + m.exp(-z)) == activationScale * z else y[o] == z
    }

    /** The levels of the model are the vectors of a run. */
    lemma {:induction false} RunIsLevel(u: seq<seq<real>>, x: int -> real, l: nat)
      requires Valid() && IsRun(u) && l <= Layers() && Agrees(u[0], x)
      ensures Agrees(u[l], Model().Level(x, l))
    {
      if l == 0 {
      } else {
        var below := l - 1;
        RunIsLevel(u, x, below);
        assert RunsLayer(below, u[below], u[l]);
        forall o | 0 <= o < |u[l]| ensures u[l][o] == Model().Level(x, l)(o) {
          LayerOfRun(u[below], u[l], x, below, l, o);
        }
      }
    }

    lemma LayerOfRun(v: seq<real>, y: seq<real>, x: int -> real, below: nat, l: nat, o: int)
      requires Valid() && below < Layers() && l == below + 1 && |v| == shape[below] && |y| == shape[l]
      requires Agrees(v, Model().Level(x, below)) && RunsLayer(below, v, y) && 0 <= o < |y|
      ensures y[o] == Model().Level(x, l)(o)
    {
      var z := Model().Pre(x, below)(o);
      PreOfRun(v, x, below, o, o * shape[below]);
      assert RunsEntry(below, v, y, o, z);
      ActivatedEntry(v, y, below, o, z);
      assert Model().Level(x, l)(o) == Model().After(below).value(z);
    }

    lemma ActivatedEntry(v: seq<real>, y: seq<real>, l: nat, o: int, z: real)
      requires Valid() && l < Layers() && 0 <= o < |y| && RunsEntry(l, v, y, o, z)
      ensures y[o] == Model().After(l).value(z)
    {
      QuotientIs(activationScale * z, 1.0 + m.exp(-z), y[o]);
    }

    lemma PreOfRun(v: seq<real>, x: int -> real, l: nat, o: int, start: int)
      requires Valid() && l < Layers() && |v| == shape[l] && Agrees(v, Model().Level(x, l)) && start == o * shape[l]
      ensures Model().Pre(x, l)(o) == Sum(shape[l], i => At(weights[l], start + i) * At(v, i))
    {
      var w, level := Model().Weight(l), Model().Level(x, l);
      forall i | 0 <= i < shape[l] ensures w(o, i) * level(i) == At(weights[l], start + i) * At(v, i) {
        assert Offset(o, shape[l], i) == start + i;
      }
      SumCong(shape[l], i => w(o, i) * level(i), i => At(weights[l], start + i) * At(v, i));
    }

    /** Every theorem about derivatives applies to it. */
    lemma ModelDifferentiable()
      requires Valid()
      ensures Model().Differentiable()
    {
      ScaledSiluDerived(m, activationScale);
      TanhSquareDerived(tanh);
      LinearDerived();
    }
  }

  /** The entries of s are those of f. */
  ghost predicate Agrees(s: seq<real>, f: int -> real) {
    forall i :: 0 <= i < |s| ==> s[i] == f(i)
  }

  lemma InnerOfRow(w: seq<real>, rows: nat, n: nat, o: nat, x: seq<real>, f: int -> real, k: nat)
    requires |w| == rows * n && o < rows && |x| == n && Agrees(x, f) && k < n
    ensures 0 <= Offset(o, n, k) < |w|
    ensures Sum(k + 1, i => MatrixOf(w, n)(o, i) * f(i))
         == Sum(k, i => MatrixOf(w, n)(o, i) * f(i)) + w[Offset(o, n, k)] * x[k]
  {
    OffsetBound(o, rows, n, k);
    SumExtends(k, i => MatrixOf(w, n)(o, i) * f(i), w[Offset(o, n, k)] * x[k]);
  }

  lemma SumExtends(k: nat, f: int -> real, v: real)
    requires f(k) == v
    ensures Sum(k + 1, f) == Sum(k, f) + v
  {
  }

  method Multiply(w: seq<real>, rows: nat, n: nat, x: seq<real>, ghost f: int -> real) returns (y: seq<real>)
    requires |w| == rows * n && |x| == n && Agrees(x, f)
    ensures |y| == rows && Agrees(y, Applied(n, MatrixOf(w, n), f))
  {
    y := [];
    for output := 0 to rows
      invariant |y| == output && Agrees(y, Applied(n, MatrixOf(w, n), f))
    {
      var z := 0.0;
      for input := 0 to n
        invariant z == Sum(input, i => MatrixOf(w, n)(output, i) * f(i))
      {
        InnerOfRow(w, rows, n, output, x, f, input);
        z := z + w[output * n + input] * x[input];
      }
      y := y + [z];
    }
  }

  /** One layer forward (lines 543-557). */
  method ForwardLayer(net: Network, l: nat, value: seq<real>, ghost x: int -> real)
    returns (pre: seq<real>, next: seq<real>)
    requires net.Valid() && l < net.Layers() && |value| == net.shape[l] && Agrees(value, net.Model().Level(x, l))
    ensures |pre| == |next| == net.shape[l + 1]
    ensures Agrees(pre, net.Model().Pre(x, l)) && Agrees(next, net.Model().Level(x, l + 1))
  {
    assert net.Sized(l);
    ghost var model := net.Model();
    pre := Multiply(net.weights[l], net.shape[l + 1], net.shape[l], value, model.Level(x, l));
    next := Activate(net, l, pre);
    ComposedAgrees(model.After(l).value, pre, next, model.Pre(x, l));
  }

  lemma ComposedAgrees(f: real -> real, pre: seq<real>, next: seq<real>, x: int -> real)
    requires |pre| == |next| && Agrees(pre, x)
    requires forall i :: 0 <= i < |pre| ==> next[i] == f(pre[i])
    ensures Agrees(next, Composed(f, x))
  {
  }

  method Activate(net: Network, l: nat, pre: seq<real>) returns (next: seq<real>)
    requires net.Valid() && l < net.Layers()
    ensures |next| == |pre|
    ensures forall i :: 0 <= i < |pre| ==> next[i] == net.Model().After(l).value(pre[i])
  {
    next := [];
    for output := 0 to |pre|
      invariant |next| == output
      invariant forall i :: 0 <= i < output ==> next[i] == net.Model().After(l).value(pre[i])
    {
      var z := pre[output];
      next := next + [if net.Activates(l) then net.activationScale * z / (1.0 + net.m.exp(-z)) else z];
    }
  }

  /** Multiplies the adjoint by the activation's slopes (lines 572-580). */
  method ScaleBySlopes(net: Network, l: nat, adjoint: seq<real>, pre: seq<real>) returns (delta: seq<real>)
    requires net.Valid() && l < net.Layers() && |adjoint| == |pre|
    ensures |delta| == |pre|
    ensures forall i :: 0 <= i < |pre| ==> delta[i] == adjoint[i] * net.Model().After(l).slope(pre[i])
  {
    if !net.Activates(l) {
      return adjoint;
    }
    delta := [];
    for output := 0 to |pre|
      invariant |delta| == output
      invariant forall i :: 0 <= i < output ==> delta[i] == adjoint[i] * net.Model().After(l).slope(pre[i])
    {
      var z := pre[output];
      var sigmoid := 1.0 / (1.0 + net.m.exp(-z));
      delta := delta + [adjoint[output] * (net.activationScale * sigmoid * (1.0 + z * (1.0 - sigmoid)))];
    }
  }

  /** The buffer grew by the matrix g, entry by entry. */
  ghost predicate GrewBy(before: seq<real>, after: seq<real>, rows: nat, n: nat, g: (int, int) -> real) {
    && |after| == |before|
    && forall o, i :: 0 <= o < rows && 0 <= i < n ==> MatrixOf(after, n)(o, i) == MatrixOf(before, n)(o, i) + g(o, i)
  }

  /** The buffer grew by the matrix g, in the entries in front of (output, input) only. */
  ghost predicate GrowingBy(before: seq<real>, after: seq<real>, rows: nat, n: nat, g: (int, int) -> real, output: int,
                            input: int)
  {
    && |after| == |before|
    && forall o, i :: 0 <= o < rows && 0 <= i < n ==>
         MatrixOf(after, n)(o, i) == MatrixOf(before, n)(o, i) + Started(g, o, i, output, input)
  }

  ghost function Started(g: (int, int) -> real, o: int, i: int, output: int, input: int): real {
    if o < output || (o == output && i < input) then g(o, i) else 0.0
  }

  lemma GrowingStep(before: seq<real>, after: seq<real>, rows: nat, n: nat, g: (int, int) -> real, output: nat,
                    input: nat, v: real)
    requires |before| == rows * n && GrowingBy(before, after, rows, n, g, output, input)
    requires output < rows && input < n && v == g(output, input)
    ensures 0 <= Offset(output, n, input) < |after|
    ensures GrowingBy(before, after[Offset(output, n, input) := after[Offset(output, n, input)] + v], rows, n, g,
                      output, input + 1)
  {
    OffsetBound(output, rows, n, input);
    var t := Offset(output, n, input);
    var next := after[t := after[t] + v];
    forall o, i | 0 <= o < rows && 0 <= i < n
      ensures MatrixOf(next, n)(o, i) == MatrixOf(before, n)(o, i) + Started(g, o, i, output, input + 1)
    {
      assert MatrixOf(after, n)(o, i) == MatrixOf(before, n)(o, i) + Started(g, o, i, output, input);
      if Offset(o, n, i) == t {
        OffsetInjective(n, o, i, output, input);
      }
    }
  }

  /** What one entry of the weight adds: to the gradient, and to the adjoint pulled through one more row. */
  lemma EntryAdds(w: seq<real>, rows: nat, n: nat, delta: seq<real>, value: seq<real>, output: nat, input: nat,
                  d: int -> real, v: int -> real, below: nat)
    requires |w| == rows * n && |delta| == rows && |value| == n && Agrees(delta, d) && Agrees(value, v)
    requires output < rows && below == output + 1 && input < n
    ensures 0 <= Offset(output, n, input) < |w|
    ensures delta[output] * value[input] == Outer(d, v)(output, input)
    ensures Pulled(below, MatrixOf(w, n), d)(input)
         == Pulled(output, MatrixOf(w, n), d)(input) + delta[output] * w[Offset(output, n, input)]
  {
    OffsetBound(output, rows, n, input);
  }

  /** The double loop of one layer backwards (lines 581-591): the weight gradient grows by the outer product, the
      adjoint is pulled through the weight. */
  method ReverseLayer(w: seq<real>, rows: nat, n: nat, delta: seq<real>, value: seq<real>, gradient: seq<real>,
                      ghost d: int -> real, ghost v: int -> real)
    returns (gradient': seq<real>, inputAdjoint: seq<real>)
    requires |w| == |gradient| == rows * n && |delta| == rows && |value| == n
    requires Agrees(delta, d) && Agrees(value, v)
    ensures GrewBy(gradient, gradient', rows, n, Outer(d, v))
    ensures |inputAdjoint| == n && Agrees(inputAdjoint, Pulled(rows, MatrixOf(w, n), d))
  {
    gradient', inputAdjoint := gradient, seq(n, _ => 0.0);
    for output := 0 to rows
      invariant GrowingBy(gradient, gradient', rows, n, Outer(d, v), output, 0)
      invariant |inputAdjoint| == n && Agrees(inputAdjoint, Pulled(output, MatrixOf(w, n), d))
    {
      gradient', inputAdjoint := ReverseRow(w, rows, n, delta, value, output, gradient', inputAdjoint, gradient, d, v,
                                            output + 1);
    }
  }

  /** The inner loop. */
  method ReverseRow(w: seq<real>, rows: nat, n: nat, delta: seq<real>, value: seq<real>, output: nat,
                    gradient: seq<real>, adjoint: seq<real>, ghost before: seq<real>, ghost d: int -> real,
                    ghost v: int -> real, ghost below: nat)
    returns (gradient': seq<real>, inputAdjoint: seq<real>)
    requires |w| == |before| == rows * n && |delta| == rows && |value| == |adjoint| == n
    requires Agrees(delta, d) && Agrees(value, v) && output < rows && below == output + 1
    requires GrowingBy(before, gradient, rows, n, Outer(d, v), output, 0)
    requires Agrees(adjoint, Pulled(output, MatrixOf(w, n), d))
    ensures GrowingBy(before, gradient', rows, n, Outer(d, v), below, 0)
    ensures |inputAdjoint| == n && Agrees(inputAdjoint, Pulled(below, MatrixOf(w, n), d))
  {
    ghost var above, pulled := Pulled(output, MatrixOf(w, n), d), Pulled(below, MatrixOf(w, n), d);
    gradient', inputAdjoint := gradient, adjoint;
    for input := 0 to n
      invariant GrowingBy(before, gradient', rows, n, Outer(d, v), output, input)
      invariant |inputAdjoint| == n
      invariant forall i :: 0 <= i < n ==> inputAdjoint[i] == if i < input then pulled(i) else above(i)
    {
      EntryAdds(w, rows, n, delta, value, output, input, d, v, below);
      GrowingStep(before, gradient', rows, n, Outer(d, v), output, input, delta[output] * value[input]);
      var index := Offset(output, n, input);
      gradient' := gradient'[index := gradient'[index] + delta[output] * value[input]];
      inputAdjoint := inputAdjoint[input := inputAdjoint[input] + delta[output] * w[index]];
    }
  }

  // ---------------------------------------------------------------- one sample

  /** Values in front of every layer and before every activation. */
  ghost predicate HoldsForward(net: Network, top: nat, values: seq<seq<real>>, pres: seq<seq<real>>, x: int -> real)
    requires net.Valid() && top <= net.Layers()
  {
    && |values| == top + 1 && |pres| == top
    && (forall l :: 0 <= l <= top ==> |values[l]| == net.shape[l] && Agrees(values[l], net.Model().Level(x, l)))
    && (forall l :: 0 <= l < top ==> |pres[l]| == net.shape[l + 1] && Agrees(pres[l], net.Model().Pre(x, l)))
  }

  lemma HoldsForwardStep(net: Network, layer: nat, values: seq<seq<real>>, pres: seq<seq<real>>, next: seq<real>,
                         pre: seq<real>, x: int -> real)
    requires net.Valid() && layer < net.Layers() && HoldsForward(net, layer, values, pres, x)
    requires |pre| == |next| == net.shape[layer + 1]
    requires Agrees(pre, net.Model().Pre(x, layer)) && Agrees(next, net.Model().Level(x, layer + 1))
    ensures HoldsForward(net, layer + 1, values + [next], pres + [pre], x)
  {
    var values', pres', above := values + [next], pres + [pre], layer + 1;
    forall l | 0 <= l <= above ensures |values'[l]| == net.shape[l] && Agrees(values'[l], net.Model().Level(x, l)) {
      assert l < above ==> values'[l] == values[l];
    }
    forall l | 0 <= l < above ensures |pres'[l]| == net.shape[l + 1] && Agrees(pres'[l], net.Model().Pre(x, l)) {
      assert l < layer ==> pres'[l] == pres[l];
    }
  }

  method ForwardSample(net: Network, top: nat, input: seq<real>, ghost x: int -> real)
    returns (values: seq<seq<real>>, pres: seq<seq<real>>)
    requires net.Valid() && top <= net.Layers() && |input| == net.shape[0] && Agrees(input, x)
    ensures HoldsForward(net, top, values, pres, x)
  {
    values, pres := [input], [];
    for layer := 0 to top
      invariant HoldsForward(net, layer, values, pres, x)
    {
      var pre, next := ForwardLayer(net, layer, values[layer], x);
      HoldsForwardStep(net, layer, values, pres, next, pre, x);
      values, pres := values + [next], pres + [pre];
    }
  }

  /** The postprocessing's slopes, when there is a postprocessing (lines 563-569). */
  method ScaleByPost(net: Network, last: seq<real>, adjoint: seq<real>, ghost x: int -> real, ghost g: int -> real)
    returns (scaled: seq<real>)
    requires net.Valid() && |last| == |adjoint| == net.shape[net.Layers()]
    requires Agrees(last, net.Model().Level(x, net.Layers())) && Agrees(adjoint, g)
    ensures |scaled| == |adjoint| && Agrees(scaled, net.Model().TopAdjoint(x, g))
  {
    ghost var slopes := Composed(net.Model().post.slope, net.Model().Level(x, net.Layers()));
    scaled := [];
    for output := 0 to |adjoint|
      invariant |scaled| == output && forall i :: 0 <= i < output ==> scaled[i] == Times(g, slopes)(i)
    {
      var z := last[output];
      var slope := if net.tanhSquare then TanhSquareSlope(net.tanh, z) else 1.0;
      assert slope == slopes(output);
      scaled := scaled + [adjoint[output] * slope];
    }
  }

  /** The gradient buffers grew by one sample's gradients, in the layers from `from` on. */
  ghost predicate SampleAdded(net: Network, before: seq<seq<real>>, after: seq<seq<real>>, x: int -> real,
                              w: int -> real,
                              from: nat, top: nat)
    requires net.Valid() && from <= top <= net.Layers()
  {
    && |before| == |after| == net.Layers()
    && (forall l: nat :: from <= l < top ==>
         GrewBy(before[l], after[l], net.shape[l + 1], net.shape[l], net.Model().WeightGradient(x, w, l, top)))
    && (forall l: nat :: l < net.Layers() && (l < from || l >= top) ==> after[l] == before[l])
  }

  ghost predicate BuffersSized(net: Network, buffers: seq<seq<real>>)
    requires net.Valid()
  {
    |buffers| == net.Layers() && forall l: nat :: l < |buffers| ==> |buffers[l]| == |net.weights[l]|
  }

  /** One layer of the reverse loop: a, p and v are the adjoint behind the layer, what its activation is applied to,
      and the vector in front of it. */
  method ReverseStep(net: Network, layer: nat, values: seq<real>, pres: seq<real>, adjoint: seq<real>,
                     buffer: seq<real>,
                     ghost a: int -> real, ghost p: int -> real, ghost v: int -> real)
    returns (buffer': seq<real>, inputAdjoint: seq<real>)
    requires net.Valid() && layer < net.Layers() && |buffer| == |net.weights[layer]|
    requires |values| == net.shape[layer] && Agrees(values, v)
    requires |pres| == |adjoint| == net.shape[layer + 1] && Agrees(pres, p) && Agrees(adjoint, a)
    ensures GrewBy(buffer, buffer', |adjoint|, |values|, Outer(LayerDelta(net, layer, a, p), v))
    ensures |inputAdjoint| == |values|
    ensures Agrees(inputAdjoint,
                   Pulled(|adjoint|, MatrixOf(net.weights[layer], |values|), LayerDelta(net, layer, a, p)))
  {
    assert net.Sized(layer);
    var delta := ScaleBySlopes(net, layer, adjoint, pres);
    TimesAgrees(net.Model().After(layer).slope, adjoint, pres, delta, a, p);
    buffer', inputAdjoint := ReverseLayer(net.weights[layer], |adjoint|, |values|, delta, values, buffer,
                                          LayerDelta(net, layer, a, p), v);
  }

  /** The adjoint in front of an activation. */
  ghost function LayerDelta(net: Network, layer: nat, a: int -> real, p: int -> real): int -> real
    requires net.Valid()
  {
    Times(a, Composed(net.Model().After(layer).slope, p))
  }

  /** One layer down in the model: its weight gradient and the adjoint in front of it. */
  lemma AdjointStep(net: Network, layer: nat, above: nat, top: nat, x: int -> real, w: int -> real)
    requires net.Valid() && layer < top <= net.Layers() && above == layer + 1
    ensures var model := net.Model();
            var delta := LayerDelta(net, layer, model.Adjoint(x, w, above, top), model.Pre(x, layer));
            && model.WeightGradient(x, w, layer, top) == Outer(delta, model.Level(x, layer))
            && model.Adjoint(x, w, layer, top)
               == Pulled(net.shape[above], MatrixOf(net.weights[layer], net.shape[layer]), delta)
  {
  }

  lemma TimesAgrees(slope: real -> real, adjoint: seq<real>, pre: seq<real>, delta: seq<real>, a: int -> real,
                    p: int -> real)
    requires |adjoint| == |pre| == |delta| && Agrees(adjoint, a) && Agrees(pre, p)
    requires forall i :: 0 <= i < |pre| ==> delta[i] == adjoint[i] * slope(pre[i])
    ensures Agrees(delta, Times(a, Composed(slope, p)))
  {
    var s := Composed(slope, p);
    forall i | 0 <= i < |delta| ensures delta[i] == Times(a, s)(i) {
      assert slope(pre[i]) == s(i);
    }
  }

  lemma SampleAddedStep(net: Network, before: seq<seq<real>>, after: seq<seq<real>>, buffer: seq<real>, x: int -> real,
                        w: int -> real, layer: nat, top: nat)
    requires net.Valid() && layer < top <= net.Layers() && BuffersSized(net, before)
    requires SampleAdded(net, before, after, x, w, layer + 1, top) && BuffersSized(net, after)
    requires GrewBy(before[layer], buffer, net.shape[layer + 1], net.shape[layer],
                    net.Model().WeightGradient(x, w, layer, top))
    ensures SampleAdded(net, before, after[layer := buffer], x, w, layer, top)
    ensures BuffersSized(net, after[layer := buffer])
  {
  }

  /** The reverse loop over the layers (lines 571-593). */
  method ReverseSample(net: Network, top: nat, values: seq<seq<real>>, pres: seq<seq<real>>, adjoint: seq<real>,
                       buffers: seq<seq<real>>, ghost x: int -> real, ghost w: int -> real)
    returns (buffers': seq<seq<real>>)
    requires net.Valid() && top <= net.Layers() && BuffersSized(net, buffers) && HoldsForward(net, top, values, pres, x)
    requires |adjoint| == net.shape[top] && Agrees(adjoint, w)
    ensures SampleAdded(net, buffers, buffers', x, w, 0, top) && BuffersSized(net, buffers')
  {
    var current := adjoint;
    buffers' := buffers;
    for layer := top downto 0
      invariant SampleAdded(net, buffers, buffers', x, w, layer, top) && BuffersSized(net, buffers')
      invariant |current| == net.shape[layer] && Agrees(current, net.Model().Adjoint(x, w, layer, top))
    {
      ghost var above := layer + 1;
      AdjointStep(net, layer, above, top, x, w);
      var buffer;
      buffer, current := ReverseStep(net, layer, values[layer], pres[layer], current, buffers'[layer],
                                     net.Model().Adjoint(x, w, above, top), net.Model().Pre(x, layer),
                                     net.Model().Level(x, layer));
      SampleAddedStep(net, buffers, buffers', buffer, x, w, layer, top);
      buffers' := buffers'[layer := buffer];
    }
  }

  /** All gradients of one sample (lines 536-593). */
  method AddSample(net: Network, top: nat, input: seq<real>, adjoint: seq<real>, buffers: seq<seq<real>>,
                   ghost x: int -> real, ghost g: int -> real)
    returns (buffers': seq<seq<real>>)
    requires net.Valid() && top <= net.Layers() && BuffersSized(net, buffers)
    requires |input| == net.shape[0] && Agrees(input, x) && |adjoint| == net.shape[top] && Agrees(adjoint, g)
    ensures SampleAdded(net, buffers, buffers', x, SampleAdjoint(net, x, g, top), 0, top) && BuffersSized(net, buffers')
  {
    var values, pres := ForwardSample(net, top, input, x);
    var current := adjoint;
    if top == net.Layers() {
      current := ScaleByPost(net, values[top], adjoint, x, g);
    }
    buffers' := ReverseSample(net, top, values, pres, current, buffers, x, SampleAdjoint(net, x, g, top));
  }

  /** The adjoint in front of layer `top`: postprocessed outputs are pulled through the postprocessing first. */
  ghost function SampleAdjoint(net: Network, x: int -> real, g: int -> real, top: nat): int -> real
    requires net.Valid() && top <= net.Layers()
  {
    if top == net.Layers() then net.Model().TopAdjoint(x, g) else g
  }

  // ---------------------------------------------------------------- all pairs and nodes

  /** Features of every pair (row-major by grid node) and the nodal adjoints, in the source's order. */
  datatype Batch = Batch(features: seq<seq<real>>, points: nat, adjoints: seq<real>, width: nat) {
    predicate Valid(inputs: nat) {
      && |adjoints| == |features| * points * width
      && forall p :: 0 <= p < |features| ==> |features[p]| == points * inputs
    }

    ghost function Input(inputs: nat, p: int, k: int): int -> real {
      if 0 <= p < |features| then RowSlice(features[p], inputs, k) else _ => 0.0
    }

    ghost function Adjoint(p: int, k: int): int -> real {
      RowSlice(adjoints, width, Offset(p, points, k))
    }
  }

  /** Gradient of weight l that node k of pair p adds. */
  ghost function NodeGradient(net: Network, b: Batch, top: nat, l: nat, p: int, k: int): (int, int) -> real
    requires net.Valid() && l < top <= net.Layers()
  {
    var x := b.Input(net.shape[0], p, k);
    net.Model().WeightGradient(x, SampleAdjoint(net, x, b.Adjoint(p, k), top), l, top)
  }

  /** Entry (o, i) of the gradient of weight l, over the first k nodes of pair p. */
  ghost function PairGradient(net: Network, b: Batch, top: nat, l: nat, p: int, k: nat, o: int, i: int): real
    requires net.Valid() && l < top <= net.Layers()
  {
    Sum(k, node => NodeGradient(net, b, top, l, p, node)(o, i))
  }

  /** The gradient of weight l over the first p pairs and the first k nodes of the next one. */
  ghost function GradientSoFar(net: Network, b: Batch, top: nat, l: nat, p: nat, k: nat): (int, int) -> real
    requires net.Valid() && l < top <= net.Layers()
  {
    (o, i) =>
      Sum(p, pair => PairGradient(net, b, top, l, pair, b.points, o, i)) + PairGradient(net, b, top, l, p, k, o, i)
  }

  /** The gradient of weight l over the whole batch. */
  ghost function BatchGradient(net: Network, b: Batch, top: nat, l: nat): (int, int) -> real
    requires net.Valid() && l < top <= net.Layers()
  {
    (o, i) => Sum(|b.features|, pair => PairGradient(net, b, top, l, pair, b.points, o, i))
  }

  /** The buffer of weight l holds the matrix g. */
  ghost predicate HoldsMatrix(net: Network, buffer: seq<real>, l: nat, g: (int, int) -> real)
    requires net.Valid() && l < net.Layers()
  {
    forall o, i :: 0 <= o < net.shape[l + 1] && 0 <= i < net.shape[l] ==>
      MatrixOf(buffer, net.shape[l])(o, i) == g(o, i)
  }

  lemma NodeAdded(net: Network, b: Batch, top: nat, l: nat, p: nat, k: nat, before: seq<real>, after: seq<real>)
    requires net.Valid() && l < top <= net.Layers()
    requires HoldsMatrix(net, before, l, GradientSoFar(net, b, top, l, p, k))
    requires GrewBy(before, after, net.shape[l + 1], net.shape[l], NodeGradient(net, b, top, l, p, k))
    ensures HoldsMatrix(net, after, l, GradientSoFar(net, b, top, l, p, k + 1))
  {
    var g, g' := GradientSoFar(net, b, top, l, p, k), GradientSoFar(net, b, top, l, p, k + 1);
    var added := NodeGradient(net, b, top, l, p, k);
    forall o, i | 0 <= o < net.shape[l + 1] && 0 <= i < net.shape[l]
      ensures MatrixOf(after, net.shape[l])(o, i) == g'(o, i)
    {
      assert MatrixOf(before, net.shape[l])(o, i) == g(o, i);
      assert g'(o, i) == g(o, i) + added(o, i);
    }
  }

  lemma PairDone(net: Network, b: Batch, top: nat, l: nat, p: nat, buffer: seq<real>)
    requires net.Valid() && l < top <= net.Layers()
    requires HoldsMatrix(net, buffer, l, GradientSoFar(net, b, top, l, p, b.points))
    ensures HoldsMatrix(net, buffer, l, GradientSoFar(net, b, top, l, p + 1, 0))
  {
    var g, g' := GradientSoFar(net, b, top, l, p, b.points), GradientSoFar(net, b, top, l, p + 1, 0);
    forall o, i | 0 <= o < net.shape[l + 1] && 0 <= i < net.shape[l]
      ensures MatrixOf(buffer, net.shape[l])(o, i) == g'(o, i)
    {
      assert MatrixOf(buffer, net.shape[l])(o, i) == g(o, i);
    }
  }

  /** The state of the two outer loops. */
  ghost predicate SoFar(net: Network, b: Batch, top: nat, start: seq<seq<real>>, buffers: seq<seq<real>>, p: nat,
                        k: nat)
    requires net.Valid() && top <= net.Layers()
  {
    && BuffersSized(net, start) && BuffersSized(net, buffers)
    && (forall l: nat :: l < top ==> HoldsMatrix(net, buffers[l], l, GradientSoFar(net, b, top, l, p, k)))
    && (forall l: nat :: top <= l < net.Layers() ==> buffers[l] == start[l])
  }

  method SliceRow(flat: seq<real>, width: nat, row: nat, rows: nat) returns (r: seq<real>)
    requires |flat| == rows * width && row < rows
    ensures |r| == width && Agrees(r, RowSlice(flat, width, row))
  {
    ProductMonotone(row + 1, rows, width);
    ProductNonNegative(row, width);
    r := flat[row * width..row * width + width];
  }

  /** One node of one pair. */
  method AddNode(net: Network, b: Batch, top: nat, p: nat, k: nat, ghost start: seq<seq<real>>, buffers: seq<seq<real>>)
    returns (buffers': seq<seq<real>>)
    requires net.Valid() && top <= net.Layers() && b.Valid(net.shape[0]) && b.width == net.shape[top]
    requires p < |b.features| && k < b.points && SoFar(net, b, top, start, buffers, p, k)
    ensures SoFar(net, b, top, start, buffers', p, k + 1)
  {
    OffsetBound(p, |b.features|, b.points, k);
    var input := SliceRow(b.features[p], net.shape[0], k, b.points);
    var adjoint := SliceRow(b.adjoints, b.width, p * b.points + k, |b.features| * b.points);
    buffers' := AddSample(net, top, input, adjoint, buffers, b.Input(net.shape[0], p, k), b.Adjoint(p, k));
    forall l: nat | l < top
      ensures HoldsMatrix(net, buffers'[l], l, GradientSoFar(net, b, top, l, p, k + 1))
    {
      NodeAdded(net, b, top, l, p, k, buffers[l], buffers'[l]);
    }
  }

  lemma ZeroStart(net: Network, b: Batch, top: nat, buffers: seq<seq<real>>)
    requires net.Valid() && top <= net.Layers() && BuffersSized(net, buffers)
    requires forall l: nat, t :: l < top && 0 <= t < |buffers[l]| ==> buffers[l][t] == 0.0
    ensures SoFar(net, b, top, buffers, buffers, 0, 0)
  {
    forall l: nat, o, i | l < top && 0 <= o < net.shape[l + 1] && 0 <= i < net.shape[l]
      ensures MatrixOf(buffers[l], net.shape[l])(o, i) == GradientSoFar(net, b, top, l, 0, 0)(o, i)
    {
      assert net.Sized(l);
      OffsetBound(o, net.shape[l + 1], net.shape[l], i);
    }
  }

  /** The two outer loops. */
  method AccumulateGradients(net: Network, b: Batch, top: nat, start: seq<seq<real>>) returns (buffers: seq<seq<real>>)
    requires net.Valid() && top <= net.Layers() && b.Valid(net.shape[0]) && b.width == net.shape[top]
    requires SoFar(net, b, top, start, start, 0, 0)
    ensures SoFar(net, b, top, start, buffers, |b.features|, 0)
  {
    buffers := start;
    for pair := 0 to |b.features|
      invariant SoFar(net, b, top, start, buffers, pair, 0)
    {
      for node := 0 to b.points
        invariant SoFar(net, b, top, start, buffers, pair, node)
      {
        buffers := AddNode(net, b, top, pair, node, start, buffers);
      }
      forall l: nat | l < top
        ensures HoldsMatrix(net, buffers[l], l, GradientSoFar(net, b, top, l, pair + 1, 0))
      {
        PairDone(net, b, top, l, pair, buffers[l]);
      }
    }
  }

  /** Number of layers the reverse pass runs through. */
  function ReverseLayers(net: Network, factorized: bool): nat
    requires net.weights != []
  {
    if factorized then net.Layers() - 1 else net.Layers()
  }

  /** The reverse pass of a network, full or factorized. */
  method BackpropagateNetworkNodalValues(net: Network, features: seq<seq<real>>, points: nat,
                                         nodalValueAdjoints: seq<real>, factorized: bool,
                                         finalProjectionAdjoints: seq<real>)
    returns (result: Result<seq<seq<real>>, BackpropError>)
    requires net.Valid() && forall p :: 0 <= p < |features| ==> |features[p]| == points * net.shape[0]
    ensures result.Err? <==>
              || |nodalValueAdjoints|
                 != |features| * points * net.shape[if factorized then net.Layers() - 1 else net.Layers()]
              || (if factorized then net.tanhSquare || |finalProjectionAdjoints| != |net.weights[net.Layers() - 1]|
                  else finalProjectionAdjoints != [])
    ensures result.Ok? ==>
              var top := if factorized then net.Layers() - 1 else net.Layers();
              var b := Batch(features, points, nodalValueAdjoints, net.shape[top]);
              && BuffersSized(net, result.value)
              && (forall l: nat :: l < top ==> HoldsMatrix(net, result.value[l], l, BatchGradient(net, b, top, l)))
              && (factorized ==> result.value[net.Layers() - 1] == finalProjectionAdjoints)
    ensures result.Ok? && !factorized && net.Layers() == 1 && !net.tanhSquare ==>
              forall o, i :: 0 <= o < net.shape[1] && 0 <= i < net.shape[0] ==>
                (MatrixOf(result.value[0], net.shape[0])(o, i)
              == Sum(|features|, p => Sum(points, k => At(nodalValueAdjoints, (p * points + k) * net.shape[1] + o)
                                                       * At(FeaturesOf(features, p), k * net.shape[0] + i))))
  {
    var top := ReverseLayers(net, factorized);
    var width := net.shape[top];
    if |nodalValueAdjoints| != |features| * points * width {
      return Err(InvalidSize);
    }
    if factorized {
      if net.tanhSquare {
        return Err(PostprocessingUnsupported);
      }
      if |finalProjectionAdjoints| != |net.weights[net.Layers() - 1]| {
        return Err(InvalidSize);
      }
    } else if finalProjectionAdjoints != [] {
      return Err(UnexpectedProjection);
    }
    var b := Batch(features, points, nodalValueAdjoints, width);
    var buffers := ZeroBuffers(net);
    if factorized {
      buffers := buffers[net.Layers() - 1 := finalProjectionAdjoints];
    }
    ZeroStart(net, b, top, buffers);
    var gradients := AccumulateGradients(net, b, top, buffers);
    forall l: nat | l < top ensures HoldsMatrix(net, gradients[l], l, BatchGradient(net, b, top, l)) {
      BatchDone(net, b, top, l, gradients[l]);
    }
    if !factorized && net.Layers() == 1 && !net.tanhSquare {
      forall o, i | 0 <= o < net.shape[1] && 0 <= i < net.shape[0]
        ensures MatrixOf(gradients[0], net.shape[0])(o, i)
             == Sum(|features|, p => Sum(points, k => At(nodalValueAdjoints, (p * points + k) * net.shape[1] + o)
                                                      * At(FeaturesOf(features, p), k * net.shape[0] + i)))
      {
        SingleLayer(net, b, o, i);
      }
    }
    result := Ok(gradients);
  }

  ghost function FeaturesOf(features: seq<seq<real>>, p: int): seq<real> {
    if 0 <= p < |features| then features[p] else []
  }

  /** The gradient of a single layer, in the entries of the two buffers. */
  lemma SingleLayer(net: Network, b: Batch, o: int, i: int)
    requires net.Valid() && net.Layers() == 1 && !net.tanhSquare && b.width == net.shape[1]
    ensures BatchGradient(net, b, 1, 0)(o, i)
         == Sum(|b.features|, p => Sum(b.points, k => At(b.adjoints, (p * b.points + k) * net.shape[1] + o)
                                                      * At(FeaturesOf(b.features, p), k * net.shape[0] + i)))
  {
    var width, n := net.shape[1], net.shape[0];
    forall p | 0 <= p < |b.features|
      ensures PairGradient(net, b, 1, 0, p, b.points, o, i)
           == Sum(b.points, k => At(b.adjoints, (p * b.points + k) * width + o)
                                 * At(FeaturesOf(b.features, p), k * n + i))
    {
      SingleLayerPair(net, b, p, o, i);
      SumCong(b.points, EntryProducts(b, width, n, p, o, i),
              k => At(b.adjoints, (p * b.points + k) * width + o) * At(FeaturesOf(b.features, p), k * n + i));
    }
    SumCong(|b.features|, p => PairGradient(net, b, 1, 0, p, b.points, o, i),
            p => Sum(b.points, k => At(b.adjoints, (p * b.points + k) * width + o)
                                    * At(FeaturesOf(b.features, p), k * n + i)));
  }

  ghost function EntryProducts(b: Batch, width: nat, n: nat, p: int, o: int, i: int): int -> real {
    k => At(b.adjoints, (p * b.points + k) * width + o) * At(FeaturesOf(b.features, p), k * n + i)
  }

  lemma SingleLayerPair(net: Network, b: Batch, p: int, o: int, i: int)
    requires net.Valid() && net.Layers() == 1 && !net.tanhSquare && b.width == net.shape[1] && 0 <= p < |b.features|
    ensures PairGradient(net, b, 1, 0, p, b.points, o, i)
         == Sum(b.points, EntryProducts(b, net.shape[1], net.shape[0], p, o, i))
  {
    var products := EntryProducts(b, net.shape[1], net.shape[0], p, o, i);
    forall k | 0 <= k < b.points ensures NodeGradient(net, b, 1, 0, p, k)(o, i) == products(k) {
      SingleLayerNode(net, b, p, k, o, i);
    }
    SumCong(b.points, k => NodeGradient(net, b, 1, 0, p, k)(o, i), products);
  }

  lemma SingleLayerNode(net: Network, b: Batch, p: int, k: int, o: int, i: int)
    requires net.Valid() && net.Layers() == 1 && !net.tanhSquare && b.width == net.shape[1] && 0 <= p < |b.features|
    ensures NodeGradient(net, b, 1, 0, p, k)(o, i) == EntryProducts(b, net.shape[1], net.shape[0], p, o, i)(k)
  {
    var x, g := b.Input(net.shape[0], p, k), b.Adjoint(p, k);
    net.Model().LastGradient(x, g, o, i);
    EntryProduct(b, net.shape[1], net.shape[0], p, k, o, i);
  }

  lemma EntryProduct(b: Batch, width: nat, n: nat, p: int, k: int, o: int, i: int)
    requires b.width == width && 0 <= p < |b.features|
    ensures Outer(b.Adjoint(p, k), b.Input(n, p, k))(o, i) == EntryProducts(b, width, n, p, o, i)(k)
  {
    assert b.Adjoint(p, k)(o) == At(b.adjoints, (p * b.points + k) * width + o);
    assert b.Input(n, p, k)(i) == At(b.features[p], k * n + i);
  }

  lemma BatchDone(net: Network, b: Batch, top: nat, l: nat, buffer: seq<real>)
    requires net.Valid() && l < top <= net.Layers()
    requires HoldsMatrix(net, buffer, l, GradientSoFar(net, b, top, l, |b.features|, 0))
    ensures HoldsMatrix(net, buffer, l, BatchGradient(net, b, top, l))
  {
    var g, g' := GradientSoFar(net, b, top, l, |b.features|, 0), BatchGradient(net, b, top, l);
    forall o, i | 0 <= o < net.shape[l + 1] && 0 <= i < net.shape[l]
      ensures MatrixOf(buffer, net.shape[l])(o, i) == g'(o, i)
    {
      assert MatrixOf(buffer, net.shape[l])(o, i) == g(o, i);
    }
  }

  method ZeroBuffers(net: Network) returns (buffers: seq<seq<real>>)
    requires net.Valid()
    ensures BuffersSized(net, buffers)
    ensures forall l: nat, t :: l < |buffers| && 0 <= t < |buffers[l]| ==> buffers[l][t] == 0.0
  {
    buffers := [];
    for layer := 0 to net.Layers()
      invariant |buffers| == layer
      invariant forall l: nat :: l < layer ==> |buffers[l]| == |net.weights[l]|
      invariant forall l: nat, t :: l < layer && 0 <= t < |buffers[l]| ==> buffers[l][t] == 0.0
    {
      buffers := buffers + [seq(|net.weights[layer]|, _ => 0.0)];
    }
  }

  // ---------------------------------------------------------------- full against factorized

  /** What the caller of the factorized mode has to hand over: the nodal adjoints pulled through the final weight, and
      their products with the penultimate values, summed over pairs and nodes. */
  ghost predicate FactorizedInputs(net: Network, full: Batch, short: Batch, projection: seq<real>)
    requires net.Valid()
  {
    var L := net.Layers();
    && full.width == net.shape[L] && short.width == net.shape[L - 1] && PulledThrough(net, full, short)
    && HoldsMatrix(net, projection, L - 1, ProjectionGradient(net, full))
  }

  ghost predicate PulledThrough(net: Network, full: Batch, short: Batch)
    requires net.Valid()
  {
    && full.features == short.features && full.points == short.points
    && (forall p: int, k: int :: 0 <= p < |full.features| && 0 <= k < full.points ==>
         PulledThroughAt(net, full, short, p, k))
  }

  ghost predicate PulledThroughAt(net: Network, full: Batch, short: Batch, p: int, k: int)
    requires net.Valid()
  {
    forall e :: 0 <= e < net.shape[net.Layers() - 1] ==>
      short.Adjoint(p, k)(e) == net.Model().PenultimateAdjoint(full.Adjoint(p, k))(e)
  }

  ghost function ProjectionGradient(net: Network, full: Batch): (int, int) -> real
    requires net.Valid()
  {
    var last := net.Layers() - 1;
    (o, e) => Sum(|full.features|, ProjectionTerms(net, full, last, o, e))
  }

  /** Both modes give the same gradient of every weight, over all pairs and nodes. */
  lemma FullEqualsFactorized(net: Network, full: Batch, short: Batch, projection: seq<real>, l: nat, o: int, i: int)
    requires net.Valid() && !net.tanhSquare && FactorizedInputs(net, full, short, projection)
    requires l < net.Layers() && 0 <= o < net.shape[l + 1] && 0 <= i < net.shape[l]
    ensures BatchGradient(net, full, net.Layers(), l)(o, i)
         == if l < net.Layers() - 1 then BatchGradient(net, short, net.Layers() - 1, l)(o, i)
            else MatrixOf(projection, net.shape[l])(o, i)
  {
    var last := net.Layers() - 1;
    if l < last {
      BatchesFactor(net, full, short, l, last, o, i);
    } else {
      BatchProjects(net, full, last, o, i);
      assert MatrixOf(projection, net.shape[l])(o, i) == ProjectionGradient(net, full)(o, i);
    }
  }

  lemma BatchesFactor(net: Network, full: Batch, short: Batch, l: nat, last: nat, o: int, i: int)
    requires net.Valid() && !net.tanhSquare && PulledThrough(net, full, short)
    requires net.Layers() == last + 1 && l < last && 0 <= o < net.shape[l + 1]
    ensures BatchGradient(net, full, net.Layers(), l)(o, i) == BatchGradient(net, short, last, l)(o, i)
  {
    var L, points := net.Layers(), full.points;
    forall p | 0 <= p < |full.features|
      ensures PairGradient(net, full, L, l, p, points, o, i) == PairGradient(net, short, last, l, p, points, o, i)
    {
      PairsFactor(net, full, short, l, last, p, o, i);
    }
    SumCong(|full.features|, p => PairGradient(net, full, L, l, p, points, o, i),
            p => PairGradient(net, short, last, l, p, points, o, i));
  }

  lemma BatchProjects(net: Network, full: Batch, last: nat, o: int, i: int)
    requires net.Valid() && !net.tanhSquare && net.Layers() == last + 1
    ensures BatchGradient(net, full, net.Layers(), last)(o, i) == ProjectionGradient(net, full)(o, i)
  {
    var L, points := net.Layers(), full.points;
    forall p | 0 <= p < |full.features|
      ensures PairGradient(net, full, L, last, p, points, o, i) == ProjectionTerms(net, full, last, o, i)(p)
    {
      PairsProject(net, full, last, p, o, i);
    }
    SumCong(|full.features|, p => PairGradient(net, full, L, last, p, points, o, i),
            ProjectionTerms(net, full, last, o, i));
  }

  /** The gradient of the last weight that one node adds, and that all nodes of a pair add. */
  ghost function NodeProjection(net: Network, full: Batch, last: nat, p: int, k: int, o: int, e: int): real
    requires net.Valid() && last <= net.Layers()
  {
    Outer(full.Adjoint(p, k), net.Model().Level(full.Input(net.shape[0], p, k), last))(o, e)
  }

  ghost function PairProjection(net: Network, full: Batch, last: nat, p: int, o: int, e: int): real
    requires net.Valid() && last <= net.Layers()
  {
    Sum(full.points, k => NodeProjection(net, full, last, p, k, o, e))
  }

  ghost function ProjectionTerms(net: Network, full: Batch, last: nat, o: int, e: int): int -> real
    requires net.Valid() && last <= net.Layers()
  {
    p => PairProjection(net, full, last, p, o, e)
  }

  lemma NodesFactor(net: Network, full: Batch, short: Batch, l: nat, last: nat, p: int, k: int, o: int, i: int)
    requires net.Valid() && !net.tanhSquare && PulledThrough(net, full, short)
    requires net.Layers() == last + 1 && l < last && 0 <= o < net.shape[l + 1]
    requires 0 <= p < |full.features| && 0 <= k < full.points
    ensures NodeGradient(net, full, net.Layers(), l, p, k)(o, i) == NodeGradient(net, short, last, l, p, k)(o, i)
  {
    assert PulledThroughAt(net, full, short, p, k);
    net.Model().GradientsFactor(full.Input(net.shape[0], p, k), full.Adjoint(p, k), short.Adjoint(p, k), l, o, i);
  }

  lemma PairsEqual(net: Network, b: Batch, top: nat, b': Batch, top': nat, l: nat, p: int, n: nat, o: int, i: int)
    requires net.Valid() && l < top <= net.Layers() && l < top' <= net.Layers()
    requires forall k :: 0 <= k < n ==>
               NodeGradient(net, b, top, l, p, k)(o, i) == NodeGradient(net, b', top', l, p, k)(o, i)
    ensures PairGradient(net, b, top, l, p, n, o, i) == PairGradient(net, b', top', l, p, n, o, i)
  {
    SumCong(n, k => NodeGradient(net, b, top, l, p, k)(o, i), k => NodeGradient(net, b', top', l, p, k)(o, i));
  }

  lemma PairsFactor(net: Network, full: Batch, short: Batch, l: nat, last: nat, p: int, o: int, i: int)
    requires net.Valid() && !net.tanhSquare && PulledThrough(net, full, short)
    requires net.Layers() == last + 1 && l < last && 0 <= o < net.shape[l + 1] && 0 <= p < |full.features|
    ensures PairGradient(net, full, net.Layers(), l, p, full.points, o, i)
         == PairGradient(net, short, last, l, p, full.points, o, i)
  {
    var L := net.Layers();
    forall k | 0 <= k < full.points
      ensures NodeGradient(net, full, L, l, p, k)(o, i) == NodeGradient(net, short, last, l, p, k)(o, i)
    {
      NodesFactor(net, full, short, l, last, p, k, o, i);
    }
    PairsEqual(net, full, L, short, last, l, p, full.points, o, i);
  }

  lemma NodesProject(net: Network, full: Batch, last: nat, p: int, k: int, o: int, i: int)
    requires net.Valid() && !net.tanhSquare && net.Layers() == last + 1
    ensures NodeGradient(net, full, net.Layers(), last, p, k)(o, i) == NodeProjection(net, full, last, p, k, o, i)
  {
    net.Model().LastGradient(full.Input(net.shape[0], p, k), full.Adjoint(p, k), o, i);
  }

  lemma PairsProject(net: Network, full: Batch, last: nat, p: int, o: int, i: int)
    requires net.Valid() && !net.tanhSquare && net.Layers() == last + 1
    ensures PairGradient(net, full, net.Layers(), last, p, full.points, o, i)
         == PairProjection(net, full, last, p, o, i)
  {
    var L := net.Layers();
    forall k | 0 <= k < full.points
      ensures NodeGradient(net, full, L, last, p, k)(o, i) == NodeProjection(net, full, last, p, k, o, i)
    {
      NodesProject(net, full, last, p, k, o, i);
    }
    SumCong(full.points, k => NodeGradient(net, full, L, last, p, k)(o, i),
            k => NodeProjection(net, full, last, p, k, o, i));
  }
}
