/** The two reverse steps together, over all pairs: transposed spline coefficients fed into backpropagation give the
    gradient of the spline coefficients with respect to the network weights
    (libsymmetrix/source/mace_kokkos_factorized_analysis.cpp:598-614). */
module RadialGradient {
  import opened Results
  import opened FiniteSums
  import opened FlatIndex
  import opened NestedSums
  import opened DualNumbers
  import opened SplineAdjoint
  import opened CompactRadial
  import opened RadialNetworks
  import opened RadialBackprop
  import opened RadialTables

  // ---------------------------------------------------------------- sums of matrices

  lemma PairedCong(rows: nat, columns: nat, a: (int, int) -> real, a': (int, int) -> real, d: (int, int) -> real)
    requires forall o, i :: 0 <= o < rows && 0 <= i < columns ==> a(o, i) == a'(o, i)
    ensures Paired(rows, columns, a, d) == Paired(rows, columns, a', d)
  {
    forall o | 0 <= o < rows ensures PairedRow(columns, a, d, o) == PairedRow(columns, a', d, o) {
      InnerCong(columns, RowOf(a, o), RowOf(d, o), RowOf(a', o), RowOf(d, o));
    }
    SumCong(rows, o => PairedRow(columns, a, d, o), o => PairedRow(columns, a', d, o));
  }

  lemma ProductOfSum(a: real, b: real, d: real, ad: real, bd: real)
    requires ad == a * d && bd == b * d
    ensures (a + b) * d == ad + bd
  {
  }

  lemma PairedRowAdded(columns: nat, a: int -> real, b: int -> real, c: int -> real, d: int -> real)
    requires forall i :: c(i) == a(i) + b(i)
    ensures Inner(columns, c, d) == Inner(columns, a, d) + Inner(columns, b, d)
  {
    var ad, bd, cd := i => a(i) * d(i), i => b(i) * d(i), i => c(i) * d(i);
    forall i ensures cd(i) == ad(i) + bd(i) {
      ProductOfSum(a(i), b(i), d(i), ad(i), bd(i));
    }
    SumAdded(columns, ad, bd, cd);
  }

  lemma PairedAdded(rows: nat, columns: nat, a: (int, int) -> real, b: (int, int) -> real, c: (int, int) -> real,
                    d: (int, int) -> real)
    requires forall o, i :: c(o, i) == a(o, i) + b(o, i)
    ensures Paired(rows, columns, c, d) == Paired(rows, columns, a, d) + Paired(rows, columns, b, d)
  {
    forall o ensures PairedRow(columns, c, d, o) == PairedRow(columns, a, d, o) + PairedRow(columns, b, d, o) {
      PairedRowAdded(columns, RowOf(a, o), RowOf(b, o), RowOf(c, o), RowOf(d, o));
    }
    SumAdded(rows, o => PairedRow(columns, a, d, o), o => PairedRow(columns, b, d, o),
             o => PairedRow(columns, c, d, o));
  }

  /** g(0) + ... + g(n-1), entry by entry. */
  ghost function Accumulated(n: nat, g: int -> ((int, int) -> real)): (int, int) -> real {
    (o, i) => Sum(n, j => g(j)(o, i))
  }

  /** Pairing with a sum of matrices is the sum of the pairings. */
  lemma {:induction false} PairedSum(rows: nat, columns: nat, n: nat, g: int -> ((int, int) -> real),
                                     d: (int, int) -> real)
    ensures Paired(rows, columns, Accumulated(n, g), d) == Sum(n, j => Paired(rows, columns, g(j), d))
  {
    if n == 0 {
      PairedWithZero(rows, columns, Accumulated(0, g), d);
    } else {
      PairedSum(rows, columns, n - 1, g, d);
      PairedAdded(rows, columns, Accumulated(n - 1, g), g(n - 1), Accumulated(n, g), d);
    }
  }

  lemma ZeroRow(columns: nat, a: int -> real, d: int -> real)
    requires forall i :: a(i) == 0.0
    ensures Inner(columns, a, d) == 0.0
  {
    var product := i => a(i) * d(i);
    forall i ensures product(i) == 0.0 {
      ZeroTerm(a(i), d(i), product(i));
    }
    SumZero(columns, product);
  }

  lemma ZeroTerm(a: real, d: real, product: real)
    requires a == 0.0 && product == a * d
    ensures product == 0.0
  {
  }

  lemma PairedWithZero(rows: nat, columns: nat, a: (int, int) -> real, d: (int, int) -> real)
    requires forall o, i :: a(o, i) == 0.0
    ensures Paired(rows, columns, a, d) == 0.0
  {
    forall o ensures PairedRow(columns, a, d, o) == 0.0 {
      ZeroRow(columns, RowOf(a, o), RowOf(d, o));
    }
    SumZero(rows, o => PairedRow(columns, a, d, o));
  }

  /** Pairing two matrices row by row or column by column. */
  lemma PairEitherWay(rows: nat, columns: nat, a: (int, int) -> real, t: (int, int) -> real)
    ensures Paired(rows, columns, a, t) == Sum(columns, k => Inner(rows, ColumnOf(a, k), ColumnOf(t, k)))
  {
    var term := (f, k) => a(f, k) * t(f, k);
    forall f ensures PairedRow(columns, a, t, f) == Sum(columns, k => term(f, k)) {
      InnerIsSum(columns, RowOf(a, f), RowOf(t, f), k => term(f, k));
    }
    forall k ensures Inner(rows, ColumnOf(a, k), ColumnOf(t, k)) == Sum(rows, f => term(f, k)) {
      InnerIsSum(rows, ColumnOf(a, k), ColumnOf(t, k), f => term(f, k));
    }
    SumCong(rows, f => PairedRow(columns, a, t, f), f => Sum(columns, k => term(f, k)));
    SumSwap(rows, columns, term);
    SumCong(columns, k => Sum(rows, f => term(f, k)), k => Inner(rows, ColumnOf(a, k), ColumnOf(t, k)));
  }

  lemma InnerIsSum(n: nat, f: int -> real, g: int -> real, r: int -> real)
    requires forall i {:trigger r(i)} :: r(i) == f(i) * g(i)
    ensures Inner(n, f, g) == Sum(n, r)
  {
    SumCong(n, i => f(i) * g(i), r);
  }

  ghost function RowSums(n: nat, f: (int, int) -> real): int -> real {
    i => Sum(n, RowOf(f, i))
  }

  ghost function ColumnSums(m: nat, f: (int, int) -> real): int -> real {
    j => Sum(m, ColumnOf(f, j))
  }

  lemma SumEitherWay(m: nat, n: nat, f: (int, int) -> real)
    ensures Sum(m, RowSums(n, f)) == Sum(n, ColumnSums(m, f))
  {
    SumSwap(m, n, f);
    forall i ensures RowSums(n, f)(i) == Sum(n, j => f(i, j)) {
      SumCong(n, RowOf(f, i), j => f(i, j));
    }
    forall j ensures ColumnSums(m, f)(j) == Sum(m, i => f(i, j)) {
      SumCong(m, ColumnOf(f, j), i => f(i, j));
    }
    SumCong(m, RowSums(n, f), i => Sum(n, j => f(i, j)));
    SumCong(n, ColumnSums(m, f), j => Sum(m, i => f(i, j)));
  }

  // ---------------------------------------------------------------- one node, one pair, all pairs

  /** The derivative of the outputs at node k of pair p along dw. */
  ghost function NodeTangents(net: Network, b: Batch, dw: seq<seq<real>>, p: int): (int, int) -> real
    requires net.Valid() && net.Model().IsDirection(dw)
  {
    (f, k) => net.Model().OutputTangent(dw, b.Input(net.shape[0], p, k))(f)
  }

  ghost function NodeAdjoints(b: Batch, p: int): (int, int) -> real {
    (f, k) => b.Adjoint(p, k)(f)
  }

  /** The gradient of weight l that node k of pair p adds, paired with the direction. */
  ghost function LayerTerm(net: Network, b: Batch, dw: seq<seq<real>>, p: int, k: int, l: int): real
    requires net.Valid() && net.Model().IsDirection(dw)
  {
    if 0 <= l < net.Layers()
    then Paired(net.shape[l + 1], net.shape[l], NodeGradient(net, b, net.Layers(), l, p, k),
                MatrixOf(dw[l], net.shape[l]))
    else 0.0
  }

  ghost function NodeTerms(net: Network, b: Batch, dw: seq<seq<real>>, p: int): (int, int) -> real
    requires net.Valid() && net.Model().IsDirection(dw)
  {
    (k, l) => LayerTerm(net, b, dw, p, k, l)
  }

  /** What backpropagation collects below a layer is a sum over the layers. */
  lemma {:induction false} BelowIsSum(model: Perceptron, dw: seq<seq<real>>, x: int -> real, w: int -> real, l: nat,
                                      top: nat,
                                      f: int -> real)
    requires model.Valid() && model.IsDirection(dw) && l <= top <= model.Layers()
    requires forall j: nat :: j < l ==> f(j) == model.LayerPaired(dw, x, w, j, top)
    ensures model.PairedBelow(dw, x, w, l, top) == Sum(l, f)
  {
    if l == 0 {
    } else {
      var j: nat := l - 1;
      BelowIsSum(model, dw, x, w, j, top, f);
      BelowGrows(model, dw, x, w, j, l, top, f);
    }
  }

  lemma BelowGrows(model: Perceptron, dw: seq<seq<real>>, x: int -> real, w: int -> real, j: nat, next: nat, top: nat,
                   f: int -> real)
    requires model.Valid() && model.IsDirection(dw) && j < top <= model.Layers() && next == j + 1
    requires f(j) == model.LayerPaired(dw, x, w, j, top) && model.PairedBelow(dw, x, w, j, top) == Sum(j, f)
    ensures model.PairedBelow(dw, x, w, next, top) == Sum(next, f)
  {
    model.PairedBelowStep(dw, x, w, j, next, top);
  }

  lemma NodeIsSum(net: Network, b: Batch, dw: seq<seq<real>>, p: int, k: int)
    requires net.Valid() && net.Model().IsDirection(dw)
    ensures var x := b.Input(net.shape[0], p, k);
            (net.Model().PairedBelow(dw, x, net.Model().TopAdjoint(x, b.Adjoint(p, k)), net.Layers(), net.Layers())
          == RowSums(net.Layers(), NodeTerms(net, b, dw, p))(k))
  {
    var x, L := b.Input(net.shape[0], p, k), net.Layers();
    var w := SampleAdjoint(net, x, b.Adjoint(p, k), L);
    var f := RowOf(NodeTerms(net, b, dw, p), k);
    forall j: nat | j < L ensures f(j) == net.Model().LayerPaired(dw, x, w, j, L) {
    }
    BelowIsSum(net.Model(), dw, x, w, L, L, f);
  }

  /** At one node, pairing the adjoint with the derivative of the outputs is pairing the gradients with the direction.
      */
  lemma OneNode(net: Network, b: Batch, dw: seq<seq<real>>, p: int, k: int)
    requires net.Valid() && net.Model().IsDirection(dw)
    ensures Inner(net.shape[net.Layers()], ColumnOf(NodeAdjoints(b, p), k), ColumnOf(NodeTangents(net, b, dw, p), k))
         == RowSums(net.Layers(), NodeTerms(net, b, dw, p))(k)
  {
    var x, g := b.Input(net.shape[0], p, k), b.Adjoint(p, k);
    net.ModelDifferentiable();
    net.Model().BackpropagationIsTheGradient(dw, x, g);
    NodeIsSum(net, b, dw, p, k);
    InnerCong(net.shape[net.Layers()], ColumnOf(NodeAdjoints(b, p), k), ColumnOf(NodeTangents(net, b, dw, p), k),
              g, net.Model().OutputTangent(dw, x));
  }

  /** Over all nodes of a pair. */
  lemma OnePair(net: Network, b: Batch, dw: seq<seq<real>>, p: int)
    requires net.Valid() && net.Model().IsDirection(dw)
    ensures Paired(net.shape[net.Layers()], b.points, NodeAdjoints(b, p), NodeTangents(net, b, dw, p))
         == Sum(net.Layers(), ColumnSums(b.points, NodeTerms(net, b, dw, p)))
  {
    var width, a, t := net.shape[net.Layers()], NodeAdjoints(b, p), NodeTangents(net, b, dw, p);
    PairEitherWay(width, b.points, a, t);
    forall k ensures Inner(width, ColumnOf(a, k), ColumnOf(t, k))
      == RowSums(net.Layers(), NodeTerms(net, b, dw, p))(k) {
      OneNode(net, b, dw, p, k);
    }
    SumCong(b.points, k => Inner(width, ColumnOf(a, k), ColumnOf(t, k)),
            RowSums(net.Layers(), NodeTerms(net, b, dw, p)));
    SumEitherWay(b.points, net.Layers(), NodeTerms(net, b, dw, p));
  }

  ghost function PairTerms(net: Network, b: Batch, dw: seq<seq<real>>): (int, int) -> real
    requires net.Valid() && net.Model().IsDirection(dw)
  {
    (p, l) => ColumnSums(b.points, NodeTerms(net, b, dw, p))(l)
  }

  /** For one weight, the terms of all pairs and nodes are the batch gradient paired with the direction. */
  lemma OneLayer(net: Network, b: Batch, dw: seq<seq<real>>, l: nat)
    requires net.Valid() && net.Model().IsDirection(dw) && l < net.Layers()
    ensures ColumnSums(|b.features|, PairTerms(net, b, dw))(l)
         == Paired(net.shape[l + 1], net.shape[l], BatchGradient(net, b, net.Layers(), l),
                   MatrixOf(dw[l], net.shape[l]))
  {
    var rows, columns, d, n := net.shape[l + 1], net.shape[l], MatrixOf(dw[l], net.shape[l]), |b.features|;
    var g := PairMatrices(net, b, l);
    forall p ensures Paired(rows, columns, g(p), d) == ColumnOf(PairTerms(net, b, dw), l)(p) {
      OnePairLayer(net, b, dw, l, p);
    }
    PairedSum(rows, columns, n, g, d);
    SumCong(n, p => Paired(rows, columns, g(p), d), ColumnOf(PairTerms(net, b, dw), l));
    BatchIsAccumulated(net, b, l);
    PairedCong(rows, columns, Accumulated(n, g), BatchGradient(net, b, net.Layers(), l), d);
  }

  ghost function NodeMatrices(net: Network, b: Batch, l: nat, p: int): int -> ((int, int) -> real)
    requires net.Valid() && l < net.Layers()
  {
    k => NodeGradient(net, b, net.Layers(), l, p, k)
  }

  ghost function PairMatrices(net: Network, b: Batch, l: nat): int -> ((int, int) -> real)
    requires net.Valid() && l < net.Layers()
  {
    p => Accumulated(b.points, NodeMatrices(net, b, l, p))
  }

  lemma OnePairLayer(net: Network, b: Batch, dw: seq<seq<real>>, l: nat, p: int)
    requires net.Valid() && net.Model().IsDirection(dw) && l < net.Layers()
    ensures Paired(net.shape[l + 1], net.shape[l], PairMatrices(net, b, l)(p), MatrixOf(dw[l], net.shape[l]))
         == ColumnSums(b.points, NodeTerms(net, b, dw, p))(l)
  {
    var rows, columns, d := net.shape[l + 1], net.shape[l], MatrixOf(dw[l], net.shape[l]);
    var g := NodeMatrices(net, b, l, p);
    PairedSum(rows, columns, b.points, g, d);
    SumCong(b.points, k => Paired(rows, columns, g(k), d), ColumnOf(NodeTerms(net, b, dw, p), l));
  }

  lemma BatchIsAccumulated(net: Network, b: Batch, l: nat)
    requires net.Valid() && l < net.Layers()
    ensures forall o, i :: Accumulated(|b.features|, PairMatrices(net, b, l))(o, i)
                        == BatchGradient(net, b, net.Layers(), l)(o, i)
  {
    var L, g := net.Layers(), PairMatrices(net, b, l);
    forall o, i ensures Accumulated(|b.features|, g)(o, i) == BatchGradient(net, b, L, l)(o, i) {
      forall p ensures g(p)(o, i) == PairGradient(net, b, L, l, p, b.points, o, i) {
        SumCong(b.points, k => NodeMatrices(net, b, l, p)(k)(o, i), k => NodeGradient(net, b, L, l, p, k)(o, i));
      }
      SumCong(|b.features|, p => g(p)(o, i), p => PairGradient(net, b, L, l, p, b.points, o, i));
    }
  }

  // ---------------------------------------------------------------- from coefficient adjoints to weight gradients

  /** How the node values of function f of pair p move when the weights move along dw. */
  ghost function TableTangent(net: Network, b: Batch, dw: seq<seq<real>>, p: int, f: int): (v: seq<real>)
    requires net.Valid() && net.Model().IsDirection(dw)
    ensures |v| == b.points
  {
    seq(b.points, k requires 0 <= k < b.points => NodeTangents(net, b, dw, p)(f, k))
  }

  /** The derivative of <g, coefficients> for every function of pair p, with the slopes solved for anew. */
  ghost function FunctionDerivatives(model: CompactRadialModel, net: Network, b: Batch, adjoints: seq<real>,
                                     dw: seq<seq<real>>, p: int): int -> real
    requires net.Valid() && net.Model().IsDirection(dw) && model.h > 0.0 && b.points == model.splinePoints >= 4
  {
    f => SplinePairing(model.h, model.PairAdjoint(adjoints, b.width, p, f), TableTangent(net, b, dw, p, f))
  }

  ghost function PairDerivatives(model: CompactRadialModel, net: Network, b: Batch, adjoints: seq<real>,
                                 dw: seq<seq<real>>): int -> real
    requires net.Valid() && net.Model().IsDirection(dw) && model.h > 0.0 && b.points == model.splinePoints >= 4
  {
    p => Sum(b.width, FunctionDerivatives(model, net, b, adjoints, dw, p))
  }

  /** The nodal buffer is the transpose of the coefficient adjoints, for every pair and function. */
  ghost predicate IsTranspose(model: CompactRadialModel, adjoints: seq<real>, nodal: seq<real>, pairs: nat,
                              functions: nat)
    requires model.h > 0.0 && model.splinePoints >= 4
  {
    forall p, f, v: seq<real> :: 0 <= p < pairs && 0 <= f < functions && |v| == model.splinePoints ==>
      model.PairsAsTranspose(adjoints, nodal, functions, p, f, v)
  }

  /** One function of one pair: the flat buffer of the transpose is read as backpropagation reads it. */
  lemma OneFunction(model: CompactRadialModel, net: Network, b: Batch, adjoints: seq<real>, dw: seq<seq<real>>, p: nat,
                    f: nat)
    requires net.Valid() && net.Model().IsDirection(dw) && model.h > 0.0 && b.points == model.splinePoints >= 4
    requires p < |b.features| && f < b.width && IsTranspose(model, adjoints, b.adjoints, |b.features|, b.width)
    ensures FunctionDerivatives(model, net, b, adjoints, dw, p)(f)
         == PairedRow(b.points, NodeAdjoints(b, p), NodeTangents(net, b, dw, p), f)
  {
    var v, slice := TableTangent(net, b, dw, p, f), model.NodalSlice(b.adjoints, b.width, p, f);
    var a, t := RowOf(NodeAdjoints(b, p), f), RowOf(NodeTangents(net, b, dw, p), f);
    forall k | 0 <= k < b.points ensures slice(k) == a(k) && Entries(v)(k) == t(k) {
      SameEntry(model, b, p, k, f);
    }
    InnerCong(b.points, slice, Entries(v), a, t);
    assert model.PairsAsTranspose(adjoints, b.adjoints, b.width, p, f, v);
  }

  lemma SameEntry(model: CompactRadialModel, b: Batch, p: int, k: int, f: int)
    requires b.points == model.splinePoints
    ensures model.NodalSlice(b.adjoints, b.width, p, f)(k) == RowOf(NodeAdjoints(b, p), f)(k)
  {
    var index := Offset(Offset(p, b.points, k), b.width, f);
    assert model.NodalSlice(b.adjoints, b.width, p, f)(k) == At(b.adjoints, index);
    assert b.Adjoint(p, k)(f) == At(b.adjoints, index);
    assert RowOf(NodeAdjoints(b, p), f)(k) == NodeAdjoints(b, p)(f, k) == b.Adjoint(p, k)(f);
  }

  lemma OnePairDerivative(model: CompactRadialModel, net: Network, b: Batch, adjoints: seq<real>, dw: seq<seq<real>>,
                          p: nat)
    requires net.Valid() && net.Model().IsDirection(dw) && model.h > 0.0 && b.points == model.splinePoints >= 4
    requires b.width == net.shape[net.Layers()]
    requires p < |b.features| && IsTranspose(model, adjoints, b.adjoints, |b.features|, b.width)
    ensures PairDerivatives(model, net, b, adjoints, dw)(p) == RowSums(net.Layers(), PairTerms(net, b, dw))(p)
  {
    var a, t := NodeAdjoints(b, p), NodeTangents(net, b, dw, p);
    forall f | 0 <= f < b.width
      ensures FunctionDerivatives(model, net, b, adjoints, dw, p)(f) == PairedRow(b.points, a, t, f)
    {
      OneFunction(model, net, b, adjoints, dw, p, f);
    }
    SumCong(b.width, FunctionDerivatives(model, net, b, adjoints, dw, p), f => PairedRow(b.points, a, t, f));
    OnePair(net, b, dw, p);
    SumCong(net.Layers(), ColumnSums(b.points, NodeTerms(net, b, dw, p)), RowOf(PairTerms(net, b, dw), p));
  }

  /** The weight buffers paired with a direction, layer by layer. */
  ghost function BufferTerms(net: Network, buffers: seq<seq<real>>, dw: seq<seq<real>>): int -> real
    requires net.Valid() && net.Model().IsDirection(dw) && |buffers| == net.Layers()
  {
    l => if 0 <= l < net.Layers()
         then Paired(net.shape[l + 1], net.shape[l], MatrixOf(buffers[l], net.shape[l]), MatrixOf(dw[l], net.shape[l]))
         else 0.0
  }

  /** The chain rule over all pairs, functions and nodes: when the nodal adjoints are the transpose of the coefficient
      adjoints and the buffers are what backpropagation makes of them, the derivative of <g, coefficients> along any
      change of the weights is the buffers paired with that change. */
  lemma TransposeThenBackpropagate(model: CompactRadialModel, net: Network, b: Batch, adjoints: seq<real>,
                                   buffers: seq<seq<real>>, dw: seq<seq<real>>)
    requires net.Valid() && net.Model().IsDirection(dw) && model.h > 0.0 && b.points == model.splinePoints >= 4
    requires b.width == net.shape[net.Layers()] && IsTranspose(model, adjoints, b.adjoints, |b.features|, b.width)
    requires |buffers| == net.Layers()
    requires forall l: nat :: l < net.Layers() ==>
               HoldsMatrix(net, buffers[l], l, BatchGradient(net, b, net.Layers(), l))
    ensures Sum(|b.features|, PairDerivatives(model, net, b, adjoints, dw))
              == Sum(net.Layers(), BufferTerms(net, buffers, dw))
  {
    var n, L := |b.features|, net.Layers();
    forall p | 0 <= p < n
      ensures PairDerivatives(model, net, b, adjoints, dw)(p) == RowSums(L, PairTerms(net, b, dw))(p)
    {
      OnePairDerivative(model, net, b, adjoints, dw, p);
    }
    SumCong(n, PairDerivatives(model, net, b, adjoints, dw), RowSums(L, PairTerms(net, b, dw)));
    SumEitherWay(n, L, PairTerms(net, b, dw));
    forall l | 0 <= l < L ensures ColumnSums(n, PairTerms(net, b, dw))(l) == BufferTerms(net, buffers, dw)(l) {
      OneBuffer(net, b, buffers, dw, l);
    }
    SumCong(L, ColumnSums(n, PairTerms(net, b, dw)), BufferTerms(net, buffers, dw));
  }

  lemma OneBuffer(net: Network, b: Batch, buffers: seq<seq<real>>, dw: seq<seq<real>>, l: nat)
    requires net.Valid() && net.Model().IsDirection(dw) && |buffers| == net.Layers() && l < net.Layers()
    requires HoldsMatrix(net, buffers[l], l, BatchGradient(net, b, net.Layers(), l))
    ensures ColumnSums(|b.features|, PairTerms(net, b, dw))(l) == BufferTerms(net, buffers, dw)(l)
  {
    var d := MatrixOf(dw[l], net.shape[l]);
    OneLayer(net, b, dw, l);
    BufferTerm(net, buffers, dw, l, d);
    BufferPaired(net, buffers[l], l, BatchGradient(net, b, net.Layers(), l), d);
  }

  lemma BufferTerm(net: Network, buffers: seq<seq<real>>, dw: seq<seq<real>>, l: nat, d: (int, int) -> real)
    requires net.Valid() && net.Model().IsDirection(dw) && |buffers| == net.Layers() && l < net.Layers()
    requires d == MatrixOf(dw[l], net.shape[l])
    ensures BufferTerms(net, buffers, dw)(l)
         == Paired(net.shape[l + 1], net.shape[l], MatrixOf(buffers[l], net.shape[l]), d)
  {
  }

  lemma BufferPaired(net: Network, buffer: seq<real>, l: nat, g: (int, int) -> real, d: (int, int) -> real)
    requires net.Valid() && l < net.Layers() && HoldsMatrix(net, buffer, l, g)
    ensures Paired(net.shape[l + 1], net.shape[l], MatrixOf(buffer, net.shape[l]), d)
         == Paired(net.shape[l + 1], net.shape[l], g, d)
  {
    PairedCong(net.shape[l + 1], net.shape[l], MatrixOf(buffer, net.shape[l]), g, d);
  }

  /** What is differentiated is what the tables hold: run on dual numbers, the network gives the table's value at the
      node, with the tangent used here. */
  lemma TangentsBelongToTables(net: Network, b: Batch, dw: seq<seq<real>>, p: int, k: int, f: int)
    requires net.Valid() && net.Model().IsDirection(dw) && 0 <= p < |b.features| && 0 <= f < net.shape[net.Layers()]
    ensures net.Model().post.dual(net.Model().DualLevel(dw, b.Input(net.shape[0], p, k), net.Layers())(f))
         == Dual(NetworkValues(net, b.features[p])(k, f), NodeTangents(net, b, dw, p)(f, k))
  {
    net.ModelDifferentiable();
    net.Model().OutputDual(dw, b.Input(net.shape[0], p, k), f);
    assert NetworkValues(net, b.features[p])(k, f) == net.Model().Output(b.Input(net.shape[0], p, k))(f);
  }

  // ---------------------------------------------------------------- the same on flat buffers

  /** The features of node k of pair p: row k of the pair's buffer, whose rows are n long. */
  ghost function NodeFeatures(features: seq<seq<real>>, n: nat, p: int, k: int): int -> real {
    i => At(FeaturesOf(features, p), Offset(k, n, i))
  }

  /** The flat buffer v holds the derivatives of all tables along dw: function f of node k of pair p stands at
      (p * points + k) * width + f. */
  ghost predicate HoldsTangents(net: Network, features: seq<seq<real>>, points: nat, dw: seq<seq<real>>, v: seq<real>)
    requires net.Valid() && net.Model().IsDirection(dw)
  {
    forall p: nat, k: nat, f: nat :: p < |features| && k < points && f < net.shape[net.Layers()] ==>
      HoldsTangent(net, features, points, dw, v, p, k, f)
  }

  ghost predicate HoldsTangent(net: Network, features: seq<seq<real>>, points: nat, dw: seq<seq<real>>, v: seq<real>,
                               p: nat, k: nat, f: nat)
    requires net.Valid() && net.Model().IsDirection(dw)
  {
    At(v, (p * points + k) * net.shape[net.Layers()] + f)
    == net.Model().OutputTangent(dw, NodeFeatures(features, net.shape[0], p, k))(f)
  }

  lemma TangentOfTable(net: Network, b: Batch, dw: seq<seq<real>>, p: nat, k: nat, f: nat)
    requires net.Valid() && net.Model().IsDirection(dw) && p < |b.features| && f < net.shape[net.Layers()]
    ensures net.Model().OutputTangent(dw, NodeFeatures(b.features, net.shape[0], p, k))(f)
         == NodeTangents(net, b, dw, p)(f, k)
  {
    forall i | 0 <= i < net.shape[0]
      ensures NodeFeatures(b.features, net.shape[0], p, k)(i) == b.Input(net.shape[0], p, k)(i)
    {
      SameFeature(b, net.shape[0], p, k, i);
    }
    net.Model().OutputTangentCong(dw, NodeFeatures(b.features, net.shape[0], p, k), b.Input(net.shape[0], p, k), f);
  }

  lemma SameFeature(b: Batch, n: nat, p: nat, k: nat, i: int)
    requires p < |b.features|
    ensures NodeFeatures(b.features, n, p, k)(i) == b.Input(n, p, k)(i)
  {
    assert b.Input(n, p, k)(i) == At(b.features[p], Offset(k, n, i));
  }

  /** Pairing the flat coefficient adjoints with the derivatives of all spline coefficients is pairing the weight
      buffers with the change of the weights. */
  lemma FlatGradient(model: CompactRadialModel, net: Network, features: seq<seq<real>>, adjoints: seq<real>,
                     buffers: seq<seq<real>>, dw: seq<seq<real>>, c: seq<real>, v: seq<real>)
    requires net.Valid() && net.Model().IsDirection(dw) && model.h > 0.0 && model.splinePoints >= 4
    requires IsGradientAlong(model, net, features, adjoints, buffers, dw)
    requires BuffersSized(net, buffers) && BuffersSized(net, dw) && |adjoints| == |c|
    requires model.HoldsSplines(c, v, |features|, net.shape[net.Layers()])
    requires HoldsTangents(net, features, model.splinePoints, dw, v)
    ensures Dot(adjoints, c) == Sum(net.Layers(), LayerDots(buffers, dw))
  {
    var pairs, width := |features|, net.shape[net.Layers()];
    model.CoefficientDot(adjoints, c, v, pairs, width);
    AllPairingsAre(model, net, Batch(features, model.splinePoints, [], width), adjoints, dw, v);
    BuffersAre(net, buffers, dw);
  }

  lemma AllPairingsAre(model: CompactRadialModel, net: Network, b: Batch, adjoints: seq<real>, dw: seq<seq<real>>,
                       v: seq<real>)
    requires net.Valid() && net.Model().IsDirection(dw) && model.h > 0.0 && b.points == model.splinePoints >= 4
    requires b.width == net.shape[net.Layers()] && HoldsTangents(net, b.features, b.points, dw, v)
    ensures Sum(|b.features|, model.AllPairings(adjoints, v, b.width))
         == Sum(|b.features|, PairDerivatives(model, net, b, adjoints, dw))
  {
    forall p | 0 <= p < |b.features|
      ensures model.AllPairings(adjoints, v, b.width)(p) == PairDerivatives(model, net, b, adjoints, dw)(p)
    {
      SamePairings(model, net, b, adjoints, dw, v, p);
    }
    SumCong(|b.features|, model.AllPairings(adjoints, v, b.width), PairDerivatives(model, net, b, adjoints, dw));
  }

  lemma BuffersAre(net: Network, buffers: seq<seq<real>>, dw: seq<seq<real>>)
    requires net.Valid() && BuffersSized(net, buffers) && BuffersSized(net, dw)
    ensures Sum(net.Layers(), BufferTerms(net, buffers, dw)) == Sum(net.Layers(), LayerDots(buffers, dw))
  {
    forall l | 0 <= l < net.Layers() ensures BufferTerms(net, buffers, dw)(l) == LayerDots(buffers, dw)(l) {
      assert net.Sized(l);
      PairedIsDot(net.shape[l + 1], net.shape[l], buffers[l], dw[l]);
    }
    SumCong(net.Layers(), BufferTerms(net, buffers, dw), LayerDots(buffers, dw));
  }

  ghost function LayerDots(a: seq<seq<real>>, b: seq<seq<real>>): int -> real {
    l => if 0 <= l < |a| && l < |b| then Dot(a[l], b[l]) else 0.0
  }

  lemma SamePairings(model: CompactRadialModel, net: Network, b: Batch, adjoints: seq<real>, dw: seq<seq<real>>,
                     v: seq<real>, p: nat)
    requires net.Valid() && net.Model().IsDirection(dw) && model.h > 0.0 && b.points == model.splinePoints >= 4
    requires p < |b.features| && b.width == net.shape[net.Layers()]
    requires HoldsTangents(net, b.features, b.points, dw, v)
    ensures model.AllPairings(adjoints, v, b.width)(p) == PairDerivatives(model, net, b, adjoints, dw)(p)
  {
    forall f | 0 <= f < b.width
      ensures model.TablePairings(adjoints, v, b.width, p)(f) == FunctionDerivatives(model, net, b, adjoints, dw, p)(f)
    {
      SameTable(model, net, b, dw, v, p, f);
    }
    SumCong(b.width, model.TablePairings(adjoints, v, b.width, p), FunctionDerivatives(model, net, b, adjoints, dw, p));
  }

  lemma SameTable(model: CompactRadialModel, net: Network, b: Batch, dw: seq<seq<real>>, v: seq<real>, p: nat, f: nat)
    requires net.Valid() && net.Model().IsDirection(dw) && b.points == model.splinePoints
    requires p < |b.features| && f < b.width == net.shape[net.Layers()]
    requires HoldsTangents(net, b.features, b.points, dw, v)
    ensures model.TableOf(v, b.width, p, f) == TableTangent(net, b, dw, p, f)
  {
    var table, tangent := model.TableOf(v, b.width, p, f), TableTangent(net, b, dw, p, f);
    forall k: nat | k < b.points ensures table[k] == tangent[k] {
      assert HoldsTangent(net, b.features, b.points, dw, v, p, k, f);
      TangentOfTable(net, b, dw, p, k, f);
    }
  }

  /** Entrywise pairing of two matrices is the inner product of their buffers. */
  lemma PairedIsDot(rows: nat, columns: nat, a: seq<real>, b: seq<real>)
    requires |a| == |b| == rows * columns
    ensures Paired(rows, columns, MatrixOf(a, columns), MatrixOf(b, columns)) == Dot(a, b)
  {
    var terms := CompactRadialModel.Terms(a, b);
    CompactRadialModel.FlatDot(a, b, rows * columns);
    FlatSum(rows, columns, terms);
    var f, g := MatrixOf(a, columns), MatrixOf(b, columns);
    forall o | 0 <= o < rows ensures PairedRow(columns, f, g, o) == RowTotals(terms, columns)(o) {
      RowIsTotal(a, b, columns, o);
    }
    SumCong(rows, o => PairedRow(columns, f, g, o), RowTotals(terms, columns));
  }

  lemma RowIsTotal(a: seq<real>, b: seq<real>, columns: nat, o: int)
    requires |a| == |b|
    ensures PairedRow(columns, MatrixOf(a, columns), MatrixOf(b, columns), o)
         == RowTotals(CompactRadialModel.Terms(a, b), columns)(o)
  {
    var terms := CompactRadialModel.Terms(a, b);
    var x, y := RowOf(MatrixOf(a, columns), o), RowOf(MatrixOf(b, columns), o);
    SumCong(columns, i => x(i) * y(i), i => terms(Offset(o, columns, i)));
  }

  datatype ChainError = InvalidAdjoints

  /** The replay of the analysis code: transposes the coefficient adjoints of all pairs and backpropagates the result.
      What it returns is the gradient of the coefficients with respect to the weights. */
  method CoefficientGradient(model: CompactRadialModel, net: Network, features: seq<seq<real>>, adjoints: seq<real>)
    returns (result: Result<seq<seq<real>>, ChainError>)
    requires model.Valid() && net.Valid()
    requires forall p :: 0 <= p < |features| ==> |features[p]| == model.splinePoints * net.shape[0]
    modifies model`splineDerivativeOperator
    ensures model.Valid()
    ensures result.Ok? <==> |adjoints| == |features| * (model.splinePoints - 1) * 4 * net.shape[net.Layers()]
    ensures result.Ok? ==> BuffersSized(net, result.value)
    ensures result.Ok? ==> forall dw :: net.Model().IsDirection(dw) ==>
              IsGradientAlong(model, net, features, adjoints, result.value, dw)
    ensures result.Ok? ==> forall dw, c, v: seq<real> ::
              && BuffersSized(net, dw) && model.HoldsSplines(c, v, |features|, net.shape[net.Layers()])
              && HoldsTangents(net, features, model.splinePoints, dw, v) ==>
              Dot(adjoints, c) == Sum(net.Layers(), LayerDots(result.value, dw))
  {
    var width := net.shape[net.Layers()];
    var nodal := model.TransposeSplineCoefficients(adjoints, |features|, width);
    if nodal.Err? {
      return Err(InvalidAdjoints);
    }
    var buffers := BackpropagateNetworkNodalValues(net, features, model.splinePoints, nodal.value, false, []);
    ghost var b := Batch(features, model.splinePoints, nodal.value, width);
    forall dw | net.Model().IsDirection(dw)
      ensures IsGradientAlong(model, net, features, adjoints, buffers.value, dw)
    {
      TransposeThenBackpropagate(model, net, b, adjoints, buffers.value, dw);
      SameDerivatives(model, net, b, Batch(features, model.splinePoints, [], width), adjoints, dw);
    }
    forall dw, c, v: seq<real>
      | BuffersSized(net, dw) && model.HoldsSplines(c, v, |features|, net.shape[net.Layers()])
        && HoldsTangents(net, features, model.splinePoints, dw, v)
      ensures Dot(adjoints, c) == Sum(net.Layers(), LayerDots(buffers.value, dw))
    {
      FlatGradient(model, net, features, adjoints, buffers.value, dw, c, v);
    }
    result := Ok(buffers.value);
  }

  /** The derivative of <adjoints, coefficients of all functions of all pairs> along dw is the buffers paired with dw.
      */
  ghost predicate IsGradientAlong(model: CompactRadialModel, net: Network, features: seq<seq<real>>,
                                  adjoints: seq<real>,
                                  buffers: seq<seq<real>>, dw: seq<seq<real>>)
    requires net.Valid() && net.Model().IsDirection(dw) && model.h > 0.0 && model.splinePoints >= 4
  {
    var tables := Batch(features, model.splinePoints, [], net.shape[net.Layers()]);
    && |buffers| == net.Layers()
    && Sum(|features|, PairDerivatives(model, net, tables, adjoints, dw))
      == Sum(net.Layers(), BufferTerms(net, buffers, dw))
  }

  /** The derivative of the coefficients has nothing to do with the nodal adjoints of the batch. */
  lemma SameDerivatives(model: CompactRadialModel, net: Network, b: Batch, b': Batch, adjoints: seq<real>,
                        dw: seq<seq<real>>)
    requires net.Valid() && net.Model().IsDirection(dw) && model.h > 0.0 && b.points == model.splinePoints >= 4
    requires b' == b.(adjoints := b'.adjoints)
    ensures Sum(|b.features|, PairDerivatives(model, net, b, adjoints, dw))
         == Sum(|b.features|, PairDerivatives(model, net, b', adjoints, dw))
  {
    forall p | 0 <= p < |b.features|
      ensures PairDerivatives(model, net, b, adjoints, dw)(p) == PairDerivatives(model, net, b', adjoints, dw)(p)
    {
      forall f ensures (FunctionDerivatives(model, net, b, adjoints, dw, p)(f)
                     == FunctionDerivatives(model, net, b', adjoints, dw, p)(f))
      {
        SameTables(net, b, b', dw, p, f);
      }
      SumCong(b.width, FunctionDerivatives(model, net, b, adjoints, dw, p),
              FunctionDerivatives(model, net, b', adjoints, dw, p));
    }
    SumCong(|b.features|, PairDerivatives(model, net, b, adjoints, dw), PairDerivatives(model, net, b', adjoints, dw));
  }

  lemma SameTables(net: Network, b: Batch, b': Batch, dw: seq<seq<real>>, p: nat, f: int)
    requires net.Valid() && net.Model().IsDirection(dw) && b' == b.(adjoints := b'.adjoints) && p < |b.features|
    ensures TableTangent(net, b, dw, p, f) == TableTangent(net, b', dw, p, f)
  {
    var v, v' := TableTangent(net, b, dw, p, f), TableTangent(net, b', dw, p, f);
    forall k | 0 <= k < b.points ensures v[k] == v'[k] {
      assert b.Input(net.shape[0], p, k) == b'.Input(net.shape[0], p, k);
      assert v[k] == NodeTangents(net, b, dw, p)(f, k) == net.Model().OutputTangent(dw, b.Input(net.shape[0], p, k))(f);
      assert v'[k] == NodeTangents(net, b', dw, p)(f, k)
          == net.Model().OutputTangent(dw, b'.Input(net.shape[0], p, k))(f);
    }
  }
}
