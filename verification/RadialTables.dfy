/** The spline tables of a radial network, projected and factorized (libsymmetrix/source/compact_radial.cpp:57-108,
    269-324, 598-638, and the batched evaluation of libsymmetrix/source/multilayer_perceptron.cpp:246-308). */
module RadialTables {
  import opened Results
  import opened FiniteSums
  import opened FlatIndex
  import opened DenseKernels
  import opened SplineSolver
  import opened CompactRadial
  import opened RadialNetworks
  import opened RadialBackprop

  datatype TableError = InvalidExtents | InconsistentExtents | InconsistentNodes | InvalidBatch

  /** One row of node values and one of node slopes for every function. */
  datatype RadialSplineData = RadialSplineData(values: seq<seq<real>>, derivatives: seq<seq<real>>)

  datatype FactorizedRadialData = FactorizedRadialData(penultimate: RadialSplineData, finalProjection: seq<real>,
                                                       embeddingWidth: int, outputWidth: int)
  {
    function NodeCount(): nat {
      if penultimate.values == [] then 0 else |penultimate.values[0]|
    }

    /** The checks of reconstruct_projected, in its order. */
    predicate ExtentsPositive() { embeddingWidth > 0 && outputWidth > 0 }

    predicate ExtentsConsistent() {
      && |penultimate.values| == embeddingWidth && |penultimate.derivatives| == embeddingWidth
      && |finalProjection| == embeddingWidth * outputWidth
    }

    predicate NodesConsistent()
      requires ExtentsPositive() && ExtentsConsistent()
    {
      forall e :: 0 <= e < embeddingWidth ==>
        |penultimate.values[e]| == NodeCount() && |penultimate.derivatives[e]| == NodeCount()
    }
  }

  // ---------------------------------------------------------------- batched evaluation

  /** The buffer holds the vectors in front of layer l, one row per sample. */
  ghost predicate BatchHolds(net: Network, input: seq<real>, batch: nat, l: nat, buffer: seq<real>)
    requires net.Valid() && l <= net.Layers()
  {
    && |buffer| == batch * net.shape[l]
    && forall s: nat :: s < batch ==> BatchRowHolds(net, input, l, buffer, s)
  }

  ghost predicate BatchRowHolds(net: Network, input: seq<real>, l: nat, buffer: seq<real>, s: nat)
    requires net.Valid() && l <= net.Layers()
  {
    Agrees(Row(buffer, net.shape[l], s), net.Model().Level(RowSlice(input, net.shape[0], s), l))
  }

  /** One batched product with a transposed weight, row by row. */
  method MultiplyBatch(net: Network, l: nat, batch: nat, buffer: seq<real>, ghost input: seq<real>)
    returns (z: seq<real>)
    requires net.Valid() && l < net.Layers() && BatchHolds(net, input, batch, l, buffer)
    ensures |z| == batch * net.shape[l + 1]
    ensures forall s: nat :: s < batch ==>
              Agrees(Row(z, net.shape[l + 1], s), net.Model().Pre(RowSlice(input, net.shape[0], s), l))
  {
    assert net.Sized(l);
    var n, k := net.shape[l + 1], net.shape[l];
    z := GemmNT(batch, n, k, buffer, net.weights[l], k);
    forall s: nat, o: nat | s < batch && o < n
      ensures Row(z, n, s)[o] == net.Model().Pre(RowSlice(input, net.shape[0], s), l)(o)
    {
      assert Row(z, n, s)[o] == Inner(k, RowSlice(buffer, k, s), RowSlice(net.weights[l], k, o));
      BatchProductEntry(net, input, batch, l, buffer, s, o);
    }
  }

  lemma BatchProductEntry(net: Network, input: seq<real>, batch: nat, l: nat, buffer: seq<real>, s: nat, o: nat)
    requires net.Valid() && l < net.Layers() && BatchHolds(net, input, batch, l, buffer)
    requires s < batch && o < net.shape[l + 1]
    ensures Inner(net.shape[l], RowSlice(buffer, net.shape[l], s), RowSlice(net.weights[l], net.shape[l], o))
         == net.Model().Pre(RowSlice(input, net.shape[0], s), l)(o)
  {
    var k, x := net.shape[l], net.Model().Level(RowSlice(input, net.shape[0], s), l);
    assert BatchRowHolds(net, input, l, buffer, s);
    forall t | 0 <= t < k ensures RowSlice(buffer, k, s)(t) == x(t) {
      RowEntry(buffer, batch, k, s, t);
    }
    AppliedByInner(k, MatrixOf(net.weights[l], k), x, o, RowSlice(buffer, k, s), RowSlice(net.weights[l], k, o));
  }

  /** Entry by entry, b is f of a. */
  ghost predicate Maps(f: real -> real, a: seq<real>, b: seq<real>) {
    |a| == |b| && forall i :: 0 <= i < |a| ==> b[i] == f(a[i])
  }

  /** The activation is applied to the whole buffer at once, so to every row. */
  lemma MapsRows(f: real -> real, z: seq<real>, next: seq<real>, batch: nat, width: nat, s: nat)
    requires Maps(f, z, next) && |z| == batch * width && s < batch
    ensures Maps(f, Row(z, width, s), Row(next, width, s))
  {
    var a, b := Row(z, width, s), Row(next, width, s);
    forall i | 0 <= i < width ensures b[i] == f(a[i]) {
      RowEntry(z, batch, width, s, i);
      RowEntry(next, batch, width, s, i);
    }
  }

  /** One layer of a batch. */
  method BatchLayer(net: Network, l: nat, batch: nat, buffer: seq<real>, ghost input: seq<real>)
    returns (next: seq<real>)
    requires net.Valid() && l < net.Layers() && BatchHolds(net, input, batch, l, buffer)
    ensures BatchHolds(net, input, batch, l + 1, next)
  {
    var z := MultiplyBatch(net, l, batch, buffer, input);
    next := Activate(net, l, z);
    ghost var width, above, f := net.shape[l + 1], l + 1, net.Model().After(l).value;
    forall s: nat | s < batch ensures BatchRowHolds(net, input, above, next, s) {
      MapsRows(f, z, next, batch, width, s);
      ComposedAgrees(f, Row(z, width, s), Row(next, width, s), net.Model().Pre(RowSlice(input, net.shape[0], s), l));
    }
  }

  /** Everything up to the last layer. */
  method EvaluatePenultimateBatch(net: Network, input: seq<real>, batchSize: int)
    returns (result: Result<seq<real>, TableError>)
    requires net.Valid()
    ensures result.Err? <==> batchSize < 0 || |input| != batchSize * net.shape[0]
    ensures result.Ok? ==> BatchHolds(net, input, batchSize, net.Layers() - 1, result.value)
  {
    if batchSize < 0 || |input| != batchSize * net.shape[0] {
      return Err(InvalidBatch);
    }
    var buffer := input;
    forall s: nat | s < batchSize ensures BatchRowHolds(net, input, 0, buffer, s) {
      forall i | 0 <= i < net.shape[0] ensures Row(buffer, net.shape[0], s)[i] == RowSlice(input, net.shape[0], s)(i) {
        RowEntry(buffer, batchSize, net.shape[0], s, i);
      }
    }
    for layer := 0 to net.Layers() - 1
      invariant BatchHolds(net, input, batchSize, layer, buffer)
    {
      buffer := BatchLayer(net, layer, batchSize, buffer, input);
    }
    result := Ok(buffer);
  }

  /** The whole network; the last layer has no activation. */
  method EvaluateBatch(net: Network, input: seq<real>, batchSize: int) returns (result: Result<seq<real>, TableError>)
    requires net.Valid()
    ensures result.Err? <==> batchSize < 0 || |input| != batchSize * net.shape[0]
    ensures result.Ok? ==> BatchHolds(net, input, batchSize, net.Layers(), result.value)
  {
    var penultimate := EvaluatePenultimateBatch(net, input, batchSize);
    if penultimate.Err? {
      return penultimate;
    }
    var output := BatchLayer(net, net.Layers() - 1, batchSize, penultimate.value, input);
    result := Ok(output);
  }

  // ---------------------------------------------------------------- tables

  /** Row f of the table holds column f of the batch, and the slopes of that row. */
  ghost predicate IsSplineOf(h: real, points: nat, data: RadialSplineData, width: nat, f: (int, int) -> real) {
    && h > 0.0 && points >= 4 && |data.values| == |data.derivatives| == width
    && (forall e :: 0 <= e < width ==> IsSplineRow(h, points, data.values[e], data.derivatives[e], f, e))
  }

  ghost predicate IsSplineRow(h: real, points: nat, values: seq<real>, derivatives: seq<real>, f: (int, int) -> real,
                              e: int)
    requires h > 0.0 && points >= 4
  {
    && |values| == points && (forall k :: 0 <= k < points ==> values[k] == f(k, e))
    && derivatives == Slopes(h, values)
  }

  /** Transposes a batch into one spline per column. */
  method Tabulate(model: CompactRadialModel, buffer: seq<real>, width: nat, ghost f: (int, int) -> real)
    returns (data: RadialSplineData)
    requires model.h > 0.0 && model.splinePoints >= 4 && |buffer| == model.splinePoints * width
    requires forall k :: 0 <= k < model.splinePoints ==>
               forall e :: 0 <= e < width ==> Row(buffer, width, k)[e] == f(k, e)
    ensures IsSplineOf(model.h, model.splinePoints, data, width, f)
  {
    data := RadialSplineData([], []);
    for function_ := 0 to width
      invariant IsSplineOf(model.h, model.splinePoints, data, function_, f)
    {
      var column := [];
      for node := 0 to model.splinePoints
        invariant |column| == node && forall k :: 0 <= k < node ==> column[k] == f(k, function_)
      {
        RowEntry(buffer, model.splinePoints, width, node, function_);
        column := column + [buffer[node * width + function_]];
      }
      var slopes := model.SplineDerivatives(column);
      data := RadialSplineData(data.values + [column], data.derivatives + [slopes.value]);
    }
  }

  ghost function NetworkValues(net: Network, features: seq<real>): (int, int) -> real
    requires net.Valid()
  {
    (k, e) => net.Model().Output(RowSlice(features, net.shape[0], k))(e)
  }

  ghost function PenultimateValues(net: Network, features: seq<real>): (int, int) -> real
    requires net.Valid()
  {
    (k, e) => net.Model().Level(RowSlice(features, net.shape[0], k), net.Layers() - 1)(e)
  }

  /** The last layer's output, in front of any postprocessing. */
  ghost function LastLevelValues(net: Network, features: seq<real>): (int, int) -> real
    requires net.Valid()
  {
    (k, e) => net.Model().Level(RowSlice(features, net.shape[0], k), net.Layers())(e)
  }

  /** The splines of the network's outputs on the grid. */
  method EvaluateNetwork(model: CompactRadialModel, net: Network, features: seq<real>) returns (data: RadialSplineData)
    requires model.h > 0.0 && model.splinePoints >= 4 && net.Valid() && |features| == model.splinePoints * net.shape[0]
    ensures IsSplineOf(model.h, model.splinePoints, data, net.shape[net.Layers()], NetworkValues(net, features))
  {
    var evaluated := EvaluateBatch(net, features, model.splinePoints);
    var width := net.shape[net.Layers()];
    var values := Postprocess(net, evaluated.value);
    forall k | 0 <= k < model.splinePoints
      ensures forall e :: 0 <= e < width ==> Row(values, width, k)[e] == NetworkValues(net, features)(k, e)
    {
      PostprocessedRow(net, features, evaluated.value, values, model.splinePoints, k);
    }
    data := Tabulate(model, values, width, NetworkValues(net, features));
  }

  /** The tables hold what any run of the network on the node's features ends with, postprocessed as the network
      says. */
  lemma TableHoldsRun(h: real, points: nat, net: Network, features: seq<real>, data: RadialSplineData,
                      u: seq<seq<real>>, k: nat, e: nat, start: int)
    requires net.Valid() && net.IsRun(u) && k < points && e < net.shape[net.Layers()] && start == k * net.shape[0]
    requires IsSplineOf(h, points, data, net.shape[net.Layers()], NetworkValues(net, features))
    requires forall i :: 0 <= i < net.shape[0] ==> u[0][i] == At(features, start + i)
    ensures |data.values[e]| == points
    ensures data.values[e][k]
         == if net.tanhSquare then net.tanh(u[net.Layers()][e] * u[net.Layers()][e]) else u[net.Layers()][e]
  {
    assert IsSplineRow(h, points, data.values[e], data.derivatives[e], NetworkValues(net, features), e);
    RunIsOutput(net, features, u, k, e, start);
  }

  lemma RunIsOutput(net: Network, features: seq<real>, u: seq<seq<real>>, k: nat, e: nat, start: int)
    requires net.Valid() && net.IsRun(u) && e < net.shape[net.Layers()] && start == k * net.shape[0]
    requires forall i :: 0 <= i < net.shape[0] ==> u[0][i] == At(features, start + i)
    ensures LastLevelValues(net, features)(k, e) == u[net.Layers()][e]
    ensures NetworkValues(net, features)(k, e)
         == if net.tanhSquare then net.tanh(u[net.Layers()][e] * u[net.Layers()][e]) else u[net.Layers()][e]
  {
    var x := RowSlice(features, net.shape[0], k);
    forall i | 0 <= i < net.shape[0] ensures u[0][i] == x(i) {
      assert Offset(k, net.shape[0], i) == start + i;
    }
    net.RunIsLevel(u, x, net.Layers());
    var v := u[net.Layers()][e];
    assert net.Model().Level(x, net.Layers())(e) == v && Square(v) == v * v;
    assert net.Model().Output(x)(e) == net.Model().post.value(v);
  }

  lemma PostprocessedRow(net: Network, features: seq<real>, evaluated: seq<real>, values: seq<real>, batch: nat, k: nat)
    requires net.Valid() && k < batch && BatchHolds(net, features, batch, net.Layers(), evaluated)
    requires Maps(net.Model().post.value, evaluated, values)
    ensures forall e :: 0 <= e < net.shape[net.Layers()] ==>
              Row(values, net.shape[net.Layers()], k)[e] == NetworkValues(net, features)(k, e)
  {
    var f, width := net.Model().post.value, net.shape[net.Layers()];
    assert BatchRowHolds(net, features, net.Layers(), evaluated, k);
    MapsRows(f, evaluated, values, batch, width, k);
    ComposedAgrees(f, Row(evaluated, width, k), Row(values, width, k),
                   net.Model().Level(RowSlice(features, net.shape[0], k), net.Layers()));
    var row, output := Row(values, width, k), net.Model().Output(RowSlice(features, net.shape[0], k));
    forall e | 0 <= e < width ensures row[e] == NetworkValues(net, features)(k, e) {
      assert row[e] == output(e);
    }
  }

  method Postprocess(net: Network, batch: seq<real>) returns (r: seq<real>)
    requires net.Valid()
    ensures Maps(net.Model().post.value, batch, r)
  {
    if !net.tanhSquare {
      return batch;
    }
    r := [];
    for i := 0 to |batch|
      invariant |r| == i && forall t :: 0 <= t < i ==> r[t] == net.Model().post.value(batch[t])
    {
      var value := batch[i];
      r := r + [net.tanh(Square(value))];
    }
  }

  /** The splines of the penultimate layer, with the final weight as projection. */
  method EvaluateFactorizedNetwork(model: CompactRadialModel, net: Network, features: seq<real>)
    returns (data: FactorizedRadialData)
    requires model.h > 0.0 && model.splinePoints >= 4 && net.Valid() && |features| == model.splinePoints * net.shape[0]
    ensures IsFactorization(model.h, model.splinePoints, net, features, data)
  {
    var width := net.shape[net.Layers() - 1];
    var evaluated := EvaluatePenultimateBatch(net, features, model.splinePoints);
    PenultimateRows(net, features, model.splinePoints, width, evaluated.value);
    var penultimate := Tabulate(model, evaluated.value, width, PenultimateValues(net, features));
    data := FactorizedRadialData(penultimate, net.weights[net.Layers() - 1], width, net.shape[net.Layers()]);
  }

  lemma PenultimateRows(net: Network, features: seq<real>, points: nat, width: nat, buffer: seq<real>)
    requires net.Valid() && width == net.shape[net.Layers() - 1]
    requires BatchHolds(net, features, points, net.Layers() - 1, buffer)
    ensures forall k :: 0 <= k < points ==>
              forall e :: 0 <= e < width ==> Row(buffer, width, k)[e] == PenultimateValues(net, features)(k, e)
  {
    forall k | 0 <= k < points
      ensures forall e :: 0 <= e < width ==> Row(buffer, width, k)[e] == PenultimateValues(net, features)(k, e)
    {
      assert BatchRowHolds(net, features, net.Layers() - 1, buffer, k);
    }
  }

  // ---------------------------------------------------------------- reconstruction

  /** Row o of the projection, and column k of a table. */
  ghost function ProjectionRow(projection: seq<real>, width: nat, o: int): int -> real {
    e => MatrixOf(projection, width)(o, e)
  }

  ghost function TableColumn(table: seq<seq<real>>, k: int): int -> real {
    e => TableAt(table, e, k)
  }

  ghost function Projected(projection: seq<real>, width: nat, o: int, table: seq<seq<real>>, k: int): real {
    Inner(width, ProjectionRow(projection, width, o), TableColumn(table, k))
  }

  ghost function TableAt(table: seq<seq<real>>, e: int, k: int): real {
    if 0 <= e < |table| then At(table[e], k) else 0.0
  }

  /** Accumulates weight times one row onto another (lines 97-104). */
  method AddScaled(row: seq<real>, weight: real, source: seq<real>) returns (r: seq<real>)
    requires |row| == |source|
    ensures |r| == |row| && forall k :: 0 <= k < |row| ==> r[k] == row[k] + weight * source[k]
  {
    r := [];
    for node := 0 to |row|
      invariant |r| == node && forall k :: 0 <= k < node ==> r[k] == row[k] + weight * source[k]
    {
      r := r + [row[node] + weight * source[node]];
    }
  }

  lemma InnerExtends(n: nat, f: int -> real, g: int -> real, a: real, b: real)
    requires f(n) == a && g(n) == b
    ensures Inner(n + 1, f, g) == Inner(n, f, g) + a * b
  {
    SumExtends(n, i => f(i) * g(i), a * b);
  }

  lemma ProjectionEntry(projection: seq<real>, outputs: nat, width: nat, o: nat, e: nat)
    requires |projection| == outputs * width && o < outputs && e < width
    ensures 0 <= o * width + e < |projection|
    ensures ProjectionRow(projection, width, o)(e) == projection[o * width + e]
  {
    OffsetBound(o, outputs, width, e);
    var t := Offset(o, width, e);
    assert At(projection, t) == projection[t];
    assert MatrixOf(projection, width)(o, e) == At(projection, t);
  }

  /** One output row of the reconstruction. */
  method ProjectRow(projection: seq<real>, outputs: nat, width: nat, o: nat, table: seq<seq<real>>, nodes: nat)
    returns (row: seq<real>)
    requires |projection| == outputs * width && o < outputs && |table| == width
    requires forall e :: 0 <= e < width ==> |table[e]| == nodes
    ensures |row| == nodes && forall k :: 0 <= k < nodes ==> row[k] == Projected(projection, width, o, table, k)
  {
    row := seq(nodes, _ => 0.0);
    for embedding := 0 to width
      invariant |row| == nodes
      invariant forall k :: 0 <= k < nodes ==>
                  row[k] == Inner(embedding, ProjectionRow(projection, width, o), TableColumn(table, k))
    {
      ProjectionEntry(projection, outputs, width, o, embedding);
      var weight := projection[o * width + embedding];
      row := AddScaled(row, weight, table[embedding]);
      forall k | 0 <= k < nodes
        ensures row[k] == Inner(embedding + 1, ProjectionRow(projection, width, o), TableColumn(table, k))
      {
        assert TableColumn(table, k)(embedding) == table[embedding][k];
        InnerExtends(embedding, ProjectionRow(projection, width, o), TableColumn(table, k), weight,
                     table[embedding][k]);
      }
    }
  }

  ghost predicate IsProjection(data: FactorizedRadialData, result: seq<seq<real>>, table: seq<seq<real>>)
    requires data.ExtentsPositive()
  {
    && |result| == data.outputWidth
    && forall o :: 0 <= o < data.outputWidth ==>
         IsProjectedRow(data.finalProjection, data.embeddingWidth, o, table, result[o], data.NodeCount())
  }

  ghost predicate IsProjectedRow(projection: seq<real>, width: nat, o: int, table: seq<seq<real>>, row: seq<real>,
                                 nodes: nat) {
    |row| == nodes && forall k :: 0 <= k < nodes ==> row[k] == Projected(projection, width, o, table, k)
  }

  /** Projects the penultimate splines back to one spline per output. */
  method ReconstructProjected(data: FactorizedRadialData) returns (result: Result<RadialSplineData, TableError>)
    ensures result.Ok? <==> data.ExtentsPositive() && data.ExtentsConsistent() && data.NodesConsistent()
    ensures var values, slopes := data.penultimate.values, data.penultimate.derivatives;
            result.Ok? <==>
              && data.embeddingWidth > 0 && data.outputWidth > 0
              && |values| == |slopes| == data.embeddingWidth
              && |data.finalProjection| == data.embeddingWidth * data.outputWidth
              && forall e :: 0 <= e < data.embeddingWidth ==> |values[e]| == |slopes[e]| == |values[0]|
    ensures result.Ok? ==> IsProjection(data, result.value.values, data.penultimate.values)
                           && IsProjection(data, result.value.derivatives, data.penultimate.derivatives)
  {
    if !data.ExtentsPositive() {
      return Err(InvalidExtents);
    }
    if !data.ExtentsConsistent() {
      return Err(InconsistentExtents);
    }
    if !data.NodesConsistent() {
      return Err(InconsistentNodes);
    }
    var width, outputs, nodes := data.embeddingWidth, data.outputWidth, data.NodeCount();
    var values: seq<seq<real>>, derivatives: seq<seq<real>> := [], [];
    for output := 0 to outputs
      invariant |values| == |derivatives| == output
      invariant forall o :: 0 <= o < output ==>
                  && IsProjectedRow(data.finalProjection, width, o, data.penultimate.values, values[o], nodes)
                  && IsProjectedRow(data.finalProjection, width, o, data.penultimate.derivatives, derivatives[o], nodes)
    {
      var valueRow := ProjectRow(data.finalProjection, outputs, width, output, data.penultimate.values, nodes);
      var slopeRow := ProjectRow(data.finalProjection, outputs, width, output, data.penultimate.derivatives, nodes);
      values, derivatives := values + [valueRow], derivatives + [slopeRow];
    }
    result := Ok(RadialSplineData(values, derivatives));
  }

  // ---------------------------------------------------------------- nothing is lost

  /** Entry n of a projected row, as a product with the transposed table. */
  lemma ProjectedIsPulled(projection: seq<real>, width: nat, o: int, values: seq<seq<real>>, n: int)
    ensures Projected(projection, width, o, values, n)
         == Pulled(width, (e, k) => TableAt(values, e, k), ProjectionRow(projection, width, o))(n)
  {
    var p, column := ProjectionRow(projection, width, o), TableColumn(values, n);
    InnerSymmetric(width, p, column);
    PulledByInner(width, (e, k) => TableAt(values, e, k), p, n, column, p);
  }

  /** Slope k of one table, as a product with the solver's row k. */
  lemma SlopeOfTable(h: real, points: nat, values: seq<seq<real>>, e: int, k: nat, row: int -> real)
    requires h > 0.0 && points >= 4 && k < points && 0 <= e < |values| && |values[e]| == points
    requires forall n :: row(n) == SolverMatrix(h, points)(k, n)
    ensures Applied(points, (e, n) => TableAt(values, e, n), row)(e) == Slopes(h, values[e])[k]
  {
    var x := Entries(values[e]);
    SlopesByMatrix(h, values[e], k);
    AppliedByInner(points, SolverMatrix(h, points), x, k, x, row);
    InnerSymmetric(points, x, row);
    AppliedByInner(points, (e, n) => TableAt(values, e, n), row, e, row, x);
  }

  /** The slopes of a projection of tables are the projection of their slopes. */
  lemma SlopesProject(h: real, points: nat, projection: seq<real>, width: nat, o: int, values: seq<seq<real>>,
                      slopes: seq<seq<real>>, projected: seq<real>, k: nat)
    requires h > 0.0 && points >= 4 && |values| == |slopes| == width && k < points
    requires forall e :: 0 <= e < width ==> |values[e]| == points && slopes[e] == Slopes(h, values[e])
    requires IsProjectedRow(projection, width, o, values, projected, points)
    ensures Slopes(h, projected)[k] == Projected(projection, width, o, slopes, k)
  {
    var a, p, x := SolverMatrix(h, points), ProjectionRow(projection, width, o), Entries(projected);
    var t: (int, int) -> real, row: int -> real := (e, n) => TableAt(values, e, n), n => a(k, n);
    SlopesByMatrix(h, projected, k);
    AppliedByInner(points, a, x, k, x, row);
    forall n | 0 <= n < points ensures x(n) == Pulled(width, t, p)(n) {
      assert projected[n] == Projected(projection, width, o, values, n);
      ProjectedIsPulled(projection, width, o, values, n);
    }
    InnerCong(points, x, row, Pulled(width, t, p), row);
    MatrixTranspose(width, points, t, p, row);
    forall e | 0 <= e < width ensures Applied(points, t, row)(e) == TableColumn(slopes, k)(e) {
      SlopeOfTable(h, points, values, e, k, row);
    }
    InnerCong(width, p, Applied(points, t, row), p, TableColumn(slopes, k));
  }

  /** The projected penultimate tables are those of the network in front of its postprocessing, values and slopes
      alike. */
  lemma FactorizationLosesNothing(h: real, points: nat, net: Network, features: seq<real>, data: FactorizedRadialData,
                                  reconstructed: RadialSplineData)
    requires net.Valid() && IsFactorization(h, points, net, features, data)
    requires IsProjection(data, reconstructed.values, data.penultimate.values)
    requires IsProjection(data, reconstructed.derivatives, data.penultimate.derivatives)
    ensures IsSplineOf(h, points, reconstructed, net.shape[net.Layers()], LastLevelValues(net, features))
  {
    forall o | 0 <= o < data.outputWidth
      ensures IsSplineRow(h, points, reconstructed.values[o], reconstructed.derivatives[o],
                          LastLevelValues(net, features), o)
    {
      RowSurvives(h, points, net, features, data, o, reconstructed.values[o], reconstructed.derivatives[o]);
    }
  }

  /** Without postprocessing that is the network itself, and a table has one spline only. */
  lemma NothingPostprocessed(h: real, points: nat, net: Network, features: seq<real>, projected: RadialSplineData,
                             reconstructed: RadialSplineData)
    requires net.Valid() && !net.tanhSquare
    requires IsSplineOf(h, points, projected, net.shape[net.Layers()], NetworkValues(net, features))
    requires IsSplineOf(h, points, reconstructed, net.shape[net.Layers()], LastLevelValues(net, features))
    ensures reconstructed == projected
  {
    var f, g := NetworkValues(net, features), LastLevelValues(net, features);
    forall o | 0 <= o < net.shape[net.Layers()]
      ensures reconstructed.values[o] == projected.values[o] && reconstructed.derivatives[o] == projected.derivatives[o]
    {
      assert IsSplineRow(h, points, projected.values[o], projected.derivatives[o], f, o);
      assert IsSplineRow(h, points, reconstructed.values[o], reconstructed.derivatives[o], g, o);
      forall k | 0 <= k < points ensures f(k, o) == g(k, o) {
        var x := RowSlice(features, net.shape[0], k);
        assert net.Model().Output(x)(o) == net.Model().Level(x, net.Layers())(o);
      }
    }
  }

  /** What evaluate_factorized_network returns. */
  ghost predicate IsFactorization(h: real, points: nat, net: Network, features: seq<real>, data: FactorizedRadialData)
    requires net.Valid()
  {
    && data.embeddingWidth == net.shape[net.Layers() - 1] && data.outputWidth == net.shape[net.Layers()]
    && data.finalProjection == net.weights[net.Layers() - 1]
    && IsSplineOf(h, points, data.penultimate, data.embeddingWidth, PenultimateValues(net, features))
  }

  lemma RowSurvives(h: real, points: nat, net: Network, features: seq<real>, data: FactorizedRadialData, o: nat,
                    values: seq<real>, slopes: seq<real>)
    requires net.Valid() && IsFactorization(h, points, net, features, data) && o < data.outputWidth
    requires IsProjectedRow(data.finalProjection, data.embeddingWidth, o, data.penultimate.values, values,
                            data.NodeCount())
    requires IsProjectedRow(data.finalProjection, data.embeddingWidth, o, data.penultimate.derivatives, slopes,
                            data.NodeCount())
    ensures IsSplineRow(h, points, values, slopes, LastLevelValues(net, features), o)
  {
    var width, table := data.embeddingWidth, data.penultimate;
    assert IsSplineRow(h, points, table.values[0], table.derivatives[0], PenultimateValues(net, features), 0);
    forall k | 0 <= k < points ensures values[k] == LastLevelValues(net, features)(k, o) {
      ValueSurvives(h, points, net, features, data, o, k);
    }
    forall e | 0 <= e < width
      ensures |table.values[e]| == points && table.derivatives[e] == Slopes(h, table.values[e])
    {
      assert IsSplineRow(h, points, table.values[e], table.derivatives[e], PenultimateValues(net, features), e);
    }
    forall k: nat | k < points ensures slopes[k] == Slopes(h, values)[k] {
      SlopesProject(h, points, data.finalProjection, width, o, table.values, table.derivatives, values, k);
    }
  }

  /** The last layer is the projection. */
  lemma ValueSurvives(h: real, points: nat, net: Network, features: seq<real>, data: FactorizedRadialData, o: nat,
                      k: int)
    requires net.Valid() && IsFactorization(h, points, net, features, data) && o < data.outputWidth && 0 <= k < points
    ensures Projected(data.finalProjection, data.embeddingWidth, o, data.penultimate.values, k)
         == LastLevelValues(net, features)(k, o)
  {
    var L, width, table := net.Layers(), data.embeddingWidth, data.penultimate.values;
    var x := RowSlice(features, net.shape[0], k);
    var level, p := net.Model().Level(x, L - 1), ProjectionRow(data.finalProjection, width, o);
    forall e | 0 <= e < width ensures TableColumn(table, k)(e) == level(e) {
      assert IsSplineRow(h, points, table[e], data.penultimate.derivatives[e], PenultimateValues(net, features), e);
    }
    InnerCong(width, p, TableColumn(table, k), p, level);
    InnerSymmetric(width, p, level);
    AppliedByInner(width, MatrixOf(data.finalProjection, width), level, o, level, p);
    LastLayerIsLinear(net, x, o);
  }

  lemma LastLayerIsLinear(net: Network, x: int -> real, o: int)
    requires net.Valid()
    ensures net.Model().Level(x, net.Layers())(o) == net.Model().Pre(x, net.Layers() - 1)(o)
  {
  }

  // ---------------------------------------------------------------- the report

  ghost function Difference(a: seq<seq<real>>, b: seq<seq<real>>, o: int, k: int): real {
    Abs(TableAt(a, o, k) - TableAt(b, o, k))
  }

  /** Largest absolute difference of two tables, 0 for empty ones. */
  ghost predicate IsLargestDifference(a: seq<seq<real>>, b: seq<seq<real>>, error: real) {
    && error >= 0.0
    && (forall o, k :: 0 <= o < |a| && 0 <= k < |a[o]| ==> Difference(a, b, o, k) <= error)
    && (error == 0.0 || exists o, k :: 0 <= o < |a| && 0 <= k < |a[o]| && Difference(a, b, o, k) == error)
  }

  method LargestDifference(a: seq<seq<real>>, b: seq<seq<real>>) returns (error: real)
    requires |a| == |b| && forall o :: 0 <= o < |a| ==> |a[o]| == |b[o]|
    ensures IsLargestDifference(a, b, error)
    ensures forall o, k :: 0 <= o < |a| && 0 <= k < |a[o]| ==> -error <= a[o][k] - b[o][k] <= error
    ensures error != 0.0 ==>
              exists o, k :: 0 <= o < |a| && 0 <= k < |a[o]|
                             && (a[o][k] - b[o][k] == error || b[o][k] - a[o][k] == error)
  {
    error := 0.0;
    for output := 0 to |a|
      invariant error >= 0.0
      invariant forall o, k :: 0 <= o < output && 0 <= k < |a[o]| ==> Difference(a, b, o, k) <= error
      invariant error == 0.0
                || exists o, k :: 0 <= o < output && 0 <= k < |a[o]| && Difference(a, b, o, k) == error
    {
      for node := 0 to |a[output]|
        invariant error >= 0.0
        invariant forall o, k :: 0 <= o < output && 0 <= k < |a[o]| ==> Difference(a, b, o, k) <= error
        invariant forall k :: 0 <= k < node ==> Difference(a, b, output, k) <= error
        invariant error == 0.0
                  || exists o, k :: 0 <= o <= output && 0 <= k < |a[o]| && Difference(a, b, o, k) == error
      {
        var difference := Abs(a[output][node] - b[output][node]);
        assert difference == Difference(a, b, output, node);
        if error < difference {
          error := difference;
        }
      }
    }
    forall o, k | 0 <= o < |a| && 0 <= k < |a[o]| ensures -error <= a[o][k] - b[o][k] <= error {
      assert Difference(a, b, o, k) <= error;
    }
    if error != 0.0 {
      ghost var o, k :| 0 <= o < |a| && 0 <= k < |a[o]| && Difference(a, b, o, k) == error;
      assert a[o][k] - b[o][k] == error || b[o][k] - a[o][k] == error;
    }
  }

  datatype FactorizationReport = FactorizationReport(embeddingWidth: int, outputWidth: int, valueError: real,
                                                     derivativeError: real)

  /** The report measures exactly how far the network's tables are from those in front of its postprocessing, which is
      what the factorized tables reconstruct; without postprocessing it finds no difference. */
  method Report(model: CompactRadialModel, net: Network, features: seq<real>)
    returns (report: Result<FactorizationReport, TableError>, ghost projected: RadialSplineData,
             ghost reconstructed: RadialSplineData)
    requires model.h > 0.0 && model.splinePoints >= 4 && net.Valid() && |features| == model.splinePoints * net.shape[0]
    ensures report.Ok? && report.value.embeddingWidth == net.shape[net.Layers() - 1]
    ensures report.value.outputWidth == net.shape[net.Layers()]
    ensures IsSplineOf(model.h, model.splinePoints, projected, net.shape[net.Layers()], NetworkValues(net, features))
    ensures IsSplineOf(model.h, model.splinePoints, reconstructed, net.shape[net.Layers()],
                       LastLevelValues(net, features))
    ensures IsLargestDifference(projected.values, reconstructed.values, report.value.valueError)
    ensures IsLargestDifference(projected.derivatives, reconstructed.derivatives, report.value.derivativeError)
    ensures !net.tanhSquare ==> report.value.valueError == 0.0 && report.value.derivativeError == 0.0
  {
    var direct := EvaluateNetwork(model, net, features);
    var factorized := EvaluateFactorizedNetwork(model, net, features);
    FactorizationIsConsistent(model.h, model.splinePoints, net, features, factorized);
    var projection := ReconstructProjected(factorized);
    projected, reconstructed := direct, projection.value;
    SameShape(model.h, model.splinePoints, net, features, projected, factorized, reconstructed);
    var valueError := LargestDifference(direct.values, projection.value.values);
    var derivativeError := LargestDifference(direct.derivatives, projection.value.derivatives);
    FactorizationLosesNothing(model.h, model.splinePoints, net, features, factorized, reconstructed);
    if !net.tanhSquare {
      NothingPostprocessed(model.h, model.splinePoints, net, features, projected, reconstructed);
    }
    report := Ok(FactorizationReport(factorized.embeddingWidth, factorized.outputWidth, valueError, derivativeError));
  }

  lemma FactorizationIsConsistent(h: real, points: nat, net: Network, features: seq<real>, data: FactorizedRadialData)
    requires net.Valid() && IsFactorization(h, points, net, features, data)
    ensures data.ExtentsPositive() && data.ExtentsConsistent() && data.NodesConsistent() && data.NodeCount() == points
  {
    assert net.Sized(net.Layers() - 1);
    forall e | 0 <= e < data.embeddingWidth
      ensures |data.penultimate.values[e]| == points && |data.penultimate.derivatives[e]| == points
    {
      assert IsSplineRow(h, points, data.penultimate.values[e], data.penultimate.derivatives[e],
                         PenultimateValues(net, features), e);
    }
  }

  lemma SameShape(h: real, points: nat, net: Network, features: seq<real>, projected: RadialSplineData,
                  data: FactorizedRadialData, reconstructed: RadialSplineData)
    requires net.Valid() && IsFactorization(h, points, net, features, data)
    requires IsSplineOf(h, points, projected, net.shape[net.Layers()], NetworkValues(net, features))
    requires IsProjection(data, reconstructed.values, data.penultimate.values)
    requires IsProjection(data, reconstructed.derivatives, data.penultimate.derivatives)
    ensures |projected.values| == |reconstructed.values| && |projected.derivatives| == |reconstructed.derivatives|
    ensures forall o :: 0 <= o < |projected.values| ==> |projected.values[o]| == |reconstructed.values[o]|
    ensures forall o :: 0 <= o < |projected.derivatives| ==>
              |projected.derivatives[o]| == |reconstructed.derivatives[o]|
  {
    FactorizationIsConsistent(h, points, net, features, data);
    forall o | 0 <= o < net.shape[net.Layers()]
      ensures |projected.values[o]| == points && |projected.derivatives[o]| == points
      ensures |reconstructed.values[o]| == points && |reconstructed.derivatives[o]| == points
    {
      assert IsSplineRow(h, points, projected.values[o], projected.derivatives[o], NetworkValues(net, features), o);
      assert IsProjectedRow(data.finalProjection, data.embeddingWidth, o, data.penultimate.values,
                            reconstructed.values[o], points);
    }
  }
}
