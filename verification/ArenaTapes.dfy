/** What one forward pass of the shared-arena network leaves behind: the layout of its tape in the arena, and the
    values each slot must hold (affine_mlp_kokkos.cpp:283-330, 440-534). */
module ArenaTapes {
  import opened FiniteSums
  import opened FlatIndex
  import opened DenseKernels
  import opened DualNumbers
  import opened AffineLayers
  import opened AffineNetworks
  import opened AffineMlp
  import opened AffineBatch
  import opened AffineKernels

  ghost function IndexAt(x: seq<int>, i: int): int {
    if 0 <= i < |x| then x[i] else 0
  }

  /** Where the first layer's per-row contributions come from. The source tells a conditioned pass from a plain one by
      its data pointers: NoRows is a table whose pointer is null, which has no rows but may have columns. */
  datatype RowSource =
    | NoRows(columns: nat)
    | RowTable(table: Matrix)
    | Indexed(sourceEdgeTypes: seq<int>, targetNodeIndices: seq<int>, nodeTypes: seq<int>, firstEdge: int,
              sourceTable: Matrix, targetTable: Matrix)
  {
    /** The dimension checks of forward_impl (lines 419-439). */
    predicate DimensionsOk(batch: nat, outputs: nat) {
      match this
      case NoRows(_) => true
      case RowTable(table) => table.rows == batch && table.cols == outputs
      case Indexed(sourceEdgeTypes, targetNodeIndices, nodeTypes, firstEdge, sourceTable, targetTable) =>
        && firstEdge >= 0 && |sourceEdgeTypes| >= firstEdge + batch && |targetNodeIndices| >= firstEdge + batch
        && |nodeTypes| > 0 && sourceTable.rows > 0 && targetTable.rows > 0
        && sourceTable.cols == outputs && targetTable.cols == outputs
    }

    /** The extent checks of the prefix forms (lines 588-594, 633-645), which look at a null table's extents too. */
    predicate PrefixDimensionsOk(batch: nat, outputs: nat) {
      if NoRows? then batch == 0 && columns == outputs else DimensionsOk(batch, outputs)
    }

    /** What callers must supply besides: well-formed tables, and indices that point into them. */
    predicate WellFormed(batch: nat, outputs: nat) {
      match this
      case NoRows(_) => true
      case RowTable(table) => table.Valid()
      case Indexed(sourceEdgeTypes, targetNodeIndices, nodeTypes, firstEdge, sourceTable, targetTable) =>
        && sourceTable.Valid() && targetTable.Valid()
        && (DimensionsOk(batch, outputs) ==> forall s :: 0 <= s < batch ==> EdgeInTables(batch, outputs, s))
    }

    predicate EdgeInTables(batch: nat, outputs: nat, s: nat)
      requires Indexed? && DimensionsOk(batch, outputs) && s < batch
    {
      && 0 <= sourceEdgeTypes[firstEdge + s] < sourceTable.rows
      && 0 <= targetNodeIndices[firstEdge + s] < |nodeTypes|
      && 0 <= nodeTypes[targetNodeIndices[firstEdge + s]] < targetTable.rows
    }

    /** The network sample s runs through, with the additions to the first bias written out: row s of the table, or the
        two rows that the types of edge firstEdge + s and of its target node select. */
    ghost function Network(layers: seq<Layer>, s: nat): seq<Layer> {
      if layers == [] || !layers[0].Linear? then layers else
        var layer, n := layers[0], layers[0].outputs;
        match this
        case NoRows(_) => layers
        case RowTable(table) =>
          [layer.(bias := seq(n, j => At(layer.bias, j) + At(table.data, s * n + j)))] + layers[1..]
        case Indexed(sourceEdgeTypes, targetNodeIndices, nodeTypes, firstEdge, sourceTable, targetTable) =>
          var edge := firstEdge + s;
          var sourceType := IndexAt(sourceEdgeTypes, edge);
          var targetType := IndexAt(nodeTypes, IndexAt(targetNodeIndices, edge));
          [layer.(bias := seq(n, j => At(layer.bias, j) + (At(sourceTable.data, sourceType * n + j)
                                                           + At(targetTable.data, targetType * n + j))))]
          + layers[1..]
    }

    /** The row added to the first layer's output for sample s. */
    function Contribution(outputs: nat, batch: nat, s: nat): (r: seq<real>)
      requires DimensionsOk(batch, outputs) && WellFormed(batch, outputs) && s < batch
      ensures |r| == outputs
    {
      match this
      case NoRows(_) => Zeros(outputs)
      case RowTable(table) => Row(table.data, outputs, s)
      case Indexed(sourceEdgeTypes, targetNodeIndices, nodeTypes, firstEdge, sourceTable, targetTable) =>
        assert EdgeInTables(batch, outputs, s);
        var a := Row(sourceTable.data, outputs, sourceEdgeTypes[firstEdge + s]);
        var b := Row(targetTable.data, outputs, nodeTypes[targetNodeIndices[firstEdge + s]]);
        seq(outputs, j requires 0 <= j < outputs => a[j] + b[j])
    }
  }

  /** Middle slot of a LayerNorm+SiLU pair: fused passes never write it. */
  predicate Skipped(layers: seq<Layer>, count: nat, k: nat)
    requires count <= |layers|
  {
    1 <= k < count && layers[k - 1].LayerNorm? && layers[k].SiLU?
  }

  /** One more layer of a network that fits. */
  lemma PrefixStep(m: Elementary, net: seq<Layer>, k: nat, x: seq<real>)
    requires m.Valid() && Fits(net, |x|) && k < |net|
    ensures Fits(net[..k], |x|) && Fits(net[..k + 1], |x|)
    ensures net[k].Valid() && net[k].Accepts(|Evaluate(m, net[..k], x)|)
    ensures Evaluate(m, net[..k + 1], x) == Forward(m, net[k], Evaluate(m, net[..k], x))
  {
    PrefixFits(net, |x|, k);
    PrefixFits(net, |x|, k + 1);
    assert net[..k + 1] == net[..k] + [net[k]];
    FitsAppend(net[..k], [net[k]], |x|);
    EvaluateAppend(m, net[..k], [net[k]], x);
    var y := Evaluate(m, net[..k], x);
    assert Evaluate(m, [net[k]], y) == Forward(m, net[k], y);
  }

  /** A slice of a sequence part of which has been replaced: it is the new part, or it was not touched. */
  lemma SliceOfSplice(whole: seq<real>, start: nat, part: seq<real>, from: nat, size: nat)
    requires start + |part| <= |whole| && from + size <= |whole|
    requires from + size <= start || start + |part| <= from || (from == start && size == |part|)
    ensures var spliced := whole[..start] + part + whole[start + |part|..];
            && (from == start && size == |part| ==> spliced[from..from + size] == part)
            && (from + size <= start || start + |part| <= from ==>
                 spliced[from..from + size] == whole[from..from + size])
  {
  }

  /** A sum over row s of a matrix is a sum over the flat positions from `sample` on. */
  lemma SliceSum(weight: seq<real>, start: int, data: seq<real>, rows: nat, cols: nat, s: nat, sample: int)
    requires |data| == rows * cols && s < rows && sample == s * cols
    ensures Sum(cols, c => At(weight, start + c) * At(Row(data, cols, s), c))
         == Sum(cols, c => At(weight, start + c) * At(data, sample + c))
  {
    forall c | 0 <= c < cols ensures At(Row(data, cols, s), c) == At(data, sample + c) {
      RowEntry(data, rows, cols, s, c);
    }
    SumCong(cols, c => At(weight, start + c) * At(Row(data, cols, s), c),
            c => At(weight, start + c) * At(data, sample + c));
  }

  /** One forward pass over the first `count` layers. */
  datatype ForwardRun = ForwardRun(mlp: AffineMLP, input: Matrix, rows: RowSource, count: nat) {
    /** What forward_impl can be called with: a plain pass may feed a first linear layer its leading columns only. */
    ghost predicate Shaped() {
      && mlp.Valid() && input.Valid() && 1 <= count <= |mlp.layers|
      && rows.WellFormed(input.rows, mlp.layers[0].OutputSize())
      && rows.DimensionsOk(input.rows, mlp.layers[0].OutputSize())
      && ((rows.NoRows? && input.cols == mlp.InputSize()) || mlp.SupportsConditionedInput(input.cols))
    }

    /** A plain pass over leading columns only, with more than four samples: the product would be handed the full
        weight, whose columns do not match. */
    predicate Mismatched()
      requires mlp.layers != []
    {
      rows.NoRows? && input.cols != mlp.InputSize() && input.rows > 4
    }

    /** A pass that runs to its end. */
    ghost predicate Valid() {
      Shaped() && !Mismatched()
    }

    /** Row length of slot k. */
    function W(k: nat): nat
      requires k <= |mlp.layers|
    {
      RowWidth(mlp.layers, input.cols, k)
    }

    /** Number of entries in slot k. */
    function Size(k: nat): nat
      requires k <= |mlp.layers|
    {
      ProductNonNegative(input.rows, W(k));
      input.rows * W(k)
    }

    /** Where slot k starts. */
    function Base(k: nat): nat
      requires k <= |mlp.layers| + 1
    {
      if k == 0 then 0 else Base(k - 1) + Size(k - 1)
    }

    lemma {:induction false} BaseMonotone(j: nat, k: nat)
      requires j <= k <= |mlp.layers| + 1
      ensures Base(j) <= Base(k)
      ensures j < k ==> Base(j) + Size(j) <= Base(k)
      decreases k - j
    {
      if j == k {
      } else {
        BaseMonotone(j + 1, k);
      }
    }

    /** Slot k of an arena. */
    function Slot(arena: seq<real>, k: nat): (r: seq<real>)
      requires k <= count <= |mlp.layers| && |arena| >= Base(count + 1)
      ensures |r| == Size(k)
    {
      BaseMonotone(k, count + 1);
      arena[Base(k)..Base(k) + Size(k)]
    }

    /** The arena with slot k overwritten. */
    function Written(arena: seq<real>, k: nat, data: seq<real>): (r: seq<real>)
      requires k <= count <= |mlp.layers| && |arena| >= Base(count + 1) && |data| == Size(k)
      ensures |r| == |arena|
    {
      BaseMonotone(k, count + 1);
      arena[..Base(k)] + data + arena[Base(k) + Size(k)..]
    }

    /** Slots do not overlap. */
    lemma WrittenSlot(arena: seq<real>, k: nat, data: seq<real>, j: nat)
      requires j <= count <= |mlp.layers| && k <= count && |arena| >= Base(count + 1) && |data| == Size(k)
      ensures Slot(Written(arena, k, data), j) == if j == k then data else Slot(arena, j)
    {
      BaseMonotone(k, count + 1);
      BaseMonotone(j, count + 1);
      if j < k {
        BaseMonotone(j, k);
      } else if k < j {
        BaseMonotone(k, j);
      }
      SliceOfSplice(arena, Base(k), data, Base(j), Size(j));
    }

    /** The layers sample s runs through, contributions folded into the first bias. */
    ghost function Net(s: nat): (r: seq<Layer>)
      requires Valid() && s < input.rows
      ensures |r| == count
    {
      if rows.NoRows? then mlp.layers[..count]
      else
        var outputs := mlp.layers[0].OutputSize();
        Conditioned(mlp.layers, rows.Contribution(outputs, input.rows, s), Zeros(outputs))[..count]
    }

    /** Folding the contributions in is adding what the tables hold. */
    lemma NetIsNetwork(s: nat)
      requires Valid() && s < input.rows
      ensures Net(s) == rows.Network(mlp.layers, s)[..count]
    {
      if rows.RowTable? {
        TableBias(s);
        SameNetwork(s);
      } else if rows.Indexed? {
        assert rows.EdgeInTables(input.rows, mlp.layers[0].outputs, s);
        IndexedBias(s, rows.sourceEdgeTypes[rows.firstEdge + s],
                    rows.nodeTypes[rows.targetNodeIndices[rows.firstEdge + s]]);
        SameNetwork(s);
      }
    }

    lemma SameNetwork(s: nat)
      requires Valid() && s < input.rows && mlp.layers[0].Linear? && !rows.NoRows?
      requires Net(s) == [mlp.layers[0].(bias := Net(s)[0].bias)] + mlp.layers[1..count]
      requires Net(s)[0].bias == rows.Network(mlp.layers, s)[0].bias
      ensures Net(s) == rows.Network(mlp.layers, s)[..count]
    {
    }

    lemma TableBias(s: nat)
      requires Valid() && s < input.rows && rows.RowTable?
      ensures mlp.layers[0].Linear? && |Net(s)[0].bias| == mlp.layers[0].outputs
      ensures Net(s) == [mlp.layers[0].(bias := Net(s)[0].bias)] + mlp.layers[1..count]
      ensures forall j :: 0 <= j < mlp.layers[0].outputs ==>
                Net(s)[0].bias[j] == mlp.layers[0].bias[j] + At(rows.table.data, s * mlp.layers[0].outputs + j)
      ensures Net(s)[0].bias == rows.Network(mlp.layers, s)[0].bias
    {
      var n, data := mlp.layers[0].outputs, rows.table.data;
      forall j | 0 <= j < n ensures Net(s)[0].bias[j] == mlp.layers[0].bias[j] + At(data, s * n + j) {
        RowEntry(data, input.rows, n, s, j);
        assert Row(data, n, s)[j] == At(data, s * n + j);
      }
      assert Net(s)[0].bias == rows.Network(mlp.layers, s)[0].bias;
    }

    lemma IndexedBias(s: nat, sourceType: int, targetType: int)
      requires Valid() && s < input.rows && rows.Indexed? && rows.EdgeInTables(input.rows, mlp.layers[0].outputs, s)
      requires sourceType == rows.sourceEdgeTypes[rows.firstEdge + s]
      requires targetType == rows.nodeTypes[rows.targetNodeIndices[rows.firstEdge + s]]
      ensures mlp.layers[0].Linear? && |Net(s)[0].bias| == mlp.layers[0].outputs
      ensures Net(s) == [mlp.layers[0].(bias := Net(s)[0].bias)] + mlp.layers[1..count]
      ensures forall j :: 0 <= j < mlp.layers[0].outputs ==>
                (Net(s)[0].bias[j]
              == mlp.layers[0].bias[j] + (At(rows.sourceTable.data, sourceType * mlp.layers[0].outputs + j)
                                          + At(rows.targetTable.data, targetType * mlp.layers[0].outputs + j)))
      ensures Net(s)[0].bias == rows.Network(mlp.layers, s)[0].bias
    {
      var n, source, target := mlp.layers[0].outputs, rows.sourceTable, rows.targetTable;
      forall j | 0 <= j < n
        ensures Net(s)[0].bias[j]
             == mlp.layers[0].bias[j] + (At(source.data, sourceType * n + j) + At(target.data, targetType * n + j))
      {
        RowEntry(source.data, source.rows, n, sourceType, j);
        RowEntry(target.data, target.rows, n, targetType, j);
        assert Row(source.data, n, sourceType)[j] == At(source.data, sourceType * n + j);
        assert Row(target.data, n, targetType)[j] == At(target.data, targetType * n + j);
      }
      assert Net(s)[0].bias == rows.Network(mlp.layers, s)[0].bias;
    }

    function X(s: nat): seq<real> {
      Row(input.data, input.cols, s)
    }

    lemma NetFits(s: nat)
      requires Valid() && s < input.rows
      ensures Fits(Net(s), input.cols)
      ensures Width(Net(s), input.cols) == W(count)
      ensures forall k :: 1 <= k < count ==> Net(s)[k] == mlp.layers[k]
    {
      var all := FullNet(s);
      FullNetFits(s);
      assert all == all[..count] + all[count..];
      FitsAppend(all[..count], all[count..], input.cols);
      assert Net(s) == all[..count];
    }

    /** All layers, contributions folded into the first bias. */
    ghost function FullNet(s: nat): (r: seq<Layer>)
      requires Valid() && s < input.rows
      ensures |r| == |mlp.layers|
    {
      if rows.NoRows? then mlp.layers else
        var outputs := mlp.layers[0].OutputSize();
        Conditioned(mlp.layers, rows.Contribution(outputs, input.rows, s), Zeros(outputs))
    }

    lemma FullNetFits(s: nat)
      requires Valid() && s < input.rows
      ensures Fits(FullNet(s), input.cols)
      ensures forall k :: 1 <= k < |mlp.layers| ==> FullNet(s)[k] == mlp.layers[k]
    {
      if !rows.NoRows? {
        var outputs := mlp.layers[0].OutputSize();
        ConditionedFits(mlp.layers, rows.Contribution(outputs, input.rows, s), Zeros(outputs), input.cols);
      } else if input.cols != mlp.InputSize() {
        var outputs := mlp.layers[0].OutputSize();
        ConditionedFits(mlp.layers, Zeros(outputs), Zeros(outputs), input.cols);
      }
    }

    /** Value of sample s in front of layer k. */
    ghost function Level(s: nat, k: nat): seq<real>
      requires Valid() && s < input.rows && k <= count
    {
      NetFits(s);
      PrefixFits(Net(s), input.cols, k);
      Evaluate(mlp.m, Net(s)[..k], X(s))
    }

    lemma LevelStep(s: nat, k: nat)
      requires Valid() && s < input.rows && k < count
      ensures Net(s)[k].Valid() && Net(s)[k].Accepts(|Level(s, k)|)
      ensures Level(s, k + 1) == Forward(mlp.m, Net(s)[k], Level(s, k))
      ensures |Level(s, k)| == W(k)
    {
      NetFits(s);
      PrefixStep(mlp.m, Net(s), k, X(s));
    }

    lemma LevelSize(s: nat, k: nat)
      requires Valid() && s < input.rows && k <= count
      ensures |Level(s, k)| == W(k)
    {
      if k < count {
        LevelStep(s, k);
      } else {
        NetFits(s);
        assert Net(s)[..count] == Net(s);
      }
    }

    ghost predicate RowHolds(buffer: seq<real>, k: nat, s: nat)
      requires Valid() && s < input.rows && k <= count
    {
      Row(buffer, W(k), s) == Level(s, k)
    }

    /** The buffer holds the values of every sample in front of layer k. */
    ghost predicate Holds(buffer: seq<real>, k: nat)
      requires Valid() && k <= count
    {
      |buffer| == Size(k) && forall s: nat :: s < input.rows ==> RowHolds(buffer, k, s)
    }

    /** Every slot up to `upTo` that a pass over `count` layers writes holds its values. */
    ghost predicate TapeHolds(arena: seq<real>, upTo: nat)
      requires Valid() && upTo <= count && |arena| >= Base(count + 1)
    {
      forall k: nat :: k <= upTo && !Skipped(mlp.layers, count, k) ==> Holds(Slot(arena, k), k)
    }

    /** Writing the next slot, past any skipped one, extends the tape. */
    lemma TapeExtendedBy(arena: seq<real>, from: nat, k: nat, data: seq<real>)
      requires Valid() && from < k <= count && |arena| >= Base(count + 1)
      requires TapeHolds(arena, from) && Holds(data, k)
      requires forall j: nat :: from < j < k ==> Skipped(mlp.layers, count, j)
      ensures TapeHolds(Written(arena, k, data), k)
    {
      forall j: nat | j <= k && !Skipped(mlp.layers, count, j)
        ensures Holds(Slot(Written(arena, k, data), j), j)
      {
        WrittenSlot(arena, k, data, j);
      }
    }

    /** The value of the first layer, written out in the entries of weight, bias, input and tables. */
    lemma FirstLayerValue(s: nat, j: nat, start: int, sample: int, extra: real)
      requires Valid() && s < input.rows && mlp.layers[0].Linear? && j < mlp.layers[0].outputs
      requires start == j * mlp.layers[0].inputs && sample == s * input.cols
      requires rows.NoRows? ==> extra == 0.0
      requires rows.RowTable? ==> extra == At(rows.table.data, s * mlp.layers[0].outputs + j)
      requires rows.Indexed? ==> rows.EdgeInTables(input.rows, mlp.layers[0].outputs, s)
      requires rows.Indexed? ==>
                 extra == At(rows.sourceTable.data,
                             rows.sourceEdgeTypes[rows.firstEdge + s] * mlp.layers[0].outputs + j)
                          + At(rows.targetTable.data,
                               rows.nodeTypes[rows.targetNodeIndices[rows.firstEdge + s]] * mlp.layers[0].outputs + j)
      ensures |Level(s, 1)| == mlp.layers[0].outputs
      ensures Level(s, 1)[j] == mlp.layers[0].bias[j]
                                + Sum(input.cols, c => At(mlp.layers[0].weight, start + c) * At(input.data, sample + c))
                                + extra
    {
      FirstBias(s, j, extra);
      FirstLevel(s, j, start, sample);
    }

    lemma FirstBias(s: nat, j: nat, extra: real)
      requires Valid() && s < input.rows && mlp.layers[0].Linear? && j < mlp.layers[0].outputs
      requires rows.NoRows? ==> extra == 0.0
      requires rows.RowTable? ==> extra == At(rows.table.data, s * mlp.layers[0].outputs + j)
      requires rows.Indexed? ==> rows.EdgeInTables(input.rows, mlp.layers[0].outputs, s)
      requires rows.Indexed? ==>
                 extra == At(rows.sourceTable.data,
                             rows.sourceEdgeTypes[rows.firstEdge + s] * mlp.layers[0].outputs + j)
                          + At(rows.targetTable.data,
                               rows.nodeTypes[rows.targetNodeIndices[rows.firstEdge + s]] * mlp.layers[0].outputs + j)
      ensures Net(s)[0].Linear? && Net(s)[0].outputs == |Net(s)[0].bias| == mlp.layers[0].outputs
      ensures Net(s)[0].weight == mlp.layers[0].weight && Net(s)[0].inputs == mlp.layers[0].inputs
      ensures Net(s)[0].bias[j] == mlp.layers[0].bias[j] + extra
    {
      if rows.RowTable? {
        TableBias(s);
      } else if rows.Indexed? {
        IndexedBias(s, rows.sourceEdgeTypes[rows.firstEdge + s],
                    rows.nodeTypes[rows.targetNodeIndices[rows.firstEdge + s]]);
      }
    }

    lemma FirstLevel(s: nat, j: nat, start: int, sample: int)
      requires Valid() && s < input.rows && Net(s)[0].Linear? && j < Net(s)[0].outputs == |Net(s)[0].bias|
      requires start == j * Net(s)[0].inputs && sample == s * input.cols
      ensures |Level(s, 1)| == Net(s)[0].outputs
      ensures Level(s, 1)[j] == Net(s)[0].bias[j]
                                + Sum(input.cols, c => At(Net(s)[0].weight, start + c) * At(input.data, sample + c))
    {
      LevelStep(s, 0);
      assert Net(s)[..0] == [];
      AffineLayers.LinearEntry(mlp.m, Net(s)[0], X(s), j, start);
      SliceSum(Net(s)[0].weight, start, input.data, input.rows, input.cols, s, sample);
    }

    lemma LastLevel(buffer: seq<real>, s: nat)
      requires Valid() && count == |mlp.layers| && Holds(buffer, count) && s < input.rows
      ensures Fits(Net(s), input.cols)
      ensures Row(buffer, mlp.layers[count - 1].OutputSize(), s) == Evaluate(mlp.m, Net(s), X(s))
    {
      LevelAtEnd(s);
      RowOfLast(buffer, s, mlp.layers[count - 1].OutputSize());
    }

    lemma RowOfLast(buffer: seq<real>, s: nat, width: nat)
      requires Valid() && Holds(buffer, count) && s < input.rows && width == W(count)
      ensures Row(buffer, width, s) == Level(s, count)
    {
      assert RowHolds(buffer, count, s);
    }

    lemma LevelAtEnd(s: nat)
      requires Valid() && s < input.rows
      ensures Fits(Net(s), input.cols) && Level(s, count) == Evaluate(mlp.m, Net(s), X(s))
    {
      NetFits(s);
      assert Net(s)[..count] == Net(s);
    }

    /** The last slot of a whole pass holds the evaluation of every sample's own network. */
    lemma LastRows(buffer: seq<real>)
      requires Valid() && count == |mlp.layers| && Holds(buffer, count)
      ensures EvaluatesSamples(mlp, input, rows, buffer)
    {
      forall s: nat | s < input.rows ensures EvaluatesSample(mlp, input, rows, buffer, s) {
        LastLevel(buffer, s);
        NetIsNetwork(s);
        assert Net(s) == rows.Network(mlp.layers, s);
      }
    }

    /** When the tables hold, type by type, the products of the first weight with two further segments of the input, an
        indexed pass evaluates the whole network on the input extended by the segments of its edge's types. */
    lemma IndexedPassEvaluatesSegments(buffer: seq<real>, s: nat, sourceType: int, targetType: int,
                                       y: seq<real>, z: seq<real>, offset: nat)
      requires Valid() && count == |mlp.layers| && Holds(buffer, count) && s < input.rows && rows.Indexed?
      requires mlp.layers[0].Linear? && offset == input.cols + |y| && offset + |z| == mlp.layers[0].inputs
      requires rows.EdgeInTables(input.rows, mlp.layers[0].outputs, s)
      requires sourceType == rows.sourceEdgeTypes[rows.firstEdge + s]
      requires targetType == rows.nodeTypes[rows.targetNodeIndices[rows.firstEdge + s]]
      requires Row(rows.sourceTable.data, mlp.layers[0].outputs, sourceType)
            == Contribution(mlp.layers[0], input.cols, y)
      requires Row(rows.targetTable.data, mlp.layers[0].outputs, targetType) == Contribution(mlp.layers[0], offset, z)
      ensures Fits(mlp.layers, mlp.layers[0].inputs)
      ensures Row(buffer, mlp.layers[count - 1].OutputSize(), s)
           == Evaluate(mlp.m, mlp.layers, Row(input.data, input.cols, s) + y + z)
    {
      SegmentNet(s, sourceType, targetType, Contribution(mlp.layers[0], input.cols, y),
                 Contribution(mlp.layers[0], offset, z));
      LastLevel(buffer, s);
      SegmentsEvaluate(mlp, Net(s), X(s), y, z, offset);
    }

    lemma SegmentNet(s: nat, sourceType: int, targetType: int, first: seq<real>, second: seq<real>)
      requires Valid() && count == |mlp.layers| && s < input.rows && rows.Indexed? && mlp.layers[0].Linear?
      requires rows.EdgeInTables(input.rows, mlp.layers[0].outputs, s)
      requires sourceType == rows.sourceEdgeTypes[rows.firstEdge + s]
      requires targetType == rows.nodeTypes[rows.targetNodeIndices[rows.firstEdge + s]]
      requires Row(rows.sourceTable.data, mlp.layers[0].outputs, sourceType) == first
      requires Row(rows.targetTable.data, mlp.layers[0].outputs, targetType) == second
      requires |first| == |second| == |mlp.layers[0].bias|
      ensures Net(s)[..count] == Net(s) == Conditioned(mlp.layers, first, second)
    {
      assert Net(s)[0].bias == Conditioned(mlp.layers, first, second)[0].bias;
    }

    /** Adjoint of sample s in front of layer k, for output adjoint w. */
    ghost function Pulled(s: nat, k: nat, w: seq<real>): seq<real>
      requires Valid() && s < input.rows && k <= count && |w| == W(count)
    {
      NetFits(s);
      LevelSize(s, k);
      PrefixFits(Net(s), input.cols, k);
      Gradient(mlp.m, Net(s)[k..], Level(s, k), w)
    }

    lemma PulledStep(s: nat, k: nat, w: seq<real>)
      requires Valid() && s < input.rows && k < count && |w| == W(count)
      ensures Net(s)[k].Valid() && Net(s)[k].Accepts(|Level(s, k)|) && |Pulled(s, k + 1, w)| == Net(s)[k].OutputSize()
      ensures Pulled(s, k, w) == PullBack(mlp.m, Net(s)[k], Level(s, k), Pulled(s, k + 1, w))
    {
      LevelStep(s, k);
      NetFits(s);
      PrefixFits(Net(s), input.cols, k);
      SuffixGradient(mlp.m, Net(s), k, Level(s, k), w);
    }

    /** At the top the adjoint is w, at the bottom it is the gradient of the sample's network. */
    lemma PulledEnds(s: nat, w: seq<real>)
      requires Valid() && s < input.rows && |w| == W(count)
      ensures Pulled(s, count, w) == w
      ensures Fits(Net(s), input.cols) && Width(Net(s), input.cols) == |w|
      ensures Pulled(s, 0, w) == Gradient(mlp.m, Net(s), X(s), w)
    {
      NetFits(s);
      assert Net(s)[count..] == [] && Net(s)[0..] == Net(s) && Net(s)[..0] == [];
    }
  }

  lemma SegmentsEvaluate(mlp: AffineMLP, net: seq<Layer>, x: seq<real>, y: seq<real>, z: seq<real>, offset: nat)
    requires mlp.Valid() && mlp.layers[0].Linear? && 0 < |x| && |mlp.layers[0].bias| == mlp.layers[0].outputs
    requires offset == |x| + |y| && offset + |z| == mlp.layers[0].inputs
    requires net == Conditioned(mlp.layers, Contribution(mlp.layers[0], |x|, y), Contribution(mlp.layers[0], offset, z))
    ensures Fits(net, |x|) && Fits(mlp.layers, mlp.layers[0].inputs)
    ensures Evaluate(mlp.m, net, x) == Evaluate(mlp.m, mlp.layers, x + y + z)
  {
    ConditionedEvaluation(mlp.m, mlp.layers, x, y, z);
  }

  /** Row by row, the output is what each sample's own network makes of the sample. */
  ghost predicate EvaluatesSamples(mlp: AffineMLP, input: Matrix, rows: RowSource, output: seq<real>)
    requires mlp.Valid()
  {
    forall s: nat :: s < input.rows ==> EvaluatesSample(mlp, input, rows, output, s)
  }

  ghost predicate EvaluatesSample(mlp: AffineMLP, input: Matrix, rows: RowSource, output: seq<real>, s: nat)
    requires mlp.Valid()
  {
    && Fits(rows.Network(mlp.layers, s), input.cols)
    && Row(output, mlp.layers[|mlp.layers| - 1].OutputSize(), s)
       == Evaluate(mlp.m, rows.Network(mlp.layers, s), Row(input.data, input.cols, s))
  }

  /** data holds, row by row, the gradient of each sample's network for the adjoint rows of top. */
  ghost predicate HoldsGradients(run: ForwardRun, top: Matrix, data: seq<real>)
    requires run.Valid() && top.Valid() && top.rows == run.input.rows && top.cols == run.W(run.count)
  {
    |data| == run.input.rows * run.input.cols && forall s: nat :: s < run.input.rows ==> GradientRow(run, top, data, s)
  }

  ghost predicate GradientRow(run: ForwardRun, top: Matrix, data: seq<real>, s: nat)
    requires run.Valid() && top.cols == run.W(run.count) && s < run.input.rows
  {
    && Fits(run.Net(s), |run.X(s)|) && Width(run.Net(s), |run.X(s)|) == top.cols
    && Row(data, run.input.cols, s) == Gradient(run.mlp.m, run.Net(s), run.X(s), Row(top.data, top.cols, s))
  }

  lemma AdjointsAreGradients(run: ForwardRun, top: Matrix, data: seq<real>)
    requires run.Valid() && top.Valid() && top.rows == run.input.rows && top.cols == run.W(run.count)
    requires AdjointsAt(run, 0, data, top)
    ensures HoldsGradients(run, top, data)
  {
    forall s: nat | s < run.input.rows ensures GradientRow(run, top, data, s) {
      assert AdjointRow(run, 0, data, top, s);
      run.PulledEnds(s, Row(top.data, run.W(run.count), s));
    }
  }

  // ---------------------------------------------------------------- splitting off the final linear layer

  /** For two or more layers, final weight times prefix plus final bias is the whole evaluation. */
  lemma FinalLinearSplit(run: ForwardRun, s: nat, row: nat)
    requires run.Valid() && run.count == |run.mlp.layers| >= 2 && run.mlp.layers[run.count - 1].Linear?
    requires s < run.input.rows && row < run.W(run.count)
    ensures var final, prefix := run.mlp.layers[run.count - 1], run.(count := run.count - 1);
            && prefix.Valid() && |run.Level(s, run.count)| == run.W(run.count) == |final.bias|
            && run.Level(s, run.count)[row]
               == final.bias[row]
                  + Applied(prefix.W(prefix.count), WeightMatrix(final), Entries(prefix.Level(s, prefix.count)))(row)
  {
    var k := run.count - 1;
    var prefix := run.(count := k);
    run.LevelStep(s, k);
    run.NetFits(s);
    run.LevelSize(s, run.count);
    assert prefix.Net(s) == run.Net(s)[..k];
    assert prefix.Net(s)[..k] == run.Net(s)[..k];
    StageFed(run, k);
  }

  /** With a single layer the prefix is the input itself, and the row contributions still have to be added. */
  lemma IdentityPrefixSplit(run: ForwardRun, s: nat, row: nat)
    requires run.Valid() && run.count == |run.mlp.layers| == 1 && !run.rows.NoRows?
    requires s < run.input.rows && row < run.W(1)
    ensures var final := run.mlp.layers[0];
            && final.Linear? && |run.Level(s, 1)| == run.W(1) == |final.bias|
            && run.Level(s, 1)[row]
               == final.bias[row] + run.rows.Contribution(run.W(1), run.input.rows, s)[row]
                  + Applied(run.input.cols, WeightMatrix(final), Entries(run.X(s)))(row)
  {
    run.LevelStep(s, 0);
    run.NetFits(s);
    run.LevelSize(s, 1);
    assert run.Net(s)[..0] == [];
    assert WeightMatrix(run.Net(s)[0]) == WeightMatrix(run.mlp.layers[0]);
    StageFed(run, 0);
  }

  lemma PrefixFits(net: seq<Layer>, n: nat, k: nat)
    requires Fits(net, n) && k <= |net|
    ensures Fits(net[..k], n) && Fits(net[k..], Width(net[..k], n))
    ensures Width(net[k..], Width(net[..k], n)) == Width(net, n)
  {
    assert net == net[..k] + net[k..];
    FitsAppend(net[..k], net[k..], n);
  }

  // ---------------------------------------------------------------- one stage of a pass, slot to slot

  /** The contributions of every sample, row-major; zero for layers after the first. */
  method GatherContributions(run: ForwardRun, k: nat) returns (flat: seq<real>)
    requires run.Shaped() && k < run.count && run.mlp.layers[k].Linear?
    ensures |flat| == run.Size(k + 1)
    ensures forall s: nat :: s < run.input.rows ==> ContributionHolds(run, k, flat, s)
  {
    var n := run.W(k + 1);
    ProductNonNegative(run.input.rows, n);
    flat := [];
    for t := 0 to run.input.rows * n
      invariant |flat| == t
      invariant forall u :: 0 <= u < t ==>
                  flat[u] == if k == 0 then EntryOf(run, n, u / n, u % n) else 0.0
    {
      FlatDecoded(t, run.input.rows, n);
      flat := flat + [if k == 0 then EntryOf(run, n, t / n, t % n) else 0.0];
    }
    forall s: nat | s < run.input.rows
      ensures ContributionHolds(run, k, flat, s)
    {
      forall j | 0 <= j < n
        ensures Row(flat, n, s)[j] == if k == 0 then run.rows.Contribution(n, run.input.rows, s)[j] else 0.0
      {
        RowEntry(flat, run.input.rows, n, s, j);
        OffsetDecoded(s, n, j);
      }
    }
  }

  /** Row s of the flat contributions is what the run adds to layer k for sample s. */
  ghost predicate ContributionHolds(run: ForwardRun, k: nat, flat: seq<real>, s: nat)
    requires run.Shaped() && k < run.count && s < run.input.rows
  {
    Row(flat, run.W(k + 1), s)
    == if k == 0 then run.rows.Contribution(run.W(1), run.input.rows, s) else Zeros(run.W(k + 1))
  }

  function EntryOf(run: ForwardRun, n: nat, s: int, j: int): real
    requires run.rows.DimensionsOk(run.input.rows, n) && run.rows.WellFormed(run.input.rows, n)
  {
    if 0 <= s < run.input.rows && 0 <= j < n then run.rows.Contribution(n, run.input.rows, s)[j] else 0.0
  }

  /** The two kernels of a linear layer; the compact weight is used for a conditioned first layer only. */
  method LinearRows(run: ForwardRun, k: nat, source: seq<real>, compact: Matrix, contributions: seq<real>)
    returns (ok: bool, target: seq<real>)
    requires run.Shaped() && k < run.count && run.mlp.layers[k].Linear? && (k > 0 ==> run.Valid())
    requires |source| == run.Size(k) && |contributions| == run.Size(k + 1)
    requires k == 0 && !run.rows.NoRows? ==>
               compact.Valid() && IsLeadingView(run.mlp.layers[0], run.input.cols, compact)
    ensures ok <==> run.Valid()
    ensures ok ==> |target| == run.Size(k + 1)
    ensures ok ==> forall s :: 0 <= s < run.input.rows ==> LinearRowHolds(run, k, source, contributions, target, s)
  {
    var layer := run.mlp.layers[k];
    StageFed(run, k);
    if run.input.rows > 4 {
      var weight := if k == 0 && !run.rows.NoRows? then compact else FullWeight(layer);
      ok, target := GemmLinear(layer, source, run.input.rows, run.W(k), weight, contributions);
    } else {
      target := SmallLinear(layer, source, run.input.rows, run.W(k), contributions);
      ok := true;
    }
  }

  ghost predicate LinearRowHolds(run: ForwardRun, k: nat, source: seq<real>, contributions: seq<real>,
                                 target: seq<real>,
                                 s: int)
    requires run.Shaped() && k < run.count && run.mlp.layers[k].Linear?
  {
    && run.mlp.layers[k].Valid()
    && IsLinearRow(run.mlp.layers[k], Row(source, run.W(k), s), Row(contributions, run.W(k + 1), s),
                   Row(target, run.W(k + 1), s))
  }

  /** A linear layer of the run, by either kernel. The first layer is refused when its product is. */
  method LinearStage(run: ForwardRun, k: nat, source: seq<real>, compact: Matrix) returns (ok: bool, target: seq<real>)
    requires run.Shaped() && k < run.count && run.mlp.layers[k].Linear? && (k > 0 ==> run.Valid())
    requires |source| == run.Size(k) && (run.Valid() ==> run.Holds(source, k))
    requires k == 0 && !run.rows.NoRows? ==>
               compact.Valid() && IsLeadingView(run.mlp.layers[0], run.input.cols, compact)
    ensures ok <==> run.Valid()
    ensures ok ==> run.Holds(target, k + 1)
  {
    var contributions := GatherContributions(run, k);
    ok, target := LinearRows(run, k, source, compact, contributions);
    if ok {
      ghost var next := k + 1;
      assert |target| == run.Size(next);
      forall s: nat | s < run.input.rows
        ensures run.RowHolds(target, next, s)
      {
        LinearStageRow(run, k, s, source, contributions, target);
      }
    }
  }

  lemma LinearStageRow(run: ForwardRun, k: nat, s: nat, source: seq<real>, contributions: seq<real>, target: seq<real>)
    requires run.Valid() && k < run.count && run.mlp.layers[k].Linear?
    requires s < run.input.rows && run.Holds(source, k)
    requires ContributionHolds(run, k, contributions, s) && LinearRowHolds(run, k, source, contributions, target, s)
    ensures run.RowHolds(target, k + 1, s)
  {
    assert run.RowHolds(source, k, s);
    LinearLevel(run, k, s, Row(contributions, run.W(k + 1), s), Row(target, run.W(k + 1), s));
  }

  /** Layer k is fed rows of exactly its own size, or its leading columns when it is a first linear layer. */
  lemma StageFed(run: ForwardRun, k: nat)
    requires run.Shaped() && k < run.count
    ensures run.mlp.layers[k].Valid() && run.mlp.layers[k].Accepts(run.W(k))
    ensures k > 0 || (run.rows.NoRows? && run.input.cols == run.mlp.InputSize()) || !run.mlp.layers[0].Linear? ==>
              run.W(k) == run.mlp.layers[k].InputSize()
    ensures k > 0 ==> run.W(k) == run.mlp.layers[k].InputSize()
  {
    assert k > 0 ==> run.mlp.Linked(k);
    LayerAccepts(run.mlp.layers, run.mlp.layers[0].InputSize(), k);
  }

  /** Net layer k, for a linear layer: the same weight, with row contributions in the first bias. */
  lemma LinearNetLayer(run: ForwardRun, k: nat, s: nat)
    requires run.Valid() && k < run.count && run.mlp.layers[k].Linear? && s < run.input.rows
    ensures run.mlp.layers[k].Valid() && run.Net(s)[k].Linear? && run.Net(s)[k].outputs == run.mlp.layers[k].outputs
    ensures |run.Net(s)[k].bias| == |run.mlp.layers[k].bias| == run.mlp.layers[k].outputs == run.W(k + 1)
    ensures var extra := if k == 0 then run.rows.Contribution(run.W(1), run.input.rows, s) else Zeros(run.W(k + 1));
            forall j :: 0 <= j < |extra| ==> run.Net(s)[k].bias[j] == run.mlp.layers[k].bias[j] + extra[j]
    ensures WeightMatrix(run.Net(s)[k]) == WeightMatrix(run.mlp.layers[k])
  {
    StageFed(run, k);
    run.NetFits(s);
  }

  lemma LinearLevel(run: ForwardRun, k: nat, s: nat, contribution: seq<real>, y: seq<real>)
    requires run.Valid() && k < run.count && run.mlp.layers[k].Linear? && run.mlp.layers[k].Valid()
    requires s < run.input.rows
    requires |y| == |contribution| == run.W(k + 1)
    requires contribution == if k == 0 then run.rows.Contribution(run.W(1), run.input.rows, s) else Zeros(run.W(k + 1))
    requires IsLinearRow(run.mlp.layers[k], run.Level(s, k), contribution, y)
    ensures y == run.Level(s, k + 1)
  {
    run.LevelStep(s, k);
    LinearNetLayer(run, k, s);
    EffectiveRow(run.mlp.m, run.mlp.layers[k], run.Net(s)[k], run.Level(s, k), contribution, y);
  }

  /** A linear row with its contribution is the plain row of the layer that has the contribution in its bias. */
  lemma EffectiveRow(m: Elementary, layer: Layer, eff: Layer, x: seq<real>, contribution: seq<real>, y: seq<real>)
    requires m.Valid() && layer.Linear? && layer.Valid() && |contribution| == |y| == layer.outputs
    requires eff.Linear? && eff.Valid() && eff.Accepts(|x|) && eff.outputs == layer.outputs
    requires WeightMatrix(eff) == WeightMatrix(layer)
    requires forall j :: 0 <= j < layer.outputs ==> eff.bias[j] == layer.bias[j] + contribution[j]
    requires IsLinearRow(layer, x, contribution, y)
    ensures y == Forward(m, eff, x)
  {
  }

  /** An unfused normalisation or activation of the run. */
  method PointwiseStage(run: ForwardRun, k: nat, source: seq<real>, stale: seq<real>) returns (target: seq<real>)
    requires run.Valid() && k < run.count && !run.mlp.layers[k].Linear?
    requires |stale| == run.Size(k + 1)
    requires run.Holds(source, k)
    ensures run.Holds(target, k + 1)
  {
    var layer := run.mlp.layers[k];
    StageFed(run, k);
    if layer.LayerNorm? {
      target := BatchNorm(run.mlp.m, layer, source, run.input.rows, stale);
    } else {
      target := BatchSilu(run.mlp.m, layer, source, run.input.rows, stale);
    }
    ghost var next := k + 1;
    forall s: nat | s < run.input.rows
      ensures run.RowHolds(target, next, s)
    {
      assert run.RowHolds(source, k, s);
      run.LevelStep(s, k);
      NetLayer(run, s, k);
    }
  }

  /** Every layer but a conditioned first one is the network's own. */
  lemma NetLayer(run: ForwardRun, s: nat, k: nat)
    requires run.Valid() && s < run.input.rows && k < run.count && !run.mlp.layers[k].Linear?
    ensures run.Net(s)[k] == run.mlp.layers[k]
  {
    run.NetFits(s);
  }

  /** A fused pair of the run: two layers on, with nothing stored in between. */
  method FusedStage(run: ForwardRun, k: nat, source: seq<real>, stale: seq<real>) returns (target: seq<real>)
    requires run.Valid() && k + 1 < run.count && run.mlp.layers[k].LayerNorm? && run.mlp.layers[k + 1].SiLU?
    requires |stale| == run.Size(k + 2)
    requires run.Holds(source, k)
    ensures run.Holds(target, k + 2)
  {
    StageFed(run, k);
    StageFed(run, k + 1);
    target := FusedNormSilu(run.mlp.m, run.mlp.layers[k], run.mlp.layers[k + 1], source, run.input.rows, stale);
    ghost var next := k + 2;
    forall s: nat | s < run.input.rows
      ensures run.RowHolds(target, next, s)
    {
      assert run.RowHolds(source, k, s);
      run.LevelStep(s, k);
      run.LevelStep(s, k + 1);
      NetLayer(run, s, k);
      NetLayer(run, s, k + 1);
    }
  }

  /** Every row of the buffer is its sample's adjoint in front of layer k. */
  ghost predicate AdjointsAt(run: ForwardRun, k: nat, buffer: seq<real>, top: Matrix)
    requires run.Valid() && k <= run.count && top.Valid() && top.rows == run.input.rows && top.cols == run.W(run.count)
  {
    |buffer| == run.Size(k) && forall s: nat :: s < run.input.rows ==> AdjointRow(run, k, buffer, top, s)
  }

  ghost predicate AdjointRow(run: ForwardRun, k: nat, buffer: seq<real>, top: Matrix, s: nat)
    requires run.Valid() && k <= run.count && top.Valid() && top.rows == run.input.rows && top.cols == run.W(run.count)
    requires s < run.input.rows
  {
    Row(buffer, run.W(k), s) == run.Pulled(s, k, Row(top.data, run.W(run.count), s))
  }

  /** The reverse of a linear layer. The compact weight is consulted only for batches above four, and only on a first
      layer that was fed its leading columns; the product with it is refused when it has another number of columns. */
  method LinearStageReverse(ghost run: ForwardRun, mlp: AffineMLP, samples: nat, columns: nat, k: nat,
                            adjoint: seq<real>, compact: Matrix, ghost top: Matrix) returns (ok: bool, r: seq<real>)
    requires run.Valid() && run.mlp == mlp && run.input.rows == samples && run.input.cols == columns
    requires k < run.count && mlp.layers[k].Linear?
    requires top.Valid() && top.rows == samples && top.cols == run.W(run.count)
    requires AdjointsAt(run, k + 1, adjoint, top)
    requires compact.Valid() && (k == 0 && compact.cols == columns ==> IsLeadingView(mlp.layers[0], columns, compact))
    ensures ok <==> !(k == 0 && samples > 4 && columns < mlp.InputSize() && compact.cols != columns)
    ensures ok ==> AdjointsAt(run, k, r, top)
  {
    var layer := mlp.layers[k];
    var active := RowWidth(mlp.layers, columns, k);
    StageFed(run, k);
    if samples > 4 {
      var weight := if k == 0 && columns < mlp.InputSize() then compact else FullWeight(layer);
      ok, r := GemmLinearReverse(layer, adjoint, samples, active, weight);
    } else {
      r := SmallLinearReverse(layer, adjoint, samples, active);
      ok := true;
    }
    if ok {
      forall s: nat | s < run.input.rows
        ensures AdjointRow(run, k, r, top, s)
      {
        assert AdjointRow(run, k + 1, adjoint, top, s);
        LinearPulled(run, k, s, Row(adjoint, run.W(k + 1), s), Row(r, run.W(k), s), Row(top.data, run.W(run.count), s));
      }
    }
  }

  lemma LinearPulled(run: ForwardRun, k: nat, s: nat, adjoint: seq<real>, r: seq<real>, w: seq<real>)
    requires run.Valid() && k < run.count && run.mlp.layers[k].Linear? && s < run.input.rows
    requires run.mlp.layers[k].Valid() && |w| == run.W(run.count) && |r| == run.W(k)
    requires adjoint == run.Pulled(s, k + 1, w)
    requires forall j :: 0 <= j < |r| ==>
               r[j] == Pulled(run.mlp.layers[k].outputs, WeightMatrix(run.mlp.layers[k]), Entries(adjoint))(j)
    ensures r == run.Pulled(s, k, w)
  {
    run.PulledStep(s, k, w);
    run.LevelStep(s, k);
    LinearNetLayer(run, k, s);
  }

  method PointwiseStageReverse(ghost run: ForwardRun, mlp: AffineMLP, samples: nat, ghost columns: nat, k: nat,
                               source: seq<real>, adjoint: seq<real>, stale: seq<real>, ghost top: Matrix)
    returns (r: seq<real>)
    requires run.Valid() && run.mlp == mlp && run.input.rows == samples && run.input.cols == columns
    requires k < run.count && !mlp.layers[k].Linear?
    requires |stale| == run.Size(k) && run.Holds(source, k)
    requires top.Valid() && top.rows == samples && top.cols == run.W(run.count)
    requires AdjointsAt(run, k + 1, adjoint, top)
    ensures AdjointsAt(run, k, r, top)
  {
    var layer := mlp.layers[k];
    StageFed(run, k);
    if layer.LayerNorm? {
      r := BatchNormReverse(mlp.m, layer, source, adjoint, samples, stale);
    } else {
      r := BatchSiluReverse(mlp.m, layer, source, adjoint, samples, stale);
    }
    forall s: nat | s < run.input.rows
      ensures AdjointRow(run, k, r, top, s)
    {
      assert run.RowHolds(source, k, s) && AdjointRow(run, k + 1, adjoint, top, s);
      run.PulledStep(s, k, Row(top.data, run.W(run.count), s));
      NetLayer(run, s, k);
    }
  }

  /** The reverse of a fused pair reads the values in front of the pair only. */
  method FusedStageReverse(ghost run: ForwardRun, mlp: AffineMLP, samples: nat, ghost columns: nat, k: nat,
                           source: seq<real>, adjoint: seq<real>, stale: seq<real>, ghost top: Matrix)
    returns (r: seq<real>)
    requires run.Valid() && run.mlp == mlp && run.input.rows == samples && run.input.cols == columns
    requires k + 1 < run.count && mlp.layers[k].LayerNorm? && mlp.layers[k + 1].SiLU?
    requires |stale| == run.Size(k) && run.Holds(source, k)
    requires top.Valid() && top.rows == samples && top.cols == run.W(run.count)
    requires AdjointsAt(run, k + 2, adjoint, top)
    ensures AdjointsAt(run, k, r, top)
  {
    StageFed(run, k);
    StageFed(run, k + 1);
    r := FusedNormSiluReverse(mlp.m, mlp.layers[k], mlp.layers[k + 1], source, adjoint, samples, stale);
    forall s: nat | s < run.input.rows
      ensures AdjointRow(run, k, r, top, s)
    {
      var w := Row(top.data, run.W(run.count), s);
      assert run.RowHolds(source, k, s) && AdjointRow(run, k + 2, adjoint, top, s);
      run.LevelStep(s, k);
      run.PulledStep(s, k + 1, w);
      run.PulledStep(s, k, w);
      NetLayer(run, s, k);
      NetLayer(run, s, k + 1);
    }
  }
}
