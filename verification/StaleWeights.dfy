/** The one way a live tape can be refused: the compact weight was meanwhile prepared for another width. */
module StaleWeights {
  import opened Results
  import opened DenseKernels
  import opened DualNumbers
  import opened AffineLayers
  import opened AffineMlp
  import opened ArenaTapes
  import opened AffineMlpKokkosNetworks

  /** m holds the live tape of a whole pass over more than four conditioned samples, and adjoint fits it. */
  ghost predicate LiveBatch(m: AffineMlpKokkos, adjoint: Matrix)
    reads m, m.workspace, m.workspace.valueStorage
  {
    && m.Valid() && m.TapeIntact() && m.workspace.Separate() && m.workspace.owner == m
    && m.tapeBatchSize > 4 && m.tapeLayerCount == m.LayerCount() && m.mlp.SupportsConditionedInput(m.tapeInputSize)
    && adjoint.Valid() && adjoint.rows == m.tapeBatchSize
    && adjoint.cols == m.mlp.layers[m.LayerCount() - 1].OutputSize()
  }

  /** The weight is prepared for a width, and the tape reversed: that works exactly for the width of the tape. */
  method PrepareAndReverse(m: AffineMlpKokkos, width: nat, adjoint: Matrix)
    returns (result: Result<seq<real>, KokkosError>)
    requires LiveBatch(m, adjoint) && m.mlp.SupportsConditionedInput(width)
    modifies m`conditionedWeight, m`conditionedInputSize, m.workspace.adjointStorage
    ensures LiveBatch(m, adjoint)
    ensures result.Ok? <==> width == m.tapeInputSize
    ensures result.Err? ==> result == Err(WeightShapeMismatch)
  {
    var prepared := m.PrepareConditionedWeight(width);
    result := m.ReverseFromTape(adjoint, m.tapeBatchSize, m.tapeInputSize);
  }

  /** More than four samples are run with conditioned input, then the weight is prepared for another width. The
      product of the reverse pass over the still live tape is refused; preparing the recorded width again makes the
      same call succeed. */
  method PreparedForAnotherWidth(m: AffineMlpKokkos, input: Matrix, rows: RowSource, width: nat, adjoint: Matrix)
    returns (stale: Result<seq<real>, KokkosError>, restored: Result<seq<real>, KokkosError>)
    requires m.Valid() && m.TapeIntact() && m.workspace.Separate()
    requires input.Valid() && input.rows > 4 && !rows.NoRows?
    requires rows.WellFormed(input.rows, m.mlp.layers[0].OutputSize()) && m.AcceptsPass(input, rows)
    requires m.mlp.SupportsConditionedInput(width) && width != input.cols
    requires adjoint.Valid() && adjoint.rows == input.rows
    requires adjoint.cols == m.mlp.layers[m.LayerCount() - 1].OutputSize()
    modifies m, m.workspace, m.workspace.valueStorage, m.workspace.adjointStorage
    ensures stale == Err(WeightShapeMismatch) && restored.Ok?
  {
    var forward := m.EvaluateConditioned(input, rows);
    stale := PrepareAndReverse(m, width, adjoint);
    restored := PrepareAndReverse(m, input.cols, adjoint);
  }

  /** One linear layer with three inputs and one output. */
  function ThreeInputs(): (mlp: AffineMLP)
    ensures mlp.Valid()
  {
    var mlp := AffineMLP(Elementary(_ => 1.0, _ => 1.0), [Linear(3, 1, [1.0, 1.0, 1.0], [0.0])]);
    assert mlp.layers[1..] == [];
    mlp
  }

  /** A concrete case: a new network on a new workspace, five samples of width one, then the weight prepared for width
      two. */
  method ThreeInputCase() returns (stale: Result<seq<real>, KokkosError>)
    ensures stale == Err(WeightShapeMismatch)
  {
    var workspace := new Workspace();
    var m := new AffineMlpKokkos(ThreeInputs(), workspace);
    var five := Matrix(5, 1, [1.0, 1.0, 1.0, 1.0, 1.0]);
    var restored;
    stale, restored := PreparedForAnotherWidth(m, five, RowTable(five), 2, five);
  }
}
