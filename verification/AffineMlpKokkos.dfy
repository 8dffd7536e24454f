/** The network that records its tape in an arena shared with other networks (affine_mlp_kokkos.cpp). A generation
    counter in the workspace tells a network whether the arena still holds its own tape. */
module AffineMlpKokkosNetworks {
  import opened Results
  import opened FlatIndex
  import opened DenseKernels
  import opened AffineMlp
  import opened AffineKernels
  import opened ArenaTapes

  datatype KokkosError = TapeInvalidated | InvalidDimensions | NotFactorable | NullWorkspace | WeightShapeMismatch

  /** An unmanaged view: where a slot was when the view was made. */
  datatype TapeView = TapeView(storage: array?<real>, offset: nat, rows: nat, cols: nat)

  ghost function Content(a: array?<real>): seq<real>
    reads a
  {
    if a == null then [] else a[..]
  }

  class Workspace {
    var valueStorage: array?<real>
    var adjointStorage: array?<real>
    var rows: nat
    var generation: nat
    /** The network whose tape the arena holds, if any. */
    ghost var owner: AffineMlpKokkos?

    constructor ()
      ensures valueStorage == null && adjointStorage == null && rows == 0 && generation == 0 && owner == null
    {
      valueStorage, adjointStorage, rows, generation, owner := null, null, 0, 0, null;
    }

    ghost predicate Separate()
      reads this`valueStorage, this`adjointStorage
    {
      valueStorage != null ==> valueStorage != adjointStorage
    }

    method Clear()
      modifies this
      ensures valueStorage == null && adjointStorage == null && rows == 0
      ensures generation == old(generation) + 1 && owner == null
    {
      valueStorage, adjointStorage := null, null;
      rows := 0;
      generation := generation + 1;
      owner := null;
    }
  }

  class AffineMlpKokkos {
    const mlp: AffineMLP
    var workspace: Workspace
    var values: seq<TapeView>
    var adjoints: seq<TapeView>
    var conditionedWeight: Matrix
    var conditionedInputSize: int
    var tapeBatchSize: int
    var tapeInputSize: int
    var tapeLayerCount: int
    var tapeWorkspaceGeneration: nat
    /** The latest forward pass this network has run. */
    ghost var run: ForwardRun

    function LayerCount(): nat { |mlp.layers| }

    /** A recorded pass whose workspace has not moved on. */
    ghost predicate Live()
      reads this, workspace
    {
      tapeBatchSize >= 0 && tapeLayerCount >= 1 && tapeWorkspaceGeneration == workspace.generation
    }

    /** The cached compact weight, if any, is the leading columns of the first weight. */
    ghost predicate CacheValid()
      reads this
      requires mlp.layers != []
    {
      && conditionedWeight.Valid()
      && if conditionedInputSize == -1 then conditionedWeight == Matrix(0, 0, []) else
           && conditionedInputSize >= 0 && mlp.SupportsConditionedInput(conditionedInputSize)
           && IsLeadingView(mlp.layers[0], conditionedInputSize, conditionedWeight)
    }

    ghost predicate Valid()
      reads this, workspace
    {
      && mlp.Valid() && CacheValid()
      && |values| == |adjoints| == LayerCount() + 1
      && tapeWorkspaceGeneration <= workspace.generation
      && tapeLayerCount >= -1 && (tapeBatchSize >= 0 <==> tapeLayerCount >= 0)
      && (tapeLayerCount >= 0 ==> tapeInputSize >= 0)
      && (tapeLayerCount == 0 ==> LayerCount() == 1)
      && (Live() <==> workspace.owner == this)
    }

    /** Views, arena and the recorded pass agree: every slot a fused pass writes holds that pass's own values. */
    ghost predicate TapeIntact()
      reads this, workspace, workspace.valueStorage
      requires Valid()
    {
      Live() ==>
        && run.Valid() && run.mlp == mlp
        && run.input.rows == tapeBatchSize && run.input.cols == tapeInputSize && run.count == tapeLayerCount
        && TapeStored(run)
    }

    /** The arena holds the tape of r where the views say. */
    ghost predicate TapeStored(r: ForwardRun)
      reads this`values, this`adjoints, this`workspace, workspace`valueStorage, workspace`adjointStorage,
            workspace.valueStorage
      requires r.Valid()
    {
      && LaidOut(r, workspace.valueStorage, workspace.adjointStorage)
      && |Content(workspace.valueStorage)| >= r.Base(r.count + 1)
      && StorageLength(workspace.adjointStorage) >= r.Base(r.count + 1)
      && r.TapeHolds(Content(workspace.valueStorage), r.count)
    }

    static function StorageLength(a: array?<real>): nat {
      if a == null then 0 else a.Length
    }

    /** The first count + 1 views tile the two arenas. */
    ghost predicate LaidOut(r: ForwardRun, valueArena: array?<real>, adjointArena: array?<real>)
      reads this`values, this`adjoints
      requires r.count <= |r.mlp.layers|
    {
      && |values| > r.count && |adjoints| > r.count
      && forall k: nat :: k <= r.count ==>
           && values[k] == TapeView(valueArena, r.Base(k), r.input.rows, r.W(k))
           && adjoints[k] == TapeView(adjointArena, r.Base(k), r.input.rows, r.W(k))
    }

    constructor (mlp: AffineMLP, workspace: Workspace)
      requires mlp.Valid() && workspace.owner == null
      ensures Valid() && TapeIntact() && !Live()
      ensures this.mlp == mlp && this.workspace == workspace && conditionedInputSize == -1
    {
      this.mlp, this.workspace := mlp, workspace;
      var empty := TapeView(null, 0, 0, 0);
      values, adjoints := seq(|mlp.layers| + 1, _ => empty), seq(|mlp.layers| + 1, _ => empty);
      conditionedWeight, conditionedInputSize := Matrix(0, 0, []), -1;
      tapeBatchSize, tapeInputSize, tapeLayerCount, tapeWorkspaceGeneration := -1, -1, -1, 0;
    }

    // -------------------------------------------------------------- slots

    method ReadSlot(view: TapeView) returns (data: seq<real>)
      requires view.rows * view.cols >= 0
      requires view.storage != null ==> view.offset + view.rows * view.cols <= view.storage.Length
      requires view.storage == null ==> view.rows * view.cols == 0
      ensures |data| == view.rows * view.cols
      ensures view.storage != null ==> data == view.storage[view.offset..view.offset + view.rows * view.cols]
    {
      data := if view.storage == null then [] else view.storage[view.offset..view.offset + view.rows * view.cols];
    }

    /** Stores a whole slot; nothing outside it changes. */
    method WriteSlot(view: TapeView, data: seq<real>)
      requires |data| == view.rows * view.cols
      requires view.storage != null ==> view.offset + |data| <= view.storage.Length
      requires view.storage == null ==> data == []
      modifies view.storage
      ensures view.storage != null ==>
                view.storage[..] == old(view.storage[..view.offset]) + data + old(view.storage[view.offset + |data|..])
    {
      if view.storage != null {
        var a := view.storage;
        for i := 0 to |data|
          invariant a[..view.offset] == old(a[..view.offset])
          invariant a[view.offset..view.offset + i] == data[..i]
          invariant a[view.offset + |data|..] == old(a[view.offset + |data|..])
        {
          a[view.offset + i] := data[i];
        }
        assert a[..] == a[..view.offset] + a[view.offset..view.offset + |data|] + a[view.offset + |data|..];
      }
    }

    // -------------------------------------------------------------- preparing a pass

    /** Number of entries a pass needs in each arena. */
    method RequiredEntries(ghost r: ForwardRun, batchSize: nat, activeInputSize: nat, layerCount: nat)
      returns (required: nat)
      requires r.mlp == mlp && r.input.rows == batchSize && r.input.cols == activeInputSize
      requires layerCount <= LayerCount()
      ensures required == r.Base(layerCount + 1)
    {
      ProductNonNegative(batchSize, activeInputSize);
      required := batchSize * activeInputSize;
      assert r.Size(0) == required && r.Base(1) == required;
      for layer := 0 to layerCount
        invariant required == r.Base(layer + 1)
      {
        var width := mlp.layers[layer].OutputSize();
        ProductNonNegative(batchSize, width);
        assert r.Size(layer + 1) == batchSize * width;
        required := required + batchSize * width;
      }
    }

    /** The first k views are where the pass wants them. */
    ghost predicate LaidOutUpTo(r: ForwardRun, valueArena: array?<real>, adjointArena: array?<real>, k: nat)
      reads this`values, this`adjoints
      requires k <= |r.mlp.layers| + 1
    {
      && k <= |values| && k <= |adjoints|
      && forall j: nat :: j < k ==>
           && values[j] == TapeView(valueArena, r.Base(j), r.input.rows, r.W(j))
           && adjoints[j] == TapeView(adjointArena, r.Base(j), r.input.rows, r.W(j))
    }

    /** Points views k at the next slot. */
    method LayOutSlot(ghost r: ForwardRun, batchSize: nat, width: nat, k: nat, offset: nat, valueBase: array?<real>,
                      adjointBase: array?<real>)
      returns (next: nat)
      requires r.mlp == mlp && r.input.rows == batchSize && k <= LayerCount() && width == r.W(k) && offset == r.Base(k)
      requires |values| == |adjoints| == LayerCount() + 1 && LaidOutUpTo(r, valueBase, adjointBase, k)
      modifies this`values, this`adjoints
      ensures |values| == |adjoints| == LayerCount() + 1 && LaidOutUpTo(r, valueBase, adjointBase, k + 1)
      ensures next == r.Base(k + 1)
    {
      values := values[k := TapeView(valueBase, offset, batchSize, width)];
      adjoints := adjoints[k := TapeView(adjointBase, offset, batchSize, width)];
      ProductNonNegative(batchSize, width);
      next := offset + batchSize * width;
      assert r.Size(k) == batchSize * width;
    }

    /** Points the views at their slots. */
    method LayOut(ghost r: ForwardRun, batchSize: nat, activeInputSize: nat, layerCount: nat,
                  valueBase: array?<real>, adjointBase: array?<real>)
      requires r.mlp == mlp && r.count == layerCount && r.input.rows == batchSize && r.input.cols == activeInputSize
      requires 1 <= layerCount <= LayerCount() && |values| == |adjoints| == LayerCount() + 1
      modifies this`values, this`adjoints
      ensures |values| == |adjoints| == LayerCount() + 1 && LaidOut(r, valueBase, adjointBase)
    {
      var offset := LayOutSlot(r, batchSize, activeInputSize, 0, 0, valueBase, adjointBase);
      for layer := 0 to layerCount
        invariant |values| == |adjoints| == LayerCount() + 1 && offset == r.Base(layer + 1)
        invariant LaidOutUpTo(r, valueBase, adjointBase, layer + 1)
      {
        offset := LayOutSlot(r, batchSize, mlp.layers[layer].OutputSize(), layer + 1, offset, valueBase, adjointBase);
      }
    }

    /** Grows the arena if needed, starts a new generation and lays the slots out. */
    method Prepare(ghost r: ForwardRun, batchSize: nat, activeInputSize: nat, layerCount: nat)
      requires r.mlp == mlp && r.count == layerCount && r.input.rows == batchSize && r.input.cols == activeInputSize
      requires 1 <= layerCount <= LayerCount() && |values| == |adjoints| == LayerCount() + 1
      requires workspace.Separate()
      modifies this`values, this`adjoints, workspace
      ensures |values| == |adjoints| == LayerCount() + 1 && workspace.Separate()
      ensures workspace.generation == old(workspace.generation) + 1 && workspace.owner == null
      ensures workspace.valueStorage == old(workspace.valueStorage) || fresh(workspace.valueStorage)
      ensures workspace.adjointStorage == old(workspace.adjointStorage) || fresh(workspace.adjointStorage)
      ensures StorageLength(workspace.valueStorage) >= r.Base(layerCount + 1)
      ensures StorageLength(workspace.adjointStorage) >= r.Base(layerCount + 1)
      ensures workspace.rows == if old(workspace.rows) < batchSize then batchSize else old(workspace.rows)
      ensures LaidOut(r, workspace.valueStorage, workspace.adjointStorage)
    {
      var required := RequiredEntries(r, batchSize, activeInputSize, layerCount);
      var growValues := StorageLength(workspace.valueStorage) < required;
      var growAdjoints := StorageLength(workspace.adjointStorage) < required;
      if growValues {
        workspace.valueStorage := new real[required];
      }
      if growAdjoints {
        workspace.adjointStorage := new real[required];
      }
      workspace.rows := if workspace.rows < batchSize then batchSize else workspace.rows;
      workspace.generation := workspace.generation + 1;
      workspace.owner := null;
      LayOut(r, batchSize, activeInputSize, layerCount, workspace.valueStorage, workspace.adjointStorage);
    }

    /** Caches the leading columns of the first weight for one dynamic width. */
    method PrepareConditionedWeight(activeInputSize: int) returns (result: Result<(), KokkosError>)
      requires Valid()
      modifies this`conditionedWeight, this`conditionedInputSize
      ensures Valid()
      ensures result.Err? <==> conditionedInputSize != activeInputSize
      ensures result.Err? ==> unchanged(this)
      ensures old(conditionedInputSize) == activeInputSize ==> result.Ok? && unchanged(this)
      ensures result.Ok? <==> old(conditionedInputSize) == activeInputSize
                              || (activeInputSize >= 0 && mlp.SupportsConditionedInput(activeInputSize))
    {
      if conditionedInputSize == activeInputSize {
        return Ok(());
      }
      if activeInputSize < 0 || !mlp.SupportsConditionedInput(activeInputSize) {
        return Err(InvalidDimensions);
      }
      var compact := CompactWeight(mlp.layers[0], activeInputSize);
      conditionedWeight := Matrix(mlp.layers[0].outputs, activeInputSize, compact);
      conditionedInputSize := activeInputSize;
      result := Ok(());
    }

    // -------------------------------------------------------------- forward

    /** The run's slots are where the views say, in the current arena. */
    ghost predicate Ready(r: ForwardRun)
      reads this`values, this`adjoints, this`workspace, workspace`valueStorage, workspace`adjointStorage
    {
      && r.Shaped() && r.mlp == mlp && workspace.Separate()
      && LaidOut(r, workspace.valueStorage, workspace.adjointStorage)
      && StorageLength(workspace.valueStorage) >= r.Base(r.count + 1)
      && StorageLength(workspace.adjointStorage) >= r.Base(r.count + 1)
    }

    method LoadSlot(ghost r: ForwardRun, view: TapeView, ghost arena: array?<real>, ghost k: nat)
      returns (data: seq<real>)
      requires r.Shaped() && k <= r.count && StorageLength(arena) >= r.Base(r.count + 1)
      requires view == TapeView(arena, r.Base(k), r.input.rows, r.W(k))
      ensures data == r.Slot(Content(arena), k)
    {
      r.BaseMonotone(k, r.count + 1);
      assert r.Size(k) == view.rows * view.cols;
      data := ReadSlot(view);
    }

    method StoreSlot(ghost r: ForwardRun, view: TapeView, ghost arena: array?<real>, ghost k: nat, data: seq<real>)
      requires r.Shaped() && k <= r.count && StorageLength(arena) >= r.Base(r.count + 1) && |data| == r.Size(k)
      requires view == TapeView(arena, r.Base(k), r.input.rows, r.W(k))
      modifies arena
      ensures Content(arena) == r.Written(old(Content(arena)), k, data)
    {
      r.BaseMonotone(k, r.count + 1);
      assert r.Size(k) == view.rows * view.cols;
      WriteSlot(view, data);
    }

    /** LayerNorm directly followed by SiLU is one stage; everything else is a stage of its own. */
    predicate FusesAt(layerCount: nat, layer: nat)
      requires layerCount <= LayerCount()
    {
      layer + 1 < layerCount && mlp.layers[layer].LayerNorm? && mlp.layers[layer + 1].SiLU?
    }

    /** The stage of a mismatched pass is its first, and linear. */
    lemma MismatchedIsLinear(r: ForwardRun)
      requires r.Shaped() && r.mlp == mlp && !r.Valid()
      ensures mlp.layers[0].Linear? && !FusesAt(r.count, 0)
    {
    }

    /** What the stage that starts at slot `layer` computes, and the slot it is for; a first stage whose product is
        refused computes nothing. Only slots that were written are read for their values; the target slot is read as
        garbage. */
    method StageTarget(r: ForwardRun, layer: nat) returns (ok: bool, next: nat, target: seq<real>)
      requires Ready(r) && layer < r.count && (layer > 0 ==> r.Valid())
      requires r.Valid() ==> r.Holds(r.Slot(Content(workspace.valueStorage), layer), layer)
      requires !r.rows.NoRows? ==> CacheLeads(r)
      ensures next == (if FusesAt(r.count, layer) then layer + 2 else layer + 1)
      ensures next <= r.count && (ok <==> r.Valid()) && (ok ==> r.Holds(target, next))
    {
      ghost var arena := workspace.valueStorage;
      var source := LoadSlot(r, values[layer], arena, layer);
      next := if FusesAt(r.count, layer) then layer + 2 else layer + 1;
      if mlp.layers[layer].Linear? {
        ok, target := LinearStage(r, layer, source, conditionedWeight);
      } else {
        var stale := LoadSlot(r, values[next], arena, next);
        if FusesAt(r.count, layer) {
          target := FusedStage(r, layer, source, stale);
        } else {
          target := PointwiseStage(r, layer, source, stale);
        }
        ok := true;
      }
    }

    /** Runs the stage that starts at slot `layer` and returns the slot it filled. */
    method ForwardStage(r: ForwardRun, layer: nat) returns (ok: bool, next: nat)
      requires Ready(r) && layer < r.count && !Skipped(mlp.layers, r.count, layer) && (layer > 0 ==> r.Valid())
      requires r.Valid() ==> r.TapeHolds(Content(workspace.valueStorage), layer)
      requires !r.rows.NoRows? ==> CacheLeads(r)
      modifies workspace.valueStorage
      ensures ok <==> r.Valid()
      ensures ok ==> layer < next <= r.count && !Skipped(mlp.layers, r.count, next)
      ensures ok ==> r.TapeHolds(Content(workspace.valueStorage), next)
    {
      var target;
      ok, next, target := StageTarget(r, layer);
      if ok {
        FillSlot(r, layer, next, target);
      }
    }

    /** Stores the values of the next slot that is not skipped. */
    method FillSlot(ghost r: ForwardRun, ghost layer: nat, next: nat, target: seq<real>)
      requires Ready(r) && r.Valid() && layer < next <= r.count && r.Holds(target, next)
      requires r.TapeHolds(Content(workspace.valueStorage), layer)
      requires forall j: nat :: layer < j < next ==> Skipped(mlp.layers, r.count, j)
      modifies workspace.valueStorage
      ensures r.TapeHolds(Content(workspace.valueStorage), next)
    {
      r.TapeExtendedBy(Content(workspace.valueStorage), layer, next, target);
      StoreSlot(r, values[next], workspace.valueStorage, next, target);
    }

    /** All stages of a pass, left to right. A mismatched pass ends at its first product. */
    method RunStages(r: ForwardRun) returns (ok: bool)
      requires Ready(r) && (r.Valid() ==> r.TapeHolds(Content(workspace.valueStorage), 0))
      requires !r.rows.NoRows? ==> CacheLeads(r)
      modifies workspace.valueStorage
      ensures ok <==> r.Valid()
      ensures ok ==> r.TapeHolds(Content(workspace.valueStorage), r.count)
    {
      var layer := 0;
      while layer < r.count
        invariant layer <= r.count && !Skipped(mlp.layers, r.count, layer) && (layer > 0 ==> r.Valid())
        invariant r.Valid() ==> r.TapeHolds(Content(workspace.valueStorage), layer)
      {
        ok, layer := ForwardStage(r, layer);
        if !ok {
          return false;
        }
      }
      ok := true;
    }

    ghost predicate CacheLeads(r: ForwardRun)
      reads this
    {
      r.mlp == mlp && mlp.layers != [] && mlp.layers[0].Linear?
      && conditionedWeight.Valid() && IsLeadingView(mlp.layers[0], r.input.cols, conditionedWeight)
    }

    /** Everything in front of the layer loop: arena, cached weight, first slot. */
    method StartPass(r: ForwardRun)
      requires Valid() && workspace.Separate() && r.Shaped() && r.mlp == mlp
      modifies this, workspace, workspace.valueStorage
      ensures Valid() && Ready(r) && (r.Valid() ==> r.TapeHolds(Content(workspace.valueStorage), 0))
      ensures !r.rows.NoRows? ==> CacheLeads(r)
      ensures workspace == old(workspace) && workspace.owner == null && TapeFieldsKept()
      ensures workspace.generation == old(workspace.generation) + 1
      ensures workspace.valueStorage == old(workspace.valueStorage) || fresh(workspace.valueStorage)
      ensures workspace.adjointStorage == old(workspace.adjointStorage) || fresh(workspace.adjointStorage)
      ensures conditionedInputSize == (if r.rows.NoRows? then old(conditionedInputSize) else r.input.cols)
    {
      PreparePass(r);
      StoreInput(r);
    }

    /** Arena and cached weight. */
    method PreparePass(r: ForwardRun)
      requires Valid() && workspace.Separate() && r.Shaped() && r.mlp == mlp
      modifies this, workspace
      ensures Valid() && Ready(r)
      ensures !r.rows.NoRows? ==> CacheLeads(r)
      ensures workspace == old(workspace) && workspace.owner == null && TapeFieldsKept()
      ensures workspace.generation == old(workspace.generation) + 1
      ensures workspace.valueStorage == old(workspace.valueStorage) || fresh(workspace.valueStorage)
      ensures workspace.adjointStorage == old(workspace.adjointStorage) || fresh(workspace.adjointStorage)
      ensures conditionedInputSize == (if r.rows.NoRows? then old(conditionedInputSize) else r.input.cols)
    {
      Prepare(r, r.input.rows, r.input.cols, r.count);
      if !r.rows.NoRows? {
        var prepared := PrepareConditionedWeight(r.input.cols);
      }
    }

    method StoreInput(r: ForwardRun)
      requires Ready(r)
      modifies workspace.valueStorage
      ensures r.Valid() ==> r.TapeHolds(Content(workspace.valueStorage), 0)
    {
      FirstSlot(r);
      StoreSlot(r, values[0], workspace.valueStorage, 0, r.input.data);
      StoredFirst(r, workspace.valueStorage);
    }

    lemma StoredFirst(r: ForwardRun, arena: array?<real>)
      requires r.Shaped() && StorageLength(arena) >= r.Base(r.count + 1)
      requires exists before: seq<real> :: |before| >= r.Base(r.count + 1) && |r.input.data| == r.Size(0)
                 && Content(arena) == r.Written(before, 0, r.input.data)
      ensures r.Valid() ==> r.TapeHolds(Content(arena), 0)
    {
      var before: seq<real> :| |before| >= r.Base(r.count + 1) && |r.input.data| == r.Size(0)
                 && Content(arena) == r.Written(before, 0, r.input.data);
      r.WrittenSlot(before, 0, r.input.data, 0);
      if r.Valid() {
        InputHolds(r, Content(arena));
      }
    }

    /** This network's tape, and nobody else's, is the one in the arena, and it is the tape of r. */
    ghost predicate Owns(r: ForwardRun)
      reads this, workspace
    {
      && workspace.owner == this && run == r && r.Valid() && r.mlp == mlp
      && tapeBatchSize == r.input.rows && tapeInputSize == r.input.cols && tapeLayerCount == r.count
    }

    /** The finished pass is this network's latest one, */
    method Record(r: ForwardRun)
      requires Valid() && workspace.owner == null && r.Valid() && r.mlp == mlp && TapeStored(r)
      modifies this`tapeBatchSize, this`tapeInputSize, this`tapeLayerCount, this`tapeWorkspaceGeneration, this`run
      ensures tapeBatchSize == r.input.rows && tapeInputSize == r.input.cols && tapeLayerCount == r.count && run == r
      ensures tapeWorkspaceGeneration == workspace.generation && TapeStored(r) && mlp.Valid() && CacheValid()
      ensures |values| == |adjoints| == LayerCount() + 1
    {
      tapeBatchSize, tapeInputSize, tapeLayerCount := r.input.rows, r.input.cols, r.count;
      tapeWorkspaceGeneration := workspace.generation;
      run := r;
    }

    /** and its tape is the one in the arena. */
    method Adopt(r: ForwardRun)
      requires Valid() && workspace.owner == null && r.Valid() && r.mlp == mlp && TapeStored(r)
      modifies this`tapeBatchSize, this`tapeInputSize, this`tapeLayerCount, this`tapeWorkspaceGeneration, this`run,
               workspace`owner
      ensures Valid() && TapeIntact() && Owns(r)
    {
      Record(r);
      workspace.owner := this;
    }

    /** A pass whose input has been checked. A mismatched one has taken the arena from whoever owned it when it fails,
        and leaves it to nobody. */
    method RunPass(r: ForwardRun) returns (ok: bool, output: seq<real>)
      requires Valid() && workspace.Separate() && r.Shaped() && r.mlp == mlp
      modifies this, workspace, workspace.valueStorage
      ensures workspace == old(workspace) && workspace.Separate()
      ensures workspace.generation == old(workspace.generation) + 1
      ensures workspace.valueStorage == old(workspace.valueStorage) || fresh(workspace.valueStorage)
      ensures workspace.adjointStorage == old(workspace.adjointStorage) || fresh(workspace.adjointStorage)
      ensures Valid() && TapeIntact() && (ok <==> r.Valid())
      ensures ok ==> Owns(r) && r.Holds(output, r.count)
      ensures !ok ==> workspace.owner == null && TapeFieldsKept()
      ensures conditionedInputSize == (if r.rows.NoRows? then old(conditionedInputSize) else r.input.cols)
    {
      ok := FillTape(r);
      output := [];
      if ok {
        output := FinishPass(r);
      }
    }

    /** The arena is filled, or the first product was refused; either way it belongs to nobody yet. */
    method FillTape(r: ForwardRun) returns (ok: bool)
      requires Valid() && workspace.Separate() && r.Shaped() && r.mlp == mlp
      modifies this, workspace, workspace.valueStorage
      ensures Valid() && Ready(r) && workspace == old(workspace) && workspace.owner == null && TapeFieldsKept()
      ensures workspace.generation == old(workspace.generation) + 1
      ensures workspace.valueStorage == old(workspace.valueStorage) || fresh(workspace.valueStorage)
      ensures workspace.adjointStorage == old(workspace.adjointStorage) || fresh(workspace.adjointStorage)
      ensures (ok <==> r.Valid()) && (ok ==> r.TapeHolds(Content(workspace.valueStorage), r.count))
      ensures conditionedInputSize == (if r.rows.NoRows? then old(conditionedInputSize) else r.input.cols)
    {
      StartPass(r);
      ok := RunStages(r);
    }

    /** Reads the output off the finished tape and claims the arena. */
    method FinishPass(r: ForwardRun) returns (output: seq<real>)
      requires Valid() && Ready(r) && workspace.owner == null && r.Valid()
      requires r.TapeHolds(Content(workspace.valueStorage), r.count)
      modifies this`tapeBatchSize, this`tapeInputSize, this`tapeLayerCount, this`tapeWorkspaceGeneration, this`run,
               workspace`owner
      ensures Valid() && TapeIntact() && Owns(r) && r.Holds(output, r.count)
    {
      output := LoadSlot(r, values[r.count], workspace.valueStorage, r.count);
      assert r.Holds(output, r.count);
      assert TapeStored(r);
      Adopt(r);
    }

    /** The record of the latest pass is untouched. */
    twostate predicate TapeFieldsKept()
      reads this
    {
      && run == old(run) && tapeBatchSize == old(tapeBatchSize) && tapeInputSize == old(tapeInputSize)
      && tapeLayerCount == old(tapeLayerCount) && tapeWorkspaceGeneration == old(tapeWorkspaceGeneration)
    }

    /** The input checks of forward_impl. */
    predicate AcceptsPass(input: Matrix, rows: RowSource)
      requires mlp.layers != []
    {
      rows.NoRows? || (mlp.SupportsConditionedInput(input.cols)
                       && rows.DimensionsOk(input.rows, mlp.layers[0].OutputSize()))
    }

    /** What a caller of a plain pass must respect, since nothing checks it: full rows, or leading columns of a first
        linear layer. */
    predicate PlainInputOk(input: Matrix, rows: RowSource)
      requires mlp.layers != []
    {
      rows.NoRows? ==> input.cols == mlp.InputSize() || mlp.SupportsConditionedInput(input.cols)
    }

    /** One forward pass over the first layers. Whoever owned the arena before has lost it, even when the pass fails
        in its first product. */
    method ForwardImpl(input: Matrix, rows: RowSource, layerCount: nat) returns (result: Result<seq<real>, KokkosError>)
      requires Valid() && TapeIntact() && workspace.Separate() && input.Valid()
      requires 1 <= layerCount <= LayerCount() && rows.WellFormed(input.rows, mlp.layers[0].OutputSize())
      requires PlainInputOk(input, rows)
      modifies this, workspace, workspace.valueStorage
      ensures result == Err(InvalidDimensions) <==> !AcceptsPass(input, rows)
      ensures result == Err(WeightShapeMismatch) <==>
                AcceptsPass(input, rows) && ForwardRun(mlp, input, rows, layerCount).Mismatched()
      ensures result.Ok? || result == Err(InvalidDimensions) || result == Err(WeightShapeMismatch)
      ensures result == Err(InvalidDimensions) ==>
                unchanged(this) && unchanged(workspace)
                && Content(workspace.valueStorage) == old(Content(workspace.valueStorage))
      ensures result == Err(WeightShapeMismatch) ==> Displaced(input, rows)
      ensures workspace == old(workspace) && workspace.Separate()
      ensures workspace.valueStorage == old(workspace.valueStorage) || fresh(workspace.valueStorage)
      ensures workspace.adjointStorage == old(workspace.adjointStorage) || fresh(workspace.adjointStorage)
      ensures Valid() && TapeIntact()
      ensures result.Ok? ==>
                && Owns(ForwardRun(mlp, input, rows, layerCount)) && run.Holds(result.value, layerCount)
                && workspace.generation == old(workspace.generation) + 1
                && conditionedInputSize == (if rows.NoRows? then old(conditionedInputSize) else input.cols)
    {
      if !AcceptsPass(input, rows) {
        return Err(InvalidDimensions);
      }
      var ok, output := RunPass(ForwardRun(mlp, input, rows, layerCount));
      result := if ok then Ok(output) else Err(WeightShapeMismatch);
    }

    /** A pass that failed in its first product: a new generation that belongs to nobody. */
    twostate predicate Displaced(input: Matrix, rows: RowSource)
      reads this, workspace
    {
      && workspace.owner == null && workspace.generation == old(workspace.generation) + 1 && TapeFieldsKept()
      && conditionedInputSize == old(conditionedInputSize)
    }

    lemma FirstSlot(r: ForwardRun)
      requires r.Shaped()
      ensures |r.input.data| == r.Size(0)
    {
    }

    lemma InputHolds(r: ForwardRun, arena: seq<real>)
      requires r.Valid() && |arena| >= r.Base(r.count + 1) && r.Slot(arena, 0) == r.input.data
      ensures r.TapeHolds(arena, 0)
    {
      forall s: nat | s < r.input.rows ensures r.RowHolds(r.input.data, 0, s) {
        r.NetFits(s);
        assert r.Net(s)[..0] == [];
      }
    }

    // -------------------------------------------------------------- reverse

    /** The pair test of the right-to-left scan. */
    predicate FusesBelow(layer: nat)
      requires layer < LayerCount()
    {
      layer > 0 && mlp.layers[layer].SiLU? && mlp.layers[layer - 1].LayerNorm?
    }

    /** The slots the left-to-right scan fills, from slot k on. */
    function ForwardSlots(layerCount: nat, k: nat): set<nat>
      requires k <= layerCount <= LayerCount()
      decreases layerCount - k
    {
      if k == layerCount then {k} else {k} + ForwardSlots(layerCount, if FusesAt(layerCount, k) then k + 2 else k + 1)
    }

    /** The slots the right-to-left scan fills, from slot k down. */
    function ReverseSlots(k: nat): set<nat>
      requires k <= LayerCount()
    {
      if k == 0 then {k} else {k} + ReverseSlots(if FusesBelow(k - 1) then k - 2 else k - 1)
    }

    lemma {:induction false} ForwardSlotsAre(layerCount: nat, k: nat, s: nat)
      requires k <= layerCount <= LayerCount() && !Skipped(mlp.layers, layerCount, k)
      ensures s in ForwardSlots(layerCount, k) <==> k <= s <= layerCount && !Skipped(mlp.layers, layerCount, s)
      decreases layerCount - k
    {
      if k == layerCount {
      } else {
        ForwardSlotsAre(layerCount, if FusesAt(layerCount, k) then k + 2 else k + 1, s);
      }
    }

    lemma {:induction false} ReverseSlotsAre(layerCount: nat, k: nat, s: nat)
      requires k <= layerCount <= LayerCount() && !Skipped(mlp.layers, layerCount, k)
      ensures s in ReverseSlots(k) <==> s <= k && !Skipped(mlp.layers, layerCount, s)
      decreases k
    {
      if k == 0 {
      } else {
        ReverseSlotsAre(layerCount, if FusesBelow(k - 1) then k - 2 else k - 1, s);
      }
    }

    /** The two scans fuse the same pairs: reverse visits exactly the slots forward wrote, for every layer list and
        every number of active layers. */
    lemma ScansAgree(layerCount: nat)
      requires layerCount <= LayerCount()
      ensures ForwardSlots(layerCount, 0) == ReverseSlots(layerCount)
      ensures forall s: nat :: s in ForwardSlots(layerCount, 0) <==>
                && s <= layerCount
                && !(1 <= s < layerCount && mlp.layers[s - 1].LayerNorm? && mlp.layers[s].SiLU?)
    {
      forall s: nat
        ensures s in ForwardSlots(layerCount, 0) <==> s in ReverseSlots(layerCount)
        ensures s in ForwardSlots(layerCount, 0) <==> s <= layerCount && !Skipped(mlp.layers, layerCount, s)
      {
        ForwardSlotsAre(layerCount, 0, s);
        ReverseSlotsAre(layerCount, layerCount, s);
      }
    }

    /** The cached compact weight no longer has the width the tape was recorded with, and would be used. */
    predicate CacheIsStale()
      reads this
      requires mlp.layers != []
    {
      tapeBatchSize > 4 && tapeInputSize < mlp.InputSize() && conditionedInputSize != tapeInputSize
    }

    /** The recorded sizes are those of r. */
    ghost predicate TapeShapeIs(r: ForwardRun)
      reads this
    {
      r.mlp == mlp && tapeBatchSize == r.input.rows && tapeInputSize == r.input.cols && tapeLayerCount == r.count
    }

    /** Reverse of the stage that ends at slot layer + 1. The values are read from written slots only. A first stage
        whose product is refused computes nothing. */
    method ReverseTarget(ghost r: ForwardRun, layer: nat, slot: nat, ghost top: Matrix)
      returns (ok: bool, next: nat, target: seq<real>)
      requires TapeShapeIs(r) && Valid() && Ready(r) && r.Valid() && layer < r.count && slot == layer + 1
      requires r.TapeHolds(Content(workspace.valueStorage), r.count)
      requires top.Valid() && top.rows == r.input.rows && top.cols == r.W(r.count)
      requires AdjointsAt(r, slot, r.Slot(Content(workspace.adjointStorage), slot), top)
      ensures next == (if FusesBelow(layer) then layer - 1 else layer)
      ensures ok <==> !(layer == 0 && CacheIsStale())
      ensures ok ==> AdjointsAt(r, next, target, top)
    {
      ghost var arena, adjointArena := workspace.valueStorage, workspace.adjointStorage;
      var adjoint := LoadSlot(r, adjoints[slot], adjointArena, slot);
      next := if FusesBelow(layer) then layer - 1 else layer;
      assert !Skipped(mlp.layers, r.count, next);
      assert r.Holds(r.Slot(Content(arena), next), next);
      if mlp.layers[layer].Linear? {
        ok, target := LinearStageReverse(r, mlp, tapeBatchSize, tapeInputSize, layer, adjoint, conditionedWeight, top);
      } else {
        ConditionedIsLinear(r);
        if FusesBelow(layer) {
          target := ReverseFused(r, next, slot, adjoint, top);
        } else {
          target := ReversePointwise(r, layer, slot, adjoint, top);
        }
        ok := true;
      }
    }

    /** The reverse of a fused pair that starts at layer k. */
    method ReverseFused(ghost r: ForwardRun, k: nat, ghost above: nat, adjoint: seq<real>, ghost top: Matrix)
      returns (target: seq<real>)
      requires TapeShapeIs(r) && Ready(r) && r.Valid() && k + 1 < r.count
      requires mlp.layers[k].LayerNorm? && mlp.layers[k + 1].SiLU?
      requires r.Holds(r.Slot(Content(workspace.valueStorage), k), k)
      requires top.Valid() && top.rows == r.input.rows && top.cols == r.W(r.count)
      requires above == k + 2 && AdjointsAt(r, above, adjoint, top)
      ensures AdjointsAt(r, k, target, top)
    {
      var source := LoadSlot(r, values[k], workspace.valueStorage, k);
      var stale := LoadSlot(r, adjoints[k], workspace.adjointStorage, k);
      target := FusedStageReverse(r, mlp, tapeBatchSize, tapeInputSize, k, source, adjoint, stale, top);
    }

    /** The reverse of a normalisation or an activation. */
    method ReversePointwise(ghost r: ForwardRun, k: nat, ghost above: nat, adjoint: seq<real>, ghost top: Matrix)
      returns (target: seq<real>)
      requires TapeShapeIs(r) && Ready(r) && r.Valid() && k < r.count && !mlp.layers[k].Linear?
      requires r.Holds(r.Slot(Content(workspace.valueStorage), k), k)
      requires top.Valid() && top.rows == r.input.rows && top.cols == r.W(r.count)
      requires above == k + 1 && AdjointsAt(r, above, adjoint, top)
      ensures AdjointsAt(r, k, target, top)
    {
      var source := LoadSlot(r, values[k], workspace.valueStorage, k);
      var stale := LoadSlot(r, adjoints[k], workspace.adjointStorage, k);
      target := PointwiseStageReverse(r, mlp, tapeBatchSize, tapeInputSize, k, source, adjoint, stale, top);
    }

    /** The slot the reverse of the stage ending at `layer` + 1 fills. */
    method ReverseStage(ghost r: ForwardRun, layer: nat, slot: nat, ghost top: Matrix) returns (ok: bool, next: nat)
      requires TapeShapeIs(r) && Valid() && Ready(r) && r.Valid() && layer < r.count && slot == layer + 1
      requires r.TapeHolds(Content(workspace.valueStorage), r.count)
      requires top.Valid() && top.rows == r.input.rows && top.cols == r.W(r.count)
      requires AdjointsAt(r, slot, r.Slot(Content(workspace.adjointStorage), slot), top)
      modifies workspace.adjointStorage
      ensures next == (if FusesBelow(layer) then layer - 1 else layer)
      ensures ok <==> !(layer == 0 && CacheIsStale())
      ensures ok ==> AdjointsAt(r, next, r.Slot(Content(workspace.adjointStorage), next), top)
    {
      var target;
      ok, next, target := ReverseTarget(r, layer, slot, top);
      if ok {
        FillAdjoint(r, next, target, top);
      }
    }

    /** Stores the adjoints in front of slot k. */
    method FillAdjoint(ghost r: ForwardRun, k: nat, target: seq<real>, ghost top: Matrix)
      requires Ready(r) && r.Valid() && k <= r.count && top.Valid() && top.rows == r.input.rows
      requires top.cols == r.W(r.count)
      requires AdjointsAt(r, k, target, top)
      modifies workspace.adjointStorage
      ensures AdjointsAt(r, k, r.Slot(Content(workspace.adjointStorage), k), top)
    {
      StoreSlot(r, adjoints[k], workspace.adjointStorage, k, target);
      StoredAdjoint(r, workspace.adjointStorage, k, target, top);
    }

    /** The adjoint of the output goes into the topmost slot. */
    method StoreTop(ghost r: ForwardRun, top: Matrix)
      requires TapeShapeIs(r) && Ready(r) && r.Valid() && top.Valid() && top.rows == r.input.rows
      requires top.cols == r.W(r.count)
      modifies workspace.adjointStorage
      ensures AdjointsAt(r, r.count, r.Slot(Content(workspace.adjointStorage), r.count), top)
    {
      TopHolds(r, top);
      FillAdjoint(r, tapeLayerCount, top.data, top);
    }

    /** All stages, right to left, until a product is refused: that of the first layer, when the cached weight was
        prepared for another width. */
    method ReverseStages(ghost r: ForwardRun, top: Matrix) returns (ok: bool)
      requires TapeShapeIs(r) && Valid() && Ready(r) && r.Valid()
      requires r.TapeHolds(Content(workspace.valueStorage), r.count)
      requires top.Valid() && top.rows == r.input.rows && top.cols == r.W(r.count)
      modifies workspace.adjointStorage
      ensures ok <==> !CacheIsStale()
      ensures ok ==> AdjointsAt(r, 0, r.Slot(Content(workspace.adjointStorage), 0), top)
    {
      StoreTop(r, top);
      ConditionedIsLinear(r);
      ghost var content := Content(workspace.valueStorage);
      var slot: nat := tapeLayerCount;
      while slot > 0
        invariant slot <= r.count && (CacheIsStale() ==> slot > 0)
        invariant AdjointsAt(r, slot, r.Slot(Content(workspace.adjointStorage), slot), top)
        invariant Content(workspace.valueStorage) == content
      {
        ok, slot := ReverseStage(r, slot - 1, slot, top);
        if !ok {
          return false;
        }
      }
      ok := true;
    }

    /** A pass over fewer columns than the first layer has was conditioned, so the first layer is linear. */
    lemma ConditionedIsLinear(r: ForwardRun)
      requires r.Valid() && r.mlp == mlp
      ensures r.input.cols < mlp.InputSize() ==> mlp.layers[0].Linear? && !FusesBelow(0)
    {
    }

    lemma TopHolds(r: ForwardRun, top: Matrix)
      requires r.Valid() && top.Valid() && top.rows == r.input.rows && top.cols == r.W(r.count)
      ensures AdjointsAt(r, r.count, top.data, top)
    {
      forall s: nat | s < r.input.rows ensures AdjointRow(r, r.count, top.data, top, s) {
        r.PulledEnds(s, Row(top.data, r.W(r.count), s));
      }
    }

    lemma StoredAdjoint(r: ForwardRun, arena: array?<real>, k: nat, data: seq<real>, top: Matrix)
      requires r.Valid() && k <= r.count && StorageLength(arena) >= r.Base(r.count + 1)
      requires top.Valid() && top.rows == r.input.rows && top.cols == r.W(r.count)
      requires AdjointsAt(r, k, data, top)
      requires exists before: seq<real> ::
                 |before| >= r.Base(r.count + 1) && Content(arena) == r.Written(before, k, data)
      ensures AdjointsAt(r, k, r.Slot(Content(arena), k), top)
    {
      var before: seq<real> :| |before| >= r.Base(r.count + 1) && Content(arena) == r.Written(before, k, data);
      r.WrittenSlot(before, k, data, k);
    }

    // -------------------------------------------------------------- operations

    /** The dimension checks of the reverse pass. */
    predicate AcceptsReverse(outputAdjoint: Matrix, resultRows: nat, resultCols: nat, layerCount: nat)
      reads this
      requires 1 <= layerCount <= LayerCount()
    {
      && tapeBatchSize >= 0 && tapeLayerCount == layerCount
      && outputAdjoint.rows == tapeBatchSize && outputAdjoint.cols == mlp.layers[layerCount - 1].OutputSize()
      && resultRows == tapeBatchSize && resultCols == tapeInputSize
    }

    /** Reverse pass over the recorded tape. It is rejected as invalidated whenever the workspace has moved on; a pass
        that is not rejected returns the gradients of this network's own latest forward pass. It fails late exactly
        when the cached compact weight was meanwhile prepared for another width and would be used. */
    method ReverseFromTapeImpl(outputAdjoint: Matrix, resultRows: nat, resultCols: nat, layerCount: nat)
      returns (result: Result<seq<real>, KokkosError>)
      requires Valid() && TapeIntact() && workspace.Separate() && outputAdjoint.Valid()
      requires 1 <= layerCount <= LayerCount()
      modifies workspace.adjointStorage
      ensures result == Err(TapeInvalidated) <==> tapeWorkspaceGeneration != workspace.generation
      ensures result.Ok? <==>
                && workspace.owner == this && AcceptsReverse(outputAdjoint, resultRows, resultCols, layerCount)
                && !CacheIsStale()
      ensures result == Err(WeightShapeMismatch) <==>
                && workspace.owner == this && AcceptsReverse(outputAdjoint, resultRows, resultCols, layerCount)
                && CacheIsStale()
      ensures result.Ok? ==>
                && Owns(run) && run.count == layerCount && run.W(layerCount) == outputAdjoint.cols
                && HoldsGradients(run, outputAdjoint, result.value)
    {
      if tapeWorkspaceGeneration != workspace.generation {
        return Err(TapeInvalidated);
      }
      if !AcceptsReverse(outputAdjoint, resultRows, resultCols, layerCount) {
        return Err(InvalidDimensions);
      }
      assert Live();
      var ok := ReverseStages(run, outputAdjoint);
      if !ok {
        return Err(WeightShapeMismatch);
      }
      var data := LoadSlot(run, adjoints[0], workspace.adjointStorage, 0);
      AdjointsAreGradients(run, outputAdjoint, data);
      result := Ok(data);
    }

    /** Arenas after an operation are the old ones or new ones, never another workspace's. */
    twostate predicate ArenasKept(w: Workspace)
      reads w
    {
      && (w.valueStorage == old(w.valueStorage) || fresh(w.valueStorage))
      && (w.adjointStorage == old(w.adjointStorage) || fresh(w.adjointStorage))
    }

    /** The whole network on plain input. */
    method Evaluate(input: Matrix) returns (result: Result<seq<real>, KokkosError>)
      requires Valid() && TapeIntact() && workspace.Separate() && input.Valid()
      modifies this, workspace, workspace.valueStorage
      ensures Valid() && TapeIntact() && workspace == old(workspace) && workspace.Separate() && ArenasKept(workspace)
      ensures result.Ok? <==> input.cols == mlp.InputSize()
      ensures result.Err? ==> unchanged(this) && unchanged(workspace)
                               && Content(workspace.valueStorage) == old(Content(workspace.valueStorage))
      ensures result.Ok? ==> workspace.generation == old(workspace.generation) + 1
                             && Owns(ForwardRun(mlp, input, NoRows(0), LayerCount()))
                             && run.Holds(result.value, LayerCount())
      ensures conditionedInputSize == old(conditionedInputSize)
    {
      if input.cols != mlp.InputSize() {
        return Err(InvalidDimensions);
      }
      result := ForwardImpl(input, NoRows(0), LayerCount());
    }

    /** The whole network on dynamic input plus row contributions, given as a table or gathered by index. Tables whose
        pointers are null make it a plain pass. */
    method EvaluateConditioned(input: Matrix, rows: RowSource) returns (result: Result<seq<real>, KokkosError>)
      requires Valid() && TapeIntact() && workspace.Separate() && input.Valid()
      requires rows.WellFormed(input.rows, mlp.layers[0].OutputSize()) && PlainInputOk(input, rows)
      modifies this, workspace, workspace.valueStorage
      ensures Valid() && TapeIntact() && workspace == old(workspace) && workspace.Separate() && ArenasKept(workspace)
      ensures result.Ok? <==> AcceptsPass(input, rows) && !ForwardRun(mlp, input, rows, LayerCount()).Mismatched()
      ensures result.Err? && !AcceptsPass(input, rows) ==>
                unchanged(this) && unchanged(workspace)
                && Content(workspace.valueStorage) == old(Content(workspace.valueStorage))
      ensures result.Err? && AcceptsPass(input, rows) ==> Displaced(input, rows)
      ensures result.Ok? ==> workspace.generation == old(workspace.generation) + 1
                             && Owns(ForwardRun(mlp, input, rows, LayerCount()))
                             && run.Holds(result.value, LayerCount())
                             && conditionedInputSize == (if rows.NoRows? then old(conditionedInputSize) else input.cols)
      ensures result.Ok? <==>
                match rows
                case NoRows(_) => input.cols == mlp.layers[0].InputSize() || input.rows <= 4
                case RowTable(table) =>
                  && mlp.layers[0].Linear? && 0 < input.cols < mlp.layers[0].inputs
                  && table.rows == input.rows && table.cols == mlp.layers[0].outputs
                case Indexed(sourceEdgeTypes, targetNodeIndices, nodeTypes, firstEdge, sourceTable, targetTable) =>
                  && mlp.layers[0].Linear? && 0 < input.cols < mlp.layers[0].inputs
                  && firstEdge >= 0 && firstEdge + input.rows <= |sourceEdgeTypes|
                  && firstEdge + input.rows <= |targetNodeIndices| && |nodeTypes| > 0
                  && sourceTable.rows > 0 && sourceTable.cols == mlp.layers[0].outputs
                  && targetTable.rows > 0 && targetTable.cols == mlp.layers[0].outputs
      ensures result.Ok? ==> EvaluatesSamples(mlp, input, rows, result.value)
    {
      result := ForwardImpl(input, rows, LayerCount());
      if result.Ok? {
        run.LastRows(result.value);
      }
    }

    predicate SupportsFinalLinearFactorization(dynamicInputSize: nat)
      requires mlp.layers != []
    {
      mlp.layers[LayerCount() - 1].Linear? && mlp.SupportsConditionedInput(dynamicInputSize)
    }

    function PrefixOutputSize(dynamicInputSize: nat): nat
      requires mlp.layers != []
    {
      if LayerCount() == 1 then dynamicInputSize else mlp.layers[LayerCount() - 1].InputSize()
    }

    /** All but the final linear layer. With a single layer the prefix is the identity and no arena is touched. */
    method EvaluateConditionedPrefix(input: Matrix, rows: RowSource, resultRows: nat, resultCols: nat)
      returns (result: Result<seq<real>, KokkosError>)
      requires Valid() && TapeIntact() && workspace.Separate() && input.Valid()
      requires rows.WellFormed(input.rows, mlp.layers[0].OutputSize())
      modifies this, workspace, workspace.valueStorage
      ensures Valid() && TapeIntact() && workspace == old(workspace) && workspace.Separate() && ArenasKept(workspace)
      ensures result.Ok? <==> SupportsFinalLinearFactorization(input.cols) && resultRows == input.rows
                              && resultCols == PrefixOutputSize(input.cols)
                              && rows.PrefixDimensionsOk(input.rows, mlp.layers[0].OutputSize())
      ensures result.Err? ==> unchanged(this) && unchanged(workspace)
                               && Content(workspace.valueStorage) == old(Content(workspace.valueStorage))
      ensures result.Ok? ==> tapeLayerCount == LayerCount() - 1
      ensures result.Ok? ==>
                conditionedInputSize
                == if rows.NoRows? && LayerCount() > 1 then old(conditionedInputSize) else input.cols
      ensures result.Ok? && LayerCount() > 1 ==>
                workspace.generation == old(workspace.generation) + 1
                && Owns(ForwardRun(mlp, input, rows, LayerCount() - 1)) && run.Holds(result.value, LayerCount() - 1)
      ensures result.Ok? && LayerCount() == 1 ==>
                result.value == input.data && workspace.generation == old(workspace.generation)
                && tapeBatchSize == input.rows && tapeInputSize == input.cols && run == old(run)
                && workspace.valueStorage == old(workspace.valueStorage)
                && workspace.adjointStorage == old(workspace.adjointStorage)
                && Content(workspace.valueStorage) == old(Content(workspace.valueStorage))
                && workspace.owner == (if old(workspace.owner) == this then null else old(workspace.owner))
    {
      if !SupportsFinalLinearFactorization(input.cols) {
        return Err(NotFactorable);
      }
      if resultRows != input.rows || resultCols != PrefixOutputSize(input.cols)
         || !rows.PrefixDimensionsOk(input.rows, mlp.layers[0].OutputSize()) {
        return Err(InvalidDimensions);
      }
      if LayerCount() == 1 {
        IdentityPrefix(input);
        return Ok(input.data);
      }
      result := ForwardImpl(input, rows, LayerCount() - 1);
    }

    /** The identity prefix: a record of its sizes, but no tape. */
    method IdentityPrefix(input: Matrix)
      requires Valid() && TapeIntact() && LayerCount() == 1 && mlp.SupportsConditionedInput(input.cols)
      modifies this`conditionedWeight, this`conditionedInputSize, this`tapeBatchSize, this`tapeInputSize,
               this`tapeLayerCount, this`tapeWorkspaceGeneration, workspace`owner
      ensures Valid() && TapeIntact() && conditionedInputSize == input.cols
      ensures tapeBatchSize == input.rows && tapeInputSize == input.cols && tapeLayerCount == 0
      ensures workspace.owner == if old(workspace.owner) == this then null else old(workspace.owner)
    {
      var prepared := PrepareConditionedWeight(input.cols);
      tapeBatchSize, tapeInputSize, tapeLayerCount := input.rows, input.cols, 0;
      tapeWorkspaceGeneration := 0;
      if workspace.owner == this {
        workspace.owner := null;
      }
    }

    method ReverseFromTape(outputAdjoint: Matrix, resultRows: nat, resultCols: nat)
      returns (result: Result<seq<real>, KokkosError>)
      requires Valid() && TapeIntact() && workspace.Separate() && outputAdjoint.Valid()
      modifies workspace.adjointStorage
      ensures result == Err(TapeInvalidated) <==> tapeWorkspaceGeneration != workspace.generation
      ensures result.Ok? <==> workspace.owner == this && !CacheIsStale()
                              && AcceptsReverse(outputAdjoint, resultRows, resultCols, LayerCount())
      ensures result == Err(WeightShapeMismatch) <==>
                workspace.owner == this && AcceptsReverse(outputAdjoint, resultRows, resultCols, LayerCount())
                && CacheIsStale()
      ensures result.Ok? <==>
                && workspace.owner == this && tapeBatchSize >= 0 && tapeLayerCount == |mlp.layers|
                && outputAdjoint.rows == resultRows == tapeBatchSize && resultCols == tapeInputSize
                && outputAdjoint.cols == mlp.layers[|mlp.layers| - 1].OutputSize()
                && (tapeBatchSize <= 4 || tapeInputSize >= mlp.layers[0].InputSize()
                    || conditionedInputSize == tapeInputSize)
      ensures result.Ok? ==> Owns(run) && run.count == LayerCount() && run.W(run.count) == outputAdjoint.cols
                             && HoldsGradients(run, outputAdjoint, result.value)
    {
      result := ReverseFromTapeImpl(outputAdjoint, resultRows, resultCols, LayerCount());
    }

    /** Reverse of a prefix pass. The identity prefix copies the adjoint and needs no tape. */
    method ReversePrefixFromTape(prefixAdjoint: Matrix, resultRows: nat, resultCols: nat)
      returns (result: Result<seq<real>, KokkosError>)
      requires Valid() && TapeIntact() && workspace.Separate() && prefixAdjoint.Valid()
      modifies workspace.adjointStorage
      ensures tapeLayerCount == 0 ==>
                && (result.Ok? <==> prefixAdjoint.rows == tapeBatchSize && prefixAdjoint.cols == tapeInputSize
                                    && resultRows == prefixAdjoint.rows && resultCols == prefixAdjoint.cols)
                && (result.Ok? ==> result.value == prefixAdjoint.data)
      ensures tapeLayerCount != 0 ==>
                (result.Ok? <==> workspace.owner == this && !CacheIsStale() && LayerCount() > 1
                                 && mlp.layers[LayerCount() - 1].Linear?
                                 && AcceptsReverse(prefixAdjoint, resultRows, resultCols, LayerCount() - 1))
      ensures tapeLayerCount != 0 && result.Ok? ==>
                && Owns(run) && run.count == LayerCount() - 1 >= 1 && run.W(run.count) == prefixAdjoint.cols
                && HoldsGradients(run, prefixAdjoint, result.value)
    {
      if tapeLayerCount == 0 {
        if tapeBatchSize < 0 || prefixAdjoint.rows != tapeBatchSize || prefixAdjoint.cols != tapeInputSize
           || resultRows != prefixAdjoint.rows || resultCols != prefixAdjoint.cols {
          return Err(InvalidDimensions);
        }
        return Ok(prefixAdjoint.data);
      }
      if tapeLayerCount < 0 || LayerCount() <= 1 || !mlp.layers[LayerCount() - 1].Linear? {
        return Err(NotFactorable);
      }
      result := ReverseFromTapeImpl(prefixAdjoint, resultRows, resultCols, LayerCount() - 1);
    }

    /** Drops the shared arena: no network that used it has a live tape afterwards. */
    method ClearWorkspace()
      requires Valid() && TapeIntact()
      modifies this, workspace
      ensures Valid() && TapeIntact() && workspace == old(workspace) && workspace.Separate()
      ensures workspace.owner == null && workspace.generation == old(workspace.generation) + 1
      ensures workspace.valueStorage == null && workspace.adjointStorage == null && run == old(run)
      ensures tapeLayerCount == -1 && conditionedInputSize == old(conditionedInputSize)
    {
      var empty := TapeView(null, 0, 0, 0);
      values, adjoints := seq(|values|, _ => empty), seq(|adjoints|, _ => empty);
      workspace.Clear();
      tapeBatchSize, tapeInputSize, tapeLayerCount, tapeWorkspaceGeneration := -1, -1, -1, 0;
    }

    /** Switches to another workspace. Both workspaces keep their arenas; only this network's tape is given up. */
    method SetWorkspace(other: Workspace?) returns (result: Result<(), KokkosError>)
      requires Valid() && TapeIntact()
      requires other != null && other != workspace ==> other.owner != this
      modifies this, workspace`owner
      ensures Valid() && TapeIntact()
      ensures result.Err? <==> other == null
      ensures result.Err? || other == old(workspace) ==> unchanged(this) && unchanged(workspace)
      ensures result.Ok? ==> workspace == other && run == old(run) && conditionedInputSize == old(conditionedInputSize)
      ensures result.Ok? && other != old(workspace) ==> tapeLayerCount == -1
      ensures result.Ok? && other != old(workspace) ==>
                !Live() && old(workspace).owner == (if old(workspace.owner) == this then null else old(workspace.owner))
    {
      if other == null {
        return Err(NullWorkspace);
      }
      if workspace == other {
        return Ok(());
      }
      var empty := TapeView(null, 0, 0, 0);
      values, adjoints := seq(|values|, _ => empty), seq(|adjoints|, _ => empty);
      if workspace.owner == this {
        workspace.owner := null;
      }
      workspace := other;
      tapeBatchSize, tapeInputSize, tapeLayerCount, tapeWorkspaceGeneration := -1, -1, -1, 0;
      result := Ok(());
    }
  }
}
