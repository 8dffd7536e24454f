/** Any number of networks sharing any number of workspaces, driven by an arbitrary sequence of calls. */
module SharedWorkspaces {
  import opened Results
  import opened DenseKernels
  import opened AffineMlp
  import opened ArenaTapes
  import opened AffineMlpKokkosNetworks

  /** The networks in S use the workspaces in W; arenas of different workspaces are different arrays, every network is
      consistent, and a workspace's owner is a network that really uses it. */
  ghost predicate SystemValid(S: set<AffineMlpKokkos>, W: set<Workspace>)
    reads S, W, (set w | w in W :: w.valueStorage), (set w | w in W :: w.adjointStorage)
  {
    && (forall w <- W :: w.Separate() && (w.owner != null ==> w.owner in S && w.owner.workspace == w))
    && (forall w, u :: w in W && u in W && w != u ==> Apart(w, u))
    && (forall m <- S :: m.workspace in W && m.Valid() && m.TapeIntact())
  }

  ghost predicate Apart(w: Workspace, u: Workspace)
    reads w, u
  {
    && (w.valueStorage != null ==> w.valueStorage != u.valueStorage && w.valueStorage != u.adjointStorage)
    && (w.adjointStorage != null ==> w.adjointStorage != u.valueStorage && w.adjointStorage != u.adjointStorage)
  }

  /** One call on one network. */
  datatype Command =
    | Evaluate(input: Matrix)
    | EvaluateConditioned(input: Matrix, rows: RowSource)
    | EvaluatePrefix(input: Matrix, rows: RowSource, resultRows: nat, resultCols: nat)
    | Reverse(adjoint: Matrix, resultRows: nat, resultCols: nat)
    | ReversePrefix(adjoint: Matrix, resultRows: nat, resultCols: nat)
    | PrepareWeight(width: int)
    | Clear
  {
    /** What callers must respect: well-formed views, indices that point into their tables, and for a null table the
        plain input sizes. */
    predicate WellFormed(m: AffineMlpKokkos)
      requires m.mlp.layers != []
    {
      match this
      case Evaluate(input) => input.Valid()
      case EvaluateConditioned(input, rows) =>
        input.Valid() && rows.WellFormed(input.rows, m.mlp.layers[0].OutputSize()) && m.PlainInputOk(input, rows)
      case EvaluatePrefix(input, rows, _, _) =>
        input.Valid() && rows.WellFormed(input.rows, m.mlp.layers[0].OutputSize())
      case Reverse(adjoint, _, _) => adjoint.Valid()
      case ReversePrefix(adjoint, _, _) => adjoint.Valid()
      case PrepareWeight(_) => true
      case Clear => true
    }
  }

  /** What an operation on network m may have done to its workspace w: nothing but to the adjoint arena and the owner,
      or a new generation that leaves the arena to m or to nobody. */
  twostate predicate StepOn(m: AffineMlpKokkos, w: Workspace)
    reads m, w, w.valueStorage, w.adjointStorage
  {
    && (m.ArenasKept(w) || (w.valueStorage == null && w.adjointStorage == null)) && w.Separate()
    && (|| (&& w.generation == old(w.generation)
            && w.valueStorage == old(w.valueStorage) && w.adjointStorage == old(w.adjointStorage)
            && Content(w.valueStorage) == old(Content(w.valueStorage))
            && (w.owner == old(w.owner) || (old(w.owner) == m && w.owner == null)))
        || (w.generation == old(w.generation) + 1 && (w.owner == null || w.owner == m)))
  }

  /** A network and a workspace that a call did not touch. */
  twostate predicate Untouched(k: AffineMlpKokkos)
    reads k
  {
    unchanged(k)
  }

  twostate predicate Undisturbed(u: Workspace)
    reads u, u.valueStorage
  {
    && u.valueStorage == old(u.valueStorage) && u.adjointStorage == old(u.adjointStorage)
    && u.generation == old(u.generation) && u.owner == old(u.owner)
    && Content(u.valueStorage) == old(Content(u.valueStorage))
  }

  type Outcome = Result<seq<real>, KokkosError>

  /** The forward pass a command stands for, when it is one that records a tape. */
  predicate Records(mlp: AffineMLP, c: Command) {
    match c
    case Evaluate(_) => true
    case EvaluateConditioned(_, _) => true
    case EvaluatePrefix(_, _, _, _) => |mlp.layers| > 1
    case _ => false
  }

  function RecordedRun(mlp: AffineMLP, c: Command): ForwardRun
    requires Records(mlp, c)
  {
    match c
    case Evaluate(input) => ForwardRun(mlp, input, NoRows(0), |mlp.layers|)
    case EvaluateConditioned(input, rows) => ForwardRun(mlp, input, rows, |mlp.layers|)
    case EvaluatePrefix(input, rows, _, _) => ForwardRun(mlp, input, rows, |mlp.layers| - 1)
  }

  /** The identity prefix of a one-layer network records nothing and drops the network's claim on the arena. */
  predicate GivesUp(mlp: AffineMLP, c: Command) {
    c.EvaluatePrefix? && |mlp.layers| <= 1
  }

  /** Reverse commands that read a tape. */
  predicate ReadsTape(mlp: AffineMLP, c: Command) {
    c.Reverse? || (c.ReversePrefix? && |mlp.layers| > 1)
  }

  /** A forward command whose checks pass but whose first product is refused: it displaces the arena's owner and
      fails. */
  predicate Displaces(m: AffineMlpKokkos, c: Command)
    requires m.mlp.layers != []
  {
    c.EvaluateConditioned? && m.AcceptsPass(c.input, c.rows) && RecordedRun(m.mlp, c).Mismatched()
  }

  /** The width the cached weight has after an accepted command. */
  function PreparedBy(mlp: AffineMLP, c: Command, before: int): int {
    match c
    case EvaluateConditioned(input, rows) => if rows.NoRows? then before else input.cols
    case EvaluatePrefix(input, rows, _, _) => if rows.NoRows? && |mlp.layers| > 1 then before else input.cols
    case PrepareWeight(width) => width
    case _ => before
  }

  /** Forward and housekeeping commands are accepted by their arguments and the prepared width alone. */
  predicate AcceptsArguments(m: AffineMlpKokkos, c: Command, prepared: int)
    requires m.mlp.layers != []
  {
    match c
    case Evaluate(input) => input.cols == m.mlp.InputSize()
    case EvaluateConditioned(input, rows) => m.AcceptsPass(input, rows) && !RecordedRun(m.mlp, c).Mismatched()
    case EvaluatePrefix(input, rows, resultRows, resultCols) =>
      && m.SupportsFinalLinearFactorization(input.cols) && resultRows == input.rows
      && resultCols == m.PrefixOutputSize(input.cols)
      && rows.PrefixDimensionsOk(input.rows, m.mlp.layers[0].OutputSize())
    case PrepareWeight(width) => prepared == width || (width >= 0 && m.mlp.SupportsConditionedInput(width))
    case _ => true
  }

  /** What the network's own record says about a reverse command. */
  predicate AcceptsNow(m: AffineMlpKokkos, c: Command)
    reads m, m.workspace
    requires m.mlp.layers != []
  {
    match c
    case Reverse(adjoint, resultRows, resultCols) =>
      OwnsArena(m) && m.AcceptsReverse(adjoint, resultRows, resultCols, m.LayerCount()) && !m.CacheIsStale()
    case ReversePrefix(adjoint, resultRows, resultCols) =>
      if m.tapeLayerCount == 0 then
        adjoint.rows == m.tapeBatchSize && adjoint.cols == m.tapeInputSize && resultRows == adjoint.rows
        && resultCols == adjoint.cols
      else
        && m.LayerCount() > 1 && m.mlp.layers[m.LayerCount() - 1].Linear? && OwnsArena(m)
        && m.AcceptsReverse(adjoint, resultRows, resultCols, m.LayerCount() - 1) && !m.CacheIsStale()
    case _ => AcceptsArguments(m, c, m.conditionedInputSize)
  }

  /** The generations agree: the arena is still this network's. */
  predicate OwnsArena(m: AffineMlpKokkos)
    reads m, m.workspace
  {
    m.tapeBatchSize >= 0 && m.tapeLayerCount >= 1 && m.tapeWorkspaceGeneration == m.workspace.generation
  }

  /** The outcome of a reverse command is the gradient of the given pass. */
  ghost predicate IsGradientOf(run: ForwardRun, adjoint: Matrix, outcome: Outcome) {
    && outcome.Ok? && run.Valid() && adjoint.Valid() && adjoint.rows == run.input.rows
    && adjoint.cols == run.W(run.count)
    && HoldsGradients(run, adjoint, outcome.value)
  }

  /** A call on m that leaves everything consistent around it. */
  twostate predicate CallOn(m: AffineMlpKokkos)
    reads m, m.workspace, m.workspace.valueStorage, m.workspace.adjointStorage
  {
    m.workspace == old(m.workspace) && m.Valid() && m.TapeIntact() && StepOn(m, m.workspace)
  }

  /** What command c did: it was accepted exactly when the network's record said so, and this is whose tape the arena
      holds now, which pass the network ran last, and what else it remembers. */
  twostate predicate Tracked(m: AffineMlpKokkos, c: Command, new outcome: Outcome)
    requires m.mlp.layers != []
    reads m, m.workspace
  {
    && (outcome.Ok? <==> old(AcceptsNow(m, c)))
    && (Records(m.mlp, c) && outcome.Ok? ==> m.Owns(RecordedRun(m.mlp, c)) && m.run.Holds(outcome.value, m.run.count))
    && (!(Records(m.mlp, c) && outcome.Ok?) ==> m.run == old(m.run))
    && (ReadsTape(m.mlp, c) && outcome.Ok? ==> IsGradientOf(m.run, c.adjoint, outcome))
    && (c.ReversePrefix? && old(m.tapeLayerCount) == 0 && outcome.Ok? ==> outcome.value == c.adjoint.data)
    && (GivesUp(m.mlp, c) && outcome.Ok? ==> outcome.value == c.input.data)
    && m.workspace.owner == OwnerAfter(m, c, outcome, old(m.workspace.owner))
    && m.conditionedInputSize == (if outcome.Ok? then PreparedBy(m.mlp, c, old(m.conditionedInputSize))
                                  else old(m.conditionedInputSize))
    && RecordAfter(m, c, outcome)
  }

  /** The arena's owner after a command. */
  ghost function OwnerAfter(m: AffineMlpKokkos, c: Command, outcome: Outcome, owner: AffineMlpKokkos?): AffineMlpKokkos?
    requires m.mlp.layers != []
  {
    if c.Clear? || (outcome.Err? && Displaces(m, c)) then null
    else if outcome.Ok? && Records(m.mlp, c) then m
    else if outcome.Ok? && GivesUp(m.mlp, c) && owner == m then null
    else owner
  }

  /** Whether the network remembers an identity prefix, and of which sizes. */
  twostate predicate RecordAfter(m: AffineMlpKokkos, c: Command, new outcome: Outcome)
    reads m
  {
    if c.Clear? || (outcome.Ok? && Records(m.mlp, c)) then m.tapeLayerCount != 0
    else if outcome.Ok? && GivesUp(m.mlp, c) then
      m.tapeLayerCount == 0 && m.tapeBatchSize == c.input.rows && m.tapeInputSize == c.input.cols
    else
      m.tapeLayerCount == old(m.tapeLayerCount) && m.tapeBatchSize == old(m.tapeBatchSize)
      && m.tapeInputSize == old(m.tapeInputSize)
  }

  /** The arenas are the old ones or new ones, so no workspace is handed another one's. */
  twostate predicate ArenaStays(w: Workspace)
    reads w
  {
    && (w.valueStorage == null || w.valueStorage == old(w.valueStorage) || fresh(w.valueStorage))
    && (w.adjointStorage == null || w.adjointStorage == old(w.adjointStorage) || fresh(w.adjointStorage))
  }

  /** One network of a system being called. */
  datatype Turn = Turn(networks: set<AffineMlpKokkos>, workspaces: set<Workspace>, caller: AffineMlpKokkos) {
    /** The caller made its call; nothing else was touched. */
    twostate predicate Taken()
      reads networks, workspaces, set w | w in workspaces :: w.valueStorage, set w | w in workspaces :: w.adjointStorage
    {
      && caller in networks && caller.workspace in workspaces && CallOn(caller)
      && (forall k <- networks :: k != caller ==> Untouched(k))
      && (forall u <- workspaces :: u != caller.workspace ==> Undisturbed(u))
    }

    /** Whoever else used the workspace is either undisturbed or no longer accepted. */
    twostate lemma NetworksKept()
      requires old(SystemValid(networks, workspaces)) && Taken()
      ensures forall k <- networks :: k.workspace in workspaces && k.Valid() && k.TapeIntact()
    {
      forall k | k in networks ensures k.workspace in workspaces && k.Valid() && k.TapeIntact() {
        if k != caller {
          assert Untouched(k) && old(k.Valid() && k.TapeIntact());
          assert if k.workspace == caller.workspace then StepOn(caller, k.workspace) else Undisturbed(k.workspace);
        }
      }
    }

    twostate lemma ArenasStay()
      requires Taken()
      ensures forall w <- workspaces :: ArenaStays(w)
    {
      forall w <- workspaces ensures ArenaStays(w) {
        assert w == caller.workspace || Undisturbed(w);
      }
    }

    /** The caller was moved to another workspace; no arena was touched and only the caller's own claim may be gone. */
    twostate predicate Moved()
      reads networks, workspaces, set w | w in workspaces :: w.valueStorage
    {
      && caller in networks && caller.workspace in workspaces && caller.Valid() && caller.TapeIntact()
      && (forall k <- networks :: k != caller ==> Untouched(k))
      && (forall u <- workspaces :: Undisturbed(u) || ReleasedBy(u))
      && (caller.workspace == old(caller.workspace) || forall u <- workspaces :: u.owner != caller)
    }

    twostate predicate ReleasedBy(u: Workspace)
      reads u, u.valueStorage
    {
      && u.valueStorage == old(u.valueStorage) && u.adjointStorage == old(u.adjointStorage)
      && u.generation == old(u.generation) && Content(u.valueStorage) == old(Content(u.valueStorage))
      && old(u.owner) == caller && u.owner == null
    }

    twostate lemma MoveKept()
      requires old(SystemValid(networks, workspaces)) && Moved()
      ensures SystemValid(networks, workspaces)
    {
      forall k | k in networks ensures k.workspace in workspaces && k.Valid() && k.TapeIntact() {
        if k != caller {
          assert Untouched(k) && old(k.Valid() && k.TapeIntact());
          assert Undisturbed(k.workspace) || ReleasedBy(k.workspace);
        }
      }
      forall u, v | u in workspaces && v in workspaces && u != v ensures Apart(u, v) {
        assert old(Apart(u, v) && Apart(v, u));
      }
    }

    twostate lemma WorkspacesKept()
      requires old(SystemValid(networks, workspaces)) && Taken()
      ensures forall w <- workspaces ::
                w.Separate() && (w.owner != null ==> w.owner in networks && w.owner.workspace == w)
      ensures forall w, u :: w in workspaces && u in workspaces && w != u ==> Apart(w, u)
    {
      forall u, v | u in workspaces && v in workspaces && u != v ensures Apart(u, v) {
        assert old(Apart(u, v) && Apart(v, u));
      }
    }
  }

  method EvaluateCommand(m: AffineMlpKokkos, c: Command) returns (outcome: Outcome)
    requires c.Evaluate?
    requires m.Valid() && m.TapeIntact() && m.workspace.Separate() && c.WellFormed(m)
    modifies m, m.workspace, m.workspace.valueStorage
    ensures CallOn(m) && Tracked(m, c, outcome)
  {
    outcome := m.Evaluate(c.input);
  }

  method ConditionedCommand(m: AffineMlpKokkos, c: Command) returns (outcome: Outcome)
    requires c.EvaluateConditioned?
    requires m.Valid() && m.TapeIntact() && m.workspace.Separate() && c.WellFormed(m)
    modifies m, m.workspace, m.workspace.valueStorage
    ensures CallOn(m) && Tracked(m, c, outcome)
  {
    outcome := m.EvaluateConditioned(c.input, c.rows);
  }

  method PrefixCommand(m: AffineMlpKokkos, c: Command) returns (outcome: Outcome)
    requires c.EvaluatePrefix?
    requires m.Valid() && m.TapeIntact() && m.workspace.Separate() && c.WellFormed(m)
    modifies m, m.workspace, m.workspace.valueStorage
    ensures CallOn(m) && Tracked(m, c, outcome)
  {
    outcome := m.EvaluateConditionedPrefix(c.input, c.rows, c.resultRows, c.resultCols);
  }

  method ReverseCommand(m: AffineMlpKokkos, c: Command) returns (outcome: Outcome)
    requires c.Reverse? || c.ReversePrefix?
    requires m.Valid() && m.TapeIntact() && m.workspace.Separate() && c.WellFormed(m)
    modifies m.workspace.adjointStorage
    ensures CallOn(m) && Tracked(m, c, outcome)
  {
    if c.Reverse? {
      outcome := m.ReverseFromTape(c.adjoint, c.resultRows, c.resultCols);
    } else {
      outcome := m.ReversePrefixFromTape(c.adjoint, c.resultRows, c.resultCols);
    }
  }

  method HousekeepingCommand(m: AffineMlpKokkos, c: Command) returns (outcome: Outcome)
    requires c.PrepareWeight? || c.Clear?
    requires m.Valid() && m.TapeIntact() && m.workspace.Separate() && c.WellFormed(m)
    modifies m, m.workspace
    ensures CallOn(m) && Tracked(m, c, outcome)
  {
    if c.PrepareWeight? {
      var prepared := m.PrepareConditionedWeight(c.width);
      outcome := if prepared.Ok? then Ok([]) else Err(prepared.error);
    } else {
      m.ClearWorkspace();
      outcome := Ok([]);
    }
  }

  /** The call a command stands for. */
  method Dispatch(m: AffineMlpKokkos, c: Command) returns (outcome: Outcome)
    requires m.Valid() && m.TapeIntact() && m.workspace.Separate() && c.WellFormed(m)
    modifies m, m.workspace, m.workspace.valueStorage, m.workspace.adjointStorage
    ensures CallOn(m) && Tracked(m, c, outcome)
  {
    match c
    case Evaluate(_) => outcome := EvaluateCommand(m, c);
    case EvaluateConditioned(_, _) => outcome := ConditionedCommand(m, c);
    case EvaluatePrefix(_, _, _, _) => outcome := PrefixCommand(m, c);
    case Reverse(_, _, _) => outcome := ReverseCommand(m, c);
    case ReversePrefix(_, _, _) => outcome := ReverseCommand(m, c);
    case PrepareWeight(_) => outcome := HousekeepingCommand(m, c);
    case Clear => outcome := HousekeepingCommand(m, c);
  }

  /** Runs one command on one network of the system. */
  method Execute(ghost S: set<AffineMlpKokkos>, ghost W: set<Workspace>, m: AffineMlpKokkos, c: Command)
    returns (outcome: Outcome)
    requires SystemValid(S, W) && m in S && c.WellFormed(m)
    modifies m, m.workspace, m.workspace.valueStorage, m.workspace.adjointStorage
    ensures SystemValid(S, W) && Turn(S, W, m).Taken() && Tracked(m, c, outcome)
  {
    ghost var w := m.workspace;
    assert forall u <- W :: u != w ==> Apart(u, w);
    outcome := Dispatch(m, c);
    assert forall u <- W :: u != w ==> Undisturbed(u);
    assert forall k <- S :: k != m ==> Untouched(k);
    ghost var turn := Turn(S, W, m);
    turn.NetworksKept();
    turn.WorkspacesKept();
  }

  /** Moves one network of the system to another of its workspaces. */
  method Attach(ghost S: set<AffineMlpKokkos>, ghost W: set<Workspace>, m: AffineMlpKokkos, w: Workspace)
    requires SystemValid(S, W) && m in S && w in W
    modifies m, m.workspace`owner
    ensures SystemValid(S, W) && m.workspace == w && MovedRecord(m)
    ensures forall k <- S :: k != m ==> Untouched(k)
    ensures forall u <- W :: u != old(m.workspace) ==> u.owner == old(u.owner)
    ensures ReleasedUnless(m, old(m.workspace)) && forall u <- W :: ArenaStays(u)
  {
    var attached := m.SetWorkspace(w);
    ghost var turn := Turn(S, W, m);
    turn.MoveKept();
  }

  // ---------------------------------------------------------------- whole runs

  /** One step of a run: a command for one network, or moving a network to another workspace. */
  datatype Call =
    | On(network: nat, command: Command)
    | Move(network: nat, workspace: nat)

  /** The sizes of an identity prefix, if that is what a network evaluated last. */
  datatype PrefixRecord = NoPrefix | IdentityPrefix(rows: nat, cols: nat)

  /** What a run has done so far, without the arenas: where each network is attached, which network (if any) last
      wrote each workspace's arena and has not been displaced since, the latest forward pass of each network, the
      width its cached weight has, and its identity prefix. */
  datatype History = History(attached: seq<nat>, writer: seq<int>, latest: seq<ForwardRun>, prepared: seq<int>,
                             prefixes: seq<PrefixRecord>)
  {
    predicate WellFormed(networks: nat, workspaces: nat) {
      && |attached| == |latest| == |prepared| == |prefixes| == networks && |writer| == workspaces
      && (forall i :: 0 <= i < networks ==> attached[i] < workspaces)
      && (forall w :: 0 <= w < workspaces ==> -1 <= writer[w] < networks)
    }

    predicate Knows(i: nat) {
      i < |attached| == |latest| == |prepared| == |prefixes| && attached[i] < |writer|
    }

    /** Network i no longer holds a claim on its workspace. */
    function Released(i: nat): seq<int>
      requires Knows(i)
    {
      if writer[attached[i]] == i then writer[attached[i] := -1] else writer
    }

    /** Network i, moved to workspace w. */
    function Moved(i: nat, w: nat): History
      requires Knows(i)
    {
      if w == attached[i] then this
      else this.(attached := attached[i := w], writer := Released(i), prefixes := prefixes[i := NoPrefix])
    }

    /** A reverse over `count` layers fits what network i ran last: nobody wrote its arena since, the layer counts and
        all sizes agree, and the cached weight, if it will be used, has the width of that pass. */
    predicate FitsTape(i: nat, m: AffineMlpKokkos, adjoint: Matrix, resultRows: nat, resultCols: nat, count: nat)
      requires Knows(i) && 1 <= count <= |m.mlp.layers|
    {
      var r := latest[i];
      && writer[attached[i]] == i && r.count == count
      && adjoint.rows == r.input.rows && adjoint.cols == m.mlp.layers[count - 1].OutputSize()
      && resultRows == r.input.rows && resultCols == r.input.cols
      && !(r.input.rows > 4 && r.input.cols < m.mlp.InputSize() && prepared[i] != r.input.cols)
    }

    /** Whether a command of network i is accepted. */
    predicate Accepts(i: nat, m: AffineMlpKokkos, c: Command)
      requires Knows(i) && m.mlp.layers != []
    {
      match c
      case Reverse(adjoint, resultRows, resultCols) => FitsTape(i, m, adjoint, resultRows, resultCols, |m.mlp.layers|)
      case ReversePrefix(adjoint, resultRows, resultCols) =>
        if prefixes[i].IdentityPrefix? then
          adjoint.rows == prefixes[i].rows && adjoint.cols == prefixes[i].cols && resultRows == adjoint.rows
          && resultCols == adjoint.cols
        else
          && |m.mlp.layers| > 1 && m.mlp.layers[|m.mlp.layers| - 1].Linear?
          && FitsTape(i, m, adjoint, resultRows, resultCols, |m.mlp.layers| - 1)
      case _ => AcceptsArguments(m, c, prepared[i])
    }

    /** The bookkeeping of one step. It needs the calls only. */
    function After(m: AffineMlpKokkos, call: Call): History
      requires Knows(call.network) && m.mlp.layers != []
    {
      var i := call.network;
      match call
      case Move(_, w) => Moved(i, w)
      case On(_, c) =>
        if c.Clear? then this.(writer := writer[attached[i] := -1], prefixes := prefixes[i := NoPrefix])
        else if Displaces(m, c) then this.(writer := writer[attached[i] := -1])
        else if !Accepts(i, m, c) then this
        else if Records(m.mlp, c) then
          History(attached, writer[attached[i] := i], latest[i := RecordedRun(m.mlp, c)],
                  prepared[i := PreparedBy(m.mlp, c, prepared[i])], prefixes[i := NoPrefix])
        else if GivesUp(m.mlp, c) then
          History(attached, Released(i), latest, prepared[i := PreparedBy(m.mlp, c, prepared[i])],
                  prefixes[i := IdentityPrefix(c.input.rows, c.input.cols)])
        else this.(prepared := prepared[i := PreparedBy(m.mlp, c, prepared[i])])
    }
  }

  ghost predicate Distinct<T>(s: seq<T>) {
    forall i, j :: 0 <= i < |s| && 0 <= j < |s| && s[i] == s[j] ==> i == j
  }

  /** The bookkeeping describes the real objects. */
  ghost predicate Describes(h: History, nets: seq<AffineMlpKokkos>, spaces: seq<Workspace>)
    reads nets, spaces
  {
    && h.WellFormed(|nets|, |spaces|)
    && (forall i: nat :: i < |nets| ==> DescribesNetwork(h, nets[i], i, spaces))
    && (forall w: nat :: w < |spaces| ==> DescribesWorkspace(h, spaces[w], w, nets))
  }

  ghost predicate DescribesNetwork(h: History, m: AffineMlpKokkos, i: nat, spaces: seq<Workspace>)
    requires i < |h.attached| == |h.latest| == |h.prepared| == |h.prefixes| && h.attached[i] < |spaces|
    reads m
  {
    && m.workspace == spaces[h.attached[i]] && m.run == h.latest[i] && m.conditionedInputSize == h.prepared[i]
    && DescribesPrefix(h.prefixes[i], m)
  }

  ghost predicate DescribesPrefix(prefix: PrefixRecord, m: AffineMlpKokkos)
    reads m
  {
    match prefix
    case NoPrefix => m.tapeLayerCount != 0
    case IdentityPrefix(rows, cols) => m.tapeLayerCount == 0 && m.tapeBatchSize == rows && m.tapeInputSize == cols
  }

  ghost predicate DescribesWorkspace(h: History, w: Workspace, i: nat, nets: seq<AffineMlpKokkos>)
    requires i < |h.writer| && -1 <= h.writer[i] < |nets|
    reads w
  {
    w.owner == if h.writer[i] == -1 then null else nets[h.writer[i]]
  }

  predicate Callable(nets: seq<AffineMlpKokkos>, spaces: seq<Workspace>, call: Call) {
    && call.network < |nets| && nets[call.network].mlp.layers != []
    && (call.Move? ==> call.workspace < |spaces|)
    && (call.On? ==> call.command.WellFormed(nets[call.network]))
  }

  /** What a step must have returned, judged by the bookkeeping alone. A call succeeds exactly when the bookkeeping
      accepts it. A reverse that reads a tape returns the gradients of that network's latest forward pass, one of an
      identity prefix hands the adjoint back, and a forward pass returns each sample's evaluation. */
  ghost predicate Sound(h: History, m: AffineMlpKokkos, call: Call, outcome: Outcome)
    requires h.Knows(call.network) && m.mlp.layers != []
  {
    call.On? ==>
      && (outcome.Ok? <==> h.Accepts(call.network, m, call.command))
      && (outcome.Ok? && ReadsTape(m.mlp, call.command) ==>
            IsGradientOf(h.latest[call.network], call.command.adjoint, outcome))
      && (outcome.Ok? && call.command.ReversePrefix? && h.prefixes[call.network].IdentityPrefix? ==>
            outcome.value == call.command.adjoint.data)
      && (outcome.Ok? && GivesUp(m.mlp, call.command) ==> outcome.value == call.command.input.data)
      && (outcome.Ok? && Records(m.mlp, call.command) ==>
            var r := RecordedRun(m.mlp, call.command);
            r.Valid() && r.Holds(outcome.value, r.count))
  }

  function Nets(nets: seq<AffineMlpKokkos>): set<AffineMlpKokkos> {
    set m | m in nets
  }

  function Spaces(spaces: seq<Workspace>): set<Workspace> {
    set w | w in spaces
  }

  /** The bookkeeping around one call. */
  datatype Scene = Scene(nets: seq<AffineMlpKokkos>, spaces: seq<Workspace>, h: History, call: Call) {
    ghost predicate Fits() {
      && Distinct(nets) && Distinct(spaces) && h.WellFormed(|nets|, |spaces|)
      && call.network < |nets| && (call.Move? ==> call.workspace < |spaces|) && nets[call.network].mlp.layers != []
    }

    function After(): History
      requires Fits()
    {
      h.After(nets[call.network], call)
    }

    /** A command rewrites only the caller and its workspace. */
    lemma AfterIsLocal()
      requires Fits()
      ensures After().WellFormed(|nets|, |spaces|)
      ensures forall i :: 0 <= i < |nets| && i != call.network ==>
                && After().latest[i] == h.latest[i] && After().attached[i] == h.attached[i]
                && After().prepared[i] == h.prepared[i] && After().prefixes[i] == h.prefixes[i]
      ensures forall w :: 0 <= w < |spaces| && w != h.attached[call.network] ==> After().writer[w] == h.writer[w]
    {
    }

    /** Everything the call did not concern is still described. */
    twostate lemma OthersDescribed()
      requires Fits() && old(Describes(h, nets, spaces))
      requires forall k <- nets :: k != nets[call.network] ==> Untouched(k)
      requires forall u <- spaces :: u != old(nets[call.network].workspace) ==> u.owner == old(u.owner)
      ensures After().WellFormed(|nets|, |spaces|)
      ensures forall i: nat :: i < |nets| && i != call.network ==> DescribesNetwork(After(), nets[i], i, spaces)
      ensures forall w: nat :: w < |spaces| && w != h.attached[call.network] ==>
                DescribesWorkspace(After(), spaces[w], w, nets)
    {
      AfterIsLocal();
      assert old(DescribesNetwork(h, nets[call.network], call.network, spaces));
      forall i: nat | i < |nets| && i != call.network ensures DescribesNetwork(After(), nets[i], i, spaces) {
        assert Untouched(nets[i]) && old(DescribesNetwork(h, nets[i], i, spaces));
      }
      forall w: nat | w < |spaces| && w != h.attached[call.network]
        ensures DescribesWorkspace(After(), spaces[w], w, nets)
      {
        assert old(DescribesWorkspace(h, spaces[w], w, nets));
      }
    }

    /** So are a caller that ran a command and its workspace, and the outcome is what the bookkeeping calls for. */
    twostate lemma CallerDescribed(new outcome: Outcome)
      requires Fits() && old(Describes(h, nets, spaces)) && call.On?
      requires nets[call.network].workspace == old(nets[call.network].workspace)
      requires Tracked(nets[call.network], call.command, outcome)
      requires old(AcceptsNow(nets[call.network], call.command)) <==>
               h.Accepts(call.network, nets[call.network], call.command)
      ensures After().WellFormed(|nets|, |spaces|)
      ensures DescribesNetwork(After(), nets[call.network], call.network, spaces)
      ensures DescribesWorkspace(After(), spaces[h.attached[call.network]], h.attached[call.network], nets)
      ensures Sound(h, nets[call.network], call, outcome)
    {
      AfterIsLocal();
      assert old(DescribesNetwork(h, nets[call.network], call.network, spaces));
      assert old(DescribesWorkspace(h, spaces[h.attached[call.network]], h.attached[call.network], nets));
    }

    /** So are a network that was moved and the workspace it left. */
    twostate lemma MovedDescribed()
      requires Fits() && old(Describes(h, nets, spaces)) && call.Move?
      requires nets[call.network].workspace == spaces[call.workspace]
      requires MovedRecord(nets[call.network])
      requires ReleasedUnless(nets[call.network], old(nets[call.network].workspace))
      ensures After().WellFormed(|nets|, |spaces|)
      ensures DescribesNetwork(After(), nets[call.network], call.network, spaces)
      ensures DescribesWorkspace(After(), spaces[h.attached[call.network]], h.attached[call.network], nets)
    {
      AfterIsLocal();
      assert old(DescribesNetwork(h, nets[call.network], call.network, spaces));
      assert old(DescribesWorkspace(h, spaces[h.attached[call.network]], h.attached[call.network], nets));
    }

    /** A move keeps the bookkeeping right. */
    twostate lemma MoveDescribed()
      requires Fits() && old(Describes(h, nets, spaces)) && call.Move?
      requires forall k <- nets :: k != nets[call.network] ==> Untouched(k)
      requires forall u <- spaces :: u != old(nets[call.network].workspace) ==> u.owner == old(u.owner)
      requires nets[call.network].workspace == spaces[call.workspace]
      requires MovedRecord(nets[call.network])
      requires ReleasedUnless(nets[call.network], old(nets[call.network].workspace))
      ensures Describes(After(), nets, spaces)
    {
      OthersDescribed();
      MovedDescribed();
    }

    /** So does a command, and its outcome is what the bookkeeping calls for. */
    twostate lemma CommandDescribed(new outcome: Outcome)
      requires Fits() && old(Describes(h, nets, spaces)) && call.On?
      requires forall k <- nets :: k != nets[call.network] ==> Untouched(k)
      requires forall u <- spaces :: u != old(nets[call.network].workspace) ==> u.owner == old(u.owner)
      requires nets[call.network].workspace == old(nets[call.network].workspace)
      requires Tracked(nets[call.network], call.command, outcome)
      requires old(AcceptsNow(nets[call.network], call.command)) <==>
               h.Accepts(call.network, nets[call.network], call.command)
      ensures Describes(After(), nets, spaces) && Sound(h, nets[call.network], call, outcome)
    {
      OthersDescribed();
      CallerDescribed(outcome);
    }
  }

  /** What a move leaves of a network's own record: all of it if the network stays where it is. */
  twostate predicate MovedRecord(m: AffineMlpKokkos)
    reads m
  {
    && m.run == old(m.run) && m.conditionedInputSize == old(m.conditionedInputSize)
    && if m.workspace != old(m.workspace) then m.tapeLayerCount == -1 else
         m.tapeLayerCount == old(m.tapeLayerCount) && m.tapeBatchSize == old(m.tapeBatchSize)
         && m.tapeInputSize == old(m.tapeInputSize)
  }

  /** The bookkeeping accepts a command exactly when the network's own record does. */
  lemma AcceptanceAgrees(nets: seq<AffineMlpKokkos>, spaces: seq<Workspace>, h: History, i: nat, c: Command)
    requires Describes(h, nets, spaces) && Distinct(nets) && i < |nets| && nets[i].Valid() && nets[i].TapeIntact()
    ensures AcceptsNow(nets[i], c) <==> h.Accepts(i, nets[i], c)
  {
    assert DescribesNetwork(h, nets[i], i, spaces);
    assert DescribesWorkspace(h, spaces[h.attached[i]], h.attached[i], nets);
    TapeAgrees(nets, spaces, h, i);
  }

  /** The arena is this network's exactly when the bookkeeping has it as the arena's last writer, and then the sizes
      the network has recorded are those of its latest pass. */
  lemma TapeAgrees(nets: seq<AffineMlpKokkos>, spaces: seq<Workspace>, h: History, i: nat)
    requires Describes(h, nets, spaces) && Distinct(nets) && i < |nets| && nets[i].Valid() && nets[i].TapeIntact()
    ensures OwnsArena(nets[i]) <==> h.writer[h.attached[i]] == i
    ensures OwnsArena(nets[i]) ==> nets[i].tapeBatchSize == h.latest[i].input.rows
                                   && nets[i].tapeInputSize == h.latest[i].input.cols
                                   && nets[i].tapeLayerCount == h.latest[i].count
  {
    assert DescribesNetwork(h, nets[i], i, spaces);
    assert DescribesWorkspace(h, spaces[h.attached[i]], h.attached[i], nets);
  }

  /** A network keeps its claim on the workspace it had only if it stays there. */
  twostate predicate ReleasedUnless(m: AffineMlpKokkos, was: Workspace)
    reads m, was
  {
    was.owner == if old(was.owner) == m && m.workspace != was then null else old(was.owner)
  }

  /** The networks and workspaces of a run, consistent and described by h. */
  ghost predicate Consistent(nets: seq<AffineMlpKokkos>, spaces: seq<Workspace>, h: History)
    reads nets, spaces, set w | w in spaces :: w.valueStorage, set w | w in spaces :: w.adjointStorage
  {
    Distinct(nets) && Distinct(spaces) && SystemValid(Nets(nets), Spaces(spaces)) && Describes(h, nets, spaces)
  }

  /** Where a run can start: networks without tapes on workspaces without arenas. */
  lemma FreshSystem(nets: seq<AffineMlpKokkos>, spaces: seq<Workspace>) returns (h: History)
    requires Distinct(nets) && Distinct(spaces)
    requires forall m <- nets :: m.Valid() && !m.Live() && m.workspace in spaces
    requires forall w <- spaces :: w.owner == null && w.valueStorage == null && w.adjointStorage == null
    ensures Consistent(nets, spaces, h)
  {
    h := History(seq(|nets|, i requires 0 <= i < |nets| reads nets => Position(spaces, nets[i].workspace)),
                 seq(|spaces|, _ => -1), seq(|nets|, i requires 0 <= i < |nets| reads nets => nets[i].run),
                 seq(|nets|, i requires 0 <= i < |nets| reads nets => nets[i].conditionedInputSize),
                 seq(|nets|, i requires 0 <= i < |nets| reads nets => PrefixOf(nets[i])));
    forall i: nat | i < |nets| ensures h.attached[i] < |spaces| && DescribesNetwork(h, nets[i], i, spaces) {
      assert nets[i].workspace in spaces;
    }
  }

  /** The identity prefix a network remembers. */
  ghost function PrefixOf(m: AffineMlpKokkos): (r: PrefixRecord)
    reads m
    ensures m.tapeLayerCount != 0 || (m.tapeBatchSize >= 0 && m.tapeInputSize >= 0) ==> DescribesPrefix(r, m)
  {
    if m.tapeLayerCount == 0 && m.tapeBatchSize >= 0 && m.tapeInputSize >= 0
    then IdentityPrefix(m.tapeBatchSize, m.tapeInputSize) else NoPrefix
  }

  /** Where w stands in the list; 0 if it does not. */
  ghost function Position(spaces: seq<Workspace>, w: Workspace): (i: nat)
    ensures w in spaces ==> i < |spaces| && spaces[i] == w
  {
    if w in spaces then var i: nat :| i < |spaces| && spaces[i] == w; i else 0
  }

  /** A command on the real objects, with the bookkeeping carried along. */
  method CommandStep(nets: seq<AffineMlpKokkos>, spaces: seq<Workspace>, n: nat, c: Command, ghost h: History)
    returns (outcome: Outcome)
    requires Consistent(nets, spaces, h) && Callable(nets, spaces, On(n, c))
    modifies nets[n], nets[n].workspace, nets[n].workspace.valueStorage, nets[n].workspace.adjointStorage
    ensures Consistent(nets, spaces, h.After(nets[n], On(n, c)))
    ensures Sound(h, nets[n], On(n, c), outcome) && forall w <- Spaces(spaces) :: ArenaStays(w)
  {
    var m := nets[n];
    assert m in Nets(nets) && DescribesNetwork(h, m, n, spaces);
    AcceptanceAgrees(nets, spaces, h, n, c);
    outcome := Execute(Nets(nets), Spaces(spaces), m, c);
    ghost var turn, scene := Turn(Nets(nets), Spaces(spaces), m), Scene(nets, spaces, h, On(n, c));
    turn.ArenasStay();
    scene.CommandDescribed(outcome);
  }

  /** Moving a network to another workspace, with the bookkeeping carried along. */
  method MoveStep(nets: seq<AffineMlpKokkos>, spaces: seq<Workspace>, n: nat, w: nat, ghost h: History)
    requires Consistent(nets, spaces, h) && n < |nets| && w < |spaces|
    modifies nets[n], nets[n].workspace`owner
    ensures Consistent(nets, spaces, h.Moved(n, w)) && forall w <- Spaces(spaces) :: ArenaStays(w)
  {
    var m := nets[n];
    assert m in Nets(nets) && spaces[w] in Spaces(spaces) && DescribesNetwork(h, m, n, spaces);
    Attach(Nets(nets), Spaces(spaces), m, spaces[w]);
    ghost var scene := Scene(nets, spaces, h, Move(n, w));
    scene.MoveDescribed();
  }

  /** All arenas of a run. */
  ghost function Arenas(spaces: seq<Workspace>): set<array?<real>>
    reads spaces
  {
    (set w | w in spaces :: w.valueStorage) + (set w | w in spaces :: w.adjointStorage)
  }

  /** When no workspace is handed another one's arena, all arenas are old ones or new ones. */
  twostate lemma ArenasTracked(spaces: seq<Workspace>)
    requires forall w <- Spaces(spaces) :: ArenaStays(w)
    ensures forall a <- Arenas(spaces) :: a == null || fresh(a) || a in old(Arenas(spaces))
  {
    forall a <- Arenas(spaces) ensures a == null || fresh(a) || a in old(Arenas(spaces)) {
      var w :| w in spaces && (a == w.valueStorage || a == w.adjointStorage);
      assert w in Spaces(spaces) && ArenaStays(w);
    }
  }

  /** One step of a run on the real objects. */
  method Step(nets: seq<AffineMlpKokkos>, spaces: seq<Workspace>, call: Call, ghost h: History)
    returns (outcome: Outcome)
    requires Consistent(nets, spaces, h) && Callable(nets, spaces, call)
    modifies nets, spaces, Arenas(spaces)
    ensures Consistent(nets, spaces, h.After(nets[call.network], call))
    ensures forall a <- Arenas(spaces) :: a == null || fresh(a) || a in old(Arenas(spaces))
    ensures Sound(h, nets[call.network], call, outcome)
  {
    assert DescribesNetwork(h, nets[call.network], call.network, spaces);
    assert nets[call.network].workspace in spaces;
    match call {
      case Move(n, w) =>
        MoveStep(nets, spaces, n, w, h);
        outcome := Ok([]);
      case On(n, c) =>
        outcome := CommandStep(nets, spaces, n, c, h);
    }
    ArenasTracked(spaces);
  }

  /** What a run leaves: a chain of bookkeeping states, each following from the one before by the call and outcome
      between them, with every outcome sound. */
  ghost predicate Chained(nets: seq<AffineMlpKokkos>, spaces: seq<Workspace>, script: seq<Call>, outcomes: seq<Outcome>,
                          trace: seq<History>, j: nat)
    requires j < |outcomes| <= |script| && |trace| == |outcomes| + 1
  {
    && Callable(nets, spaces, script[j]) && trace[j].WellFormed(|nets|, |spaces|)
    && trace[j + 1] == trace[j].After(nets[script[j].network], script[j])
    && Sound(trace[j], nets[script[j].network], script[j], outcomes[j])
  }

  /** The whole run so far is chained. */
  ghost predicate Explained(nets: seq<AffineMlpKokkos>, spaces: seq<Workspace>, script: seq<Call>,
                            outcomes: seq<Outcome>,
                            trace: seq<History>)
  {
    && |outcomes| <= |script| && |trace| == |outcomes| + 1
    && forall j: nat :: j < |outcomes| ==> Chained(nets, spaces, script, outcomes, trace, j)
  }

  lemma ExplainedGrows(nets: seq<AffineMlpKokkos>, spaces: seq<Workspace>, script: seq<Call>, outcomes: seq<Outcome>,
                       trace: seq<History>, outcome: Outcome, next: History)
    requires Explained(nets, spaces, script, outcomes, trace) && |outcomes| < |script|
    requires Chained(nets, spaces, script, outcomes + [outcome], trace + [next], |outcomes|)
    ensures Explained(nets, spaces, script, outcomes + [outcome], trace + [next])
  {
    forall j: nat | j < |outcomes| ensures Chained(nets, spaces, script, outcomes + [outcome], trace + [next], j) {
      assert Chained(nets, spaces, script, outcomes, trace, j);
    }
  }

  /** Makes the next call of the script. */
  method Advance(nets: seq<AffineMlpKokkos>, spaces: seq<Workspace>, script: seq<Call>, outcomes: seq<Outcome>,
                 ghost trace: seq<History>)
    returns (outcomes': seq<Outcome>, ghost trace': seq<History>)
    requires Explained(nets, spaces, script, outcomes, trace) && |outcomes| < |script|
    requires Consistent(nets, spaces, trace[|outcomes|]) && Callable(nets, spaces, script[|outcomes|])
    modifies nets, spaces, Arenas(spaces)
    ensures Explained(nets, spaces, script, outcomes', trace') && |outcomes'| == |outcomes| + 1 && trace'[0] == trace[0]
    ensures Consistent(nets, spaces, trace'[|outcomes'|])
    ensures forall a <- Arenas(spaces) :: a == null || fresh(a) || a in old(Arenas(spaces))
  {
    var call := script[|outcomes|];
    ghost var h := trace[|outcomes|];
    var outcome := Step(nets, spaces, call, h);
    ghost var next := h.After(nets[call.network], call);
    ExplainedGrows(nets, spaces, script, outcomes, trace, outcome, next);
    outcomes', trace' := outcomes + [outcome], trace + [next];
  }

  /** Any interleaving of calls on networks that share workspaces. The bookkeeping is a function of the calls and
      their outcomes alone, and every step of it is sound. */
  method Run(nets: seq<AffineMlpKokkos>, spaces: seq<Workspace>, script: seq<Call>, ghost start: History)
    returns (outcomes: seq<Outcome>, ghost trace: seq<History>)
    requires Consistent(nets, spaces, start) && forall call <- script :: Callable(nets, spaces, call)
    modifies nets, spaces, Arenas(spaces)
    ensures |outcomes| == |script| && Explained(nets, spaces, script, outcomes, trace) && trace[0] == start
    ensures Consistent(nets, spaces, trace[|script|])
  {
    outcomes, trace := [], [start];
    for k := 0 to |script|
      invariant |outcomes| == k && Explained(nets, spaces, script, outcomes, trace) && trace[0] == start
      invariant Consistent(nets, spaces, trace[k])
      invariant forall a <- Arenas(spaces) :: a == null || fresh(a) || a in old(Arenas(spaces))
    {
      outcomes, trace := Advance(nets, spaces, script, outcomes, trace);
    }
  }
}
