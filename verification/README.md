# Symmetrix: verified models of the numerical core

Symmetrix evaluates MACE machine-learned interatomic potentials inside LAMMPS. This project models five of its parts in
Dafny and proves what each is for. Real numbers stand for the program's floating-point numbers; sums, loops, buffers,
arenas and counters are modelled as the code has them.

**Radial tables** (`CubicSplines`, `SplineSolver`, `SplineAdjoint`, `CompactRadial`, `RadialNetworks`, `RadialBackprop`,
`RadialTables`, `RadialGradient`, `CutoffPolynomial`, `RadialCutoff`). A tridiagonal elimination turns node values into
slopes, Hermite pieces are made of them, and a hand-written transpose and a backpropagation undo the chain. The solver's
answer is the one and only slope vector that makes the spline smooth (continuous curvature, not-a-knot on the left, flat
on the right); the transpose is the exact adjoint for all inputs; backpropagation is checked against the derivative
obtained by running the network on dual numbers; and transposing and then backpropagating fills the weight buffers with
the gradient of all spline coefficients of all pairs. The factorized tables are those of the network in front of its
postprocessing. At the model's cutoff every spline has slope 0, and the networks without postprocessing all end at 0
exactly when every basis function does: the model's cutoff has reached the basis's own (the constructor lets them differ
by 1e-12) or the wave has a root there.

**Affine networks** (`DualNumbers`, `AffineLayers`, `AffineNetworks`, `AffineMlp`, `DenseKernels`, `AffineBatch`). Layer
lists of Linear, LayerNorm and SiLU of any depth: per-sample evaluation, forward-mode derivative, reverse-mode gradient,
the conditioned form with pre-multiplied segments, and the batched tape form. The reference meaning of "derivative" is
the same program run on dual numbers, so none of the slope formulas is taken on trust.

**Networks in a shared arena** (`AffineKernels`, `ArenaTapes`, `AffineMlpKokkosNetworks`, `SharedWorkspaces`,
`StaleWeights`). A workspace holds two flat arenas and a generation counter and is shared by many networks. Fused passes
leave tape slots unwritten. The proofs carry a ghost owner per workspace; a whole run of arbitrary calls on arbitrarily
many networks and workspaces is explained by a bookkeeping that sees only the calls, and that says of every call exactly
whether it is accepted and what it returns. The source does not re-check the width of the cached compact weight before
the reverse pass uses it; the product is then handed matrices whose extents do not match. `ReverseFromTapeImpl` states
for all inputs exactly when that makes a live tape fail, and `StaleWeights` gives the case and shows that preparing the
recorded width again repairs it.

**Distributed message passing** (`HaloExchange`, `HaloBuffers`, `MessageStages`, `MessageRounds`, `NeighbourEdges`,
`GhostGraph`). Features are copied from owners to ghosts by a schedule of swaps, adjoints come back by the same swaps in
reverse. The schedule is arbitrary, forwarding of ghosts included, as long as every ghost is received once and before it
is sent on. `MessageRound` runs the whole round on all ranks, with any local stages in the middle, and every message and
every owner's adjoint is that of the undivided graph. The code sorts the features by atom before they are sent, but
afterwards it takes positions in the list of owned atoms for atoms, twice: the stages behind the exchange read their own
features by position, and the adjoints that come back are handed out by position. Either is right exactly when the list
is the identity, for all stages and all adjoints (`PositionsReadAtoms`, `PositionsMustBeAtoms`, `RoundNeedsIdentity`);
`SwappedRound` is a round over the list [1, 0] that mixes up two nodes both ways.

**Retained topology and packets** (`EdgeTopology`, `EdgeClamping`, `CommPackets`, `SwapBounds`). Counting, scanning and
filling a compressed edge list, refreshing only its geometry while the neighbour list stands, pulling out-of-range edges
in to the cutoff, the overflow-checked packet sizes, and why one check of the largest ghost count covers every swap.

`FiniteSums`, `NestedSums`, `FlatIndex`, `RealArithmetic` and `Results` are shared vocabulary. What the operations compute
is also stated in the entries of the flat buffers, coordinates and weights, without the functions that the loops call.
`dafny verify dfyconfig.toml` checks the whole project.

## Model

| member | source | states |
|---|---|---|
| CubicSplines.JoinsIsUnique | libsymmetrix/source/cubic_spline.cpp:105-111 | the values and slopes at both ends of an interval fix the cubic: no other coefficients join them |
| CubicSplines.GenerateCoefficients | libsymmetrix/source/cubic_spline.cpp:92-113 | every stored piece meets both neighbouring values and slopes; rejected exactly for bad spacing or sizes |
| CubicSplines.Create | libsymmetrix/source/cubic_spline.cpp:8-18 | the finished spline is continuous with continuous slope across every node |
| CubicSplines.EntriesMeetData | libsymmetrix/source/cubic_spline.cpp:105-111 | what meeting the data means for entries 4i to 4i + 3 of the coefficient table |
| CubicSplines.CubicSpline.EvaluateDeriv | libsymmetrix/source/cubic_spline.cpp:44-66 | value and slope belong to the interval that holds r, agree at node boundaries, and are clamped at both ends; out-of-range r is refused only when the grid starts at 0 |
| CubicSplines.CubicSpline.ReadingIs | libsymmetrix/source/cubic_spline.cpp:44-66 | a reading in the entries of the table: value and slope of the cubic 4i to 4i + 3 of any interval i that holds r, at r minus x0 + h i; outside the grid, of the nearest interval at its end |
| SplineSolver.SystemIsSmoothness | libsymmetrix/source/compact_radial.cpp:338-348 | the assembled equations hold exactly when curvature is continuous at every interior node, third derivatives agree across node 1 and the last slope is 0 |
| SplineSolver.SystemMeans | libsymmetrix/source/compact_radial.cpp:338-348 | the solved system in the entries of the two tables, without a division |
| SplineSolver.SolutionIsUnique | libsymmetrix/source/compact_radial.cpp:350-358 | two slope vectors that solve the system are equal |
| SplineSolver.NextPivot | libsymmetrix/source/compact_radial.cpp:350-354 | a pivot of at least 3 leaves the next pivot at least 3, so nothing is ever divided by zero |
| SplineSolver.SlopesCharacterised | libsymmetrix/source/compact_radial.cpp:326-366 | a slope vector is the solver's answer if and only if it makes the spline smooth |
| SplineSolver.SlopesLinear | libsymmetrix/source/compact_radial.cpp:326-366 | slopes of a linear combination of tables are the combination of the slopes |
| SplineSolver.SlopesByMatrix | libsymmetrix/source/compact_radial.cpp:441-454 | the matrix built column by column from unit tables reproduces the solver on every table |
| SplineSolver.SlopesExactOnCubics | libsymmetrix/source/compact_radial.cpp:326-366 | on a sampled cubic that is flat at the last node the solver returns the cubic's slopes |
| SplineSolver.SlopesExactIffFlat | libsymmetrix/source/compact_radial.cpp:358-365 | it does so only for cubics that are flat at the last node |
| SplineSolver.SplineReproducesCubic | libsymmetrix/source/cubic_spline.cpp:44-66 | every reading of the spline through such a cubic, at any r in range, is the cubic's value and slope |
| CompactRadial.CompactRadialModel.BuildSystem | libsymmetrix/source/compact_radial.cpp:332-348 | the four arrays hold the spline equations of the interior nodes |
| CompactRadial.CompactRadialModel.Eliminate | libsymmetrix/source/compact_radial.cpp:350-354 | in-place elimination leaves an equivalent system whose pivots are all at least 3 |
| CompactRadial.CompactRadialModel.BackSubstitute | libsymmetrix/source/compact_radial.cpp:355-358 | the result solves every eliminated row |
| CompactRadial.CompactRadialModel.SplineDerivatives | libsymmetrix/source/compact_radial.cpp:326-366 | the returned slopes make the spline smooth and are the only ones that do; wrong sizes are rejected |
| CompactRadial.CompactRadialModel.EnsureDerivativeOperator | libsymmetrix/source/compact_radial.cpp:442-454 | the lazily built operator is the solver's matrix, and is kept once built |
| CompactRadial.CompactRadialModel.ScatterIntervals | libsymmetrix/source/compact_radial.cpp:473-482 | the interval loop leaves the direct value adjoints and the slope adjoints, touching one pair and function only |
| CompactRadial.CompactRadialModel.PullSlopes | libsymmetrix/source/compact_radial.cpp:483-487 | adds the slope adjoints multiplied by the transposed solver matrix |
| SplineAdjoint.PieceTransposed | libsymmetrix/source/compact_radial.cpp:474-481 | per interval, pairing with the Hermite coefficients equals pairing the scattered adjoints with values and slopes |
| SplineAdjoint.TransposeIsAdjoint | libsymmetrix/source/compact_radial.cpp:473-487 | pairing g with the coefficients of v equals pairing the transpose of g with v, for all g, v, spacings and sizes |
| CompactRadial.CompactRadialModel.TransposeSplineCoefficients | libsymmetrix/source/compact_radial.cpp:429-491 | the returned flat buffer is that adjoint for every pair, every function and every table; for all flat buffers c and v where c[((p (points - 1) + i) 4 + o) functions + f] is coefficient o of piece i of the spline through the table v[(p points + n) functions + f], the sum of adjoints[t] c[t] is the sum of result[t] v[t]; rejected exactly for bad extents |
| CompactRadial.CompactRadialModel.FlatPairing | libsymmetrix/source/compact_radial.cpp:468-487 | a buffer pairs with every table as the flat coefficient adjoints pair with its spline only if their two flat inner products with coefficients and tables are equal |
| RadialNetworks.ScaledSiluDerived | libsymmetrix/source/compact_radial.cpp:553-578 | the activation slope the reverse pass uses is the derivative of the scaled SiLU |
| RadialNetworks.TanhSquareDerived | libsymmetrix/source/compact_radial.cpp:562-568 | the postprocessing slope is the derivative of tanh of the square |
| RadialNetworks.Perceptron.DualLevelParts | libsymmetrix/source/compact_radial.cpp:540-556 | running the network on dual numbers whose weights move gives its values and closed-form tangents |
| RadialNetworks.Perceptron.LayerTransposed | libsymmetrix/source/compact_radial.cpp:570-591 | per layer, what the adjoint pairing loses the weight gradient gains |
| RadialNetworks.Perceptron.BackpropagationIsTheGradient | libsymmetrix/source/compact_radial.cpp:536-593 | pairing the output adjoint with the derivative along any weight change equals pairing the weight gradients with that change, at any depth, with or without postprocessing |
| RadialNetworks.Perceptron.AdjointsFactor | libsymmetrix/source/compact_radial.cpp:526-591 | without postprocessing the adjoints below the last layer are those of the network without it |
| RadialBackprop.ForwardSample | libsymmetrix/source/compact_radial.cpp:537-557 | the stored values and preactivations of one sample are the network's, layer by layer |
| RadialBackprop.Network.RunIsLevel | libsymmetrix/source/compact_radial.cpp:540-556 | the levels of the network are the vectors of a run written out in the entries of the flat weights, with the scaled SiLU behind every layer but the last |
| RadialBackprop.ReverseLayer | libsymmetrix/source/compact_radial.cpp:580-591 | the gradient buffer grows by the outer product, entry by entry, and the adjoint is pulled through the weight |
| RadialBackprop.AddSample | libsymmetrix/source/compact_radial.cpp:536-593 | all buffers grow by exactly one sample's weight gradients |
| RadialBackprop.BackpropagateNetworkNodalValues | libsymmetrix/source/compact_radial.cpp:493-596 | every weight's buffer is the sum of its gradients over all pairs and nodes; for a single layer without postprocessing that is, entry by entry, the sum over pairs and nodes of adjoints[(p points + k) width + o] times features[p][k inputs + i]; in factorized mode the last one is the given projection adjoint; the error conditions are exact |
| RadialBackprop.FullEqualsFactorized | libsymmetrix/source/compact_radial.cpp:493-596 | full mode on g and factorized mode on g pulled through the last weight, with the summed products of g and the penultimate values, give the same gradient of every weight |
| RadialTables.EvaluatePenultimateBatch | libsymmetrix/source/multilayer_perceptron.cpp:270-308 | each row of the batch is that sample's penultimate vector; wrong sizes are rejected |
| RadialTables.EvaluateBatch | libsymmetrix/source/multilayer_perceptron.cpp:246-268 | each row of the batch is that sample's output |
| RadialTables.EvaluateNetwork | libsymmetrix/source/compact_radial.cpp:269-289 | one spline per output function, holding the postprocessed outputs and their slopes |
| RadialTables.TableHoldsRun | libsymmetrix/source/compact_radial.cpp:269-289 | the table of function e holds at node k what any written-out run on features[k inputs] and the following ones ends with, postprocessed when the network says so |
| RadialTables.EvaluateFactorizedNetwork | libsymmetrix/source/compact_radial.cpp:291-324 | one spline per penultimate function, with the last weight as projection |
| RadialTables.ReconstructProjected | libsymmetrix/source/compact_radial.cpp:57-108 | projects values and slopes; accepted exactly for consistent extents |
| RadialTables.SlopesProject | libsymmetrix/source/compact_radial.cpp:97-104 | slopes of a projection of tables are the projection of their slopes |
| RadialTables.FactorizationLosesNothing | libsymmetrix/source/compact_radial.cpp:598-638 | for every network the reconstruction is the table of the last layer, in front of any postprocessing: values and slopes |
| RadialTables.NothingPostprocessed | libsymmetrix/source/compact_radial.cpp:598-638 | without postprocessing that table is the projected one, entry by entry |
| RadialTables.Report | libsymmetrix/source/compact_radial.cpp:598-638 | for every network the two errors are the largest differences between the tables of its outputs and those of its last layer; both are zero without postprocessing |
| RadialTables.LargestDifference | libsymmetrix/source/compact_radial.cpp:614-631 | the returned error bounds every difference and is attained |
| RadialGradient.TransposeThenBackpropagate | libsymmetrix/source/compact_radial.cpp:429-596 | over all pairs, functions and nodes: when the nodal adjoints are the transpose of the coefficient adjoints and the buffers are what backpropagation makes of them, the derivative of the paired coefficients along any weight change is the buffers paired with that change |
| RadialGradient.TangentsBelongToTables | libsymmetrix/source/compact_radial.cpp:269-289 | the derivative in that law is that of the tables: run on dual numbers, the network gives the table value of EvaluateNetwork together with the tangent used |
| RadialGradient.FlatGradient | libsymmetrix/source/compact_radial.cpp:429-596 | the law on flat buffers: the inner product of the coefficient adjoints with the derivatives of all spline coefficients is the sum of the inner products of the weight buffers with the weight changes, when the tables' derivatives at node k are taken at features[p][k inputs + i] |
| RadialGradient.CoefficientGradient | libsymmetrix/source/mace_kokkos_factorized_analysis.cpp:594-614 | transposing and then backpropagating returns buffers that pair with every weight change as the derivative of the paired coefficients does, also as flat inner products; rejected exactly for bad extents |
| CutoffPolynomial.Factors | libsymmetrix/source/compact_radial.cpp:249-256 | the cutoff expression is (1-x)^3 times the sum of (k+1)(k+2)/2 x^k for k < p, for every p and x |
| CutoffPolynomial.VanishesToThirdOrder | libsymmetrix/source/compact_radial.cpp:249-256 | on [0,1] it lies between (1-x)^3 and a constant times (1-x)^3 |
| CutoffPolynomial.CutoffValueInRange | libsymmetrix/source/compact_radial.cpp:249-256 | the factor lies in [0,1] and is zero exactly from r_max on |
| RadialCutoff.RadialBasis.RadialFeatures | libsymmetrix/source/compact_radial.cpp:227-265 | every entry of the flat feature table is its basis function at its grid node, transform and cutoff factor included; rejected exactly for a type out of range |
| RadialCutoff.RadialBasis.FeatureEntry | libsymmetrix/source/compact_radial.cpp:227-265 | entry k functions + b times the transformed distance is prefactor sin(weight[b] t) times the cutoff factor, for the t that solves the transform at r_min + (r_cut - r_min) k / (points - 1), covalent radii written out |
| RadialCutoff.RadialBasis.LastFeature | libsymmetrix/source/compact_radial.cpp:123-147 | at the last node a basis function is zero exactly when the model cutoff has reached the basis's own or its wave has a root there |
| RadialCutoff.ZeroInZeroOut | libsymmetrix/source/compact_radial.cpp:540-568 | networks without biases map zero to zero at every depth, whatever their weights, with or without postprocessing |
| RadialCutoff.RadialBasis.NetworksEndAtZero | libsymmetrix/source/compact_radial.cpp:110-185 | all networks the constructor accepts without postprocessing end at zero exactly when all basis functions do |
| RadialCutoff.RadialEntry.ReadingBeyond | libsymmetrix/source/compact_radial.cpp:359-366 | at the cutoff and beyond, a compiled spline reads the network's value at the cutoff with slope 0 |
| RadialCutoff.RadialEntry.ReadsZero | libsymmetrix/source/radial_function_set_kokkos.cpp:110-139 | when all basis functions end, a compiled spline reads value 0 and slope 0 at the cutoff |
| DualNumbers.SqrtRule | libsymmetrix/source/affine_mlp.cpp:201-203 | the rule for roots is the only one under which the square of the root is the number again |
| DualNumbers.DivRule | libsymmetrix/source/affine_mlp.cpp:199-203 | the rule for quotients is the only one under which the quotient times the divisor is the dividend |
| DualNumbers.SiluSlope | libsymmetrix/source/affine_mlp.cpp:25-34 | the slope formula is the derivative of SiLU |
| AffineLayers.DualForwardParts | libsymmetrix/source/affine_mlp.cpp:160-216 | every layer run on dual numbers gives its value and the closed-form tangent the code computes, LayerNorm statistics included |
| AffineLayers.LinearEntry | libsymmetrix/source/affine_mlp.cpp:246-258 | output i of a linear layer is bias[i] plus the sum of weight[i inputs + c] x[c] |
| AffineLayers.NormEntry | libsymmetrix/source/affine_mlp.cpp:259-269 | output i of LayerNorm is the one number v with (v - beta[i]) sqrt(variance + eps) = (x[i] - mean) gamma[i], mean and variance being those of the input |
| AffineLayers.SiluEntry | libsymmetrix/source/affine_mlp.cpp:270-273 | output i of SiLU is the one number v with v (1 + exp(-x[i])) = x[i] |
| AffineLayers.PullBackTransposes | libsymmetrix/source/affine_mlp.cpp:297-351 | per layer, the reverse formula is the transpose of the forward derivative |
| AffineNetworks.DerivativeCarriesValue | libsymmetrix/source/affine_mlp.cpp:142-219 | the value that travels with the derivative is the evaluation |
| AffineNetworks.GradientTransposesDerivative | libsymmetrix/source/affine_mlp.cpp:297-351 | for every layer list, pairing w with the derivative along dx equals pairing the gradient of w with dx |
| AffineNetworks.ConditionedEvaluation | libsymmetrix/source/affine_mlp.cpp:112-140 | dynamic input plus two pre-multiplied segments that tile the first layer evaluate like the concatenated input |
| AffineNetworks.ConditionedGradient | libsymmetrix/source/affine_mlp.cpp:287-295 | the conditioned gradient is the dynamic prefix of the full gradient |
| AffineMlp.SizedOutputIsWidth | libsymmetrix/source/affine_mlp.cpp:98-104 | skipping activations from the right finds the network's true output size |
| AffineMlp.AffineMLP.FirstLayerContribution | libsymmetrix/source/affine_mlp.cpp:112-127 | one column block of the first weight times the given values; rejected exactly when the block does not fit |
| AffineMlp.AffineMLP.EffectiveBias | libsymmetrix/source/affine_mlp.cpp:246-254 | conditioning changes the first bias and nothing else: both contributions are added to it, entry by entry |
| AffineMlp.AffineMLP.EvaluateImpl | libsymmetrix/source/affine_mlp.cpp:221-278 | returns the tape of the pass, whose last entry is the evaluation; the error condition is exact |
| AffineMlp.AffineMLP.EvaluateConditionedWithDirectionalDerivative | libsymmetrix/source/affine_mlp.cpp:142-219 | returns the evaluation and its derivative along the given direction |
| AffineMlp.AffineMLP.EvaluateGradientImpl | libsymmetrix/source/affine_mlp.cpp:297-351 | returns the gradient of the network that was evaluated |
| AffineBatch.EvaluateConditionedBatch | libsymmetrix/source/affine_mlp.cpp:353-421 | every row of the batch is the per-sample evaluation, for any batch size including zero, whatever the reused tape held |
| AffineBatch.BatchWorkspace.ReverseConditionedBatch | libsymmetrix/source/affine_mlp.cpp:423-496 | every row is that sample's gradient, across the buffer swap and the long rows of the first weight; tapes of the wrong shape are rejected |
| AffineKernels.CompactWeight | libsymmetrix/source/affine_mlp_kokkos.cpp:333-351 | the cached matrix is the leading columns of the first weight |
| AffineKernels.FusedNormSilu | libsymmetrix/source/affine_mlp_kokkos.cpp:444-472 | the fused stage computes SiLU of LayerNorm without the slot between them |
| AffineKernels.FusedNormSiluReverse | libsymmetrix/source/affine_mlp_kokkos.cpp:723-762 | the fused reverse recomputes what it needs and gives the adjoint of the two layers together |
| ArenaTapes.ForwardRun.WrittenSlot | libsymmetrix/source/affine_mlp_kokkos.cpp:302-330 | slots of one pass do not overlap in the arena |
| ArenaTapes.ForwardRun.TapeExtendedBy | libsymmetrix/source/affine_mlp_kokkos.cpp:443-530 | writing the next slot keeps every earlier written slot right, however many slots are skipped |
| ArenaTapes.LinearStage | libsymmetrix/source/affine_mlp_kokkos.cpp:473-516 | both linear paths, above and up to four samples, with compact or full weight, give the layer's values; a product is refused exactly when the extents of its operands do not match |
| ArenaTapes.ForwardRun.NetIsNetwork | libsymmetrix/source/affine_mlp_kokkos.cpp:486-515 | the network sample s runs through is the given one with row s of the table, or the two rows that the types of its edge and its target node select, added to the first bias |
| ArenaTapes.ForwardRun.FirstLayerValue | libsymmetrix/source/affine_mlp_kokkos.cpp:473-516 | first value of sample s, output j: bias[j] plus the weight product plus table[s outputs + j], or plus sourceTable[sourceEdgeTypes[firstEdge + s] outputs + j] + targetTable[nodeTypes[targetNodeIndices[firstEdge + s]] outputs + j] |
| ArenaTapes.ForwardRun.IndexedPassEvaluatesSegments | libsymmetrix/source/affine_mlp_kokkos.cpp:500-515 | when the tables hold the first-layer contributions of segments y and z for the types of the edge, the output row of an indexed pass is the evaluation of x + y + z, put one behind the other |
| ArenaTapes.LinearStageReverse | libsymmetrix/source/affine_mlp_kokkos.cpp:763-786 | both reverse paths give the layer's adjoints; the large one is refused exactly when its weight has another width than the tape |
| ArenaTapes.AdjointsAreGradients | libsymmetrix/source/affine_mlp_kokkos.cpp:721-804 | adjoints in front of the first layer are the gradients of each sample's own network |
| ArenaTapes.FinalLinearSplit | libsymmetrix/source/affine_mlp_kokkos.cpp:102-156 | with two or more layers, final weight times prefix plus final bias is the full evaluation |
| ArenaTapes.IdentityPrefixSplit | libsymmetrix/source/affine_mlp_kokkos.cpp:111-156 | with one layer the prefix is the input and the row contributions still have to be added |
| AffineMlpKokkosNetworks.Workspace.Clear | libsymmetrix/source/affine_mlp_kokkos.cpp:223-232 | drops the arenas, bumps the generation and leaves nobody owning them |
| AffineMlpKokkosNetworks.AffineMlpKokkos.Prepare | libsymmetrix/source/affine_mlp_kokkos.cpp:282-330 | arenas are large enough, views tile them, a new generation belongs to nobody yet |
| AffineMlpKokkosNetworks.AffineMlpKokkos.PrepareConditionedWeight | libsymmetrix/source/affine_mlp_kokkos.cpp:332-351 | the cache holds the leading columns for its width; repeated and unsupported widths change nothing |
| AffineMlpKokkosNetworks.AffineMlpKokkos.RunStages | libsymmetrix/source/affine_mlp_kokkos.cpp:443-530 | the left-to-right scan fills every slot it does not skip with the samples' values, whatever the arena held |
| AffineMlpKokkosNetworks.AffineMlpKokkos.ForwardImpl | libsymmetrix/source/affine_mlp_kokkos.cpp:397-535 | accepted exactly for consistent dimensions and extents, with or without contributions, full rows or leading columns; then the pass is this network's own live tape and the output is each sample's evaluation; a pass refused up front changes nothing, one refused at its first product leaves the arena to nobody |
| AffineMlpKokkosNetworks.AffineMlpKokkos.ScansAgree | libsymmetrix/source/affine_mlp_kokkos.cpp:443-530 | for every layer list and number of active layers the right-to-left scan visits exactly the slots the left-to-right scan wrote |
| AffineMlpKokkosNetworks.AffineMlpKokkos.ReverseStages | libsymmetrix/source/affine_mlp_kokkos.cpp:721-804 | the right-to-left scan reads written slots only and leaves the adjoints of the input; its last product is refused exactly when the cached weight is used and has another width |
| AffineMlpKokkosNetworks.AffineMlpKokkos.ReverseFromTapeImpl | libsymmetrix/source/affine_mlp_kokkos.cpp:702-805 | invalidated exactly when the workspace moved on; otherwise gradients of this network's own latest pass; fails late exactly when the cached weight was prepared for another width and would be used |
| AffineMlpKokkosNetworks.AffineMlpKokkos.Evaluate | libsymmetrix/source/affine_mlp_kokkos.cpp:537-541 | plain evaluation, recorded as this network's tape |
| AffineMlpKokkosNetworks.AffineMlpKokkos.EvaluateConditioned | libsymmetrix/source/affine_mlp_kokkos.cpp:543-571 | conditioned evaluation from a table or by index, recorded as this network's tape; accepted exactly for consistent extents and dimensions; output row s is the evaluation of the network whose first bias has row s of the table, or the two rows selected by edge firstEdge + s, added to it, with the flat positions written out; a table without data makes it a plain pass, as the null test has it |
| AffineMlpKokkosNetworks.AffineMlpKokkos.EvaluateConditionedPrefix | libsymmetrix/source/affine_mlp_kokkos.cpp:573-655 | all but the last layer; with one layer the input itself, and no arena is touched |
| AffineMlpKokkosNetworks.AffineMlpKokkos.ReverseFromTape | libsymmetrix/source/affine_mlp_kokkos.cpp:667-674 | accepted only from the arena's owner, with the gradients of its latest full pass |
| AffineMlpKokkosNetworks.AffineMlpKokkos.ReversePrefixFromTape | libsymmetrix/source/affine_mlp_kokkos.cpp:676-700 | the same for prefix passes; the identity prefix hands the adjoint back without a tape |
| AffineMlpKokkosNetworks.AffineMlpKokkos.ClearWorkspace | libsymmetrix/source/affine_mlp_kokkos.cpp:246-258 | no network that used the workspace has a live tape afterwards |
| AffineMlpKokkosNetworks.AffineMlpKokkos.SetWorkspace | libsymmetrix/source/affine_mlp_kokkos.cpp:260-280 | gives up this network's tape only; null is rejected, the same workspace is a no-op |
| SharedWorkspaces.Execute | libsymmetrix/source/affine_mlp_kokkos.cpp:397-805 | any one call on one network keeps every other network's tape right or no longer accepted |
| SharedWorkspaces.Attach | libsymmetrix/source/affine_mlp_kokkos.cpp:260-280 | moving a network between workspaces keeps the whole system consistent |
| SharedWorkspaces.FreshSystem | libsymmetrix/source/affine_mlp_kokkos.cpp:20-75 | networks without tapes on workspaces without arenas are a consistent start for any run |
| SharedWorkspaces.AcceptanceAgrees | libsymmetrix/source/affine_mlp_kokkos.cpp:223-805 | a bookkeeping of the calls alone (who wrote each arena last, each network's latest pass and prepared width) accepts a call exactly when the network's own counters do |
| SharedWorkspaces.Run | libsymmetrix/source/affine_mlp_kokkos.cpp:223-805 | for any interleaving of calls on any networks and workspaces, every call succeeds exactly when the bookkeeping accepts it, and every accepted reverse returns the gradients of its network's latest forward pass |
| StaleWeights.PrepareAndReverse | libsymmetrix/source/affine_mlp_kokkos.cpp:774-777 | preparing any width and then reversing a live tape of more than four conditioned samples succeeds exactly for the width of the tape |
| StaleWeights.PreparedForAnotherWidth | libsymmetrix/source/affine_mlp_kokkos.cpp:774-777 | preparing another width makes the tape just recorded fail; preparing the recorded width again makes the same call succeed |
| StaleWeights.ThreeInputCase | libsymmetrix/source/affine_mlp_kokkos.cpp:774-777 | a network built on a workspace of its own, and five samples, that fail this way |
| HaloExchange.Schedule.EveryCopyHoldsItsOwner | pair_symmetrix/pair_symmetrix_mace.cpp:261-283 | after the forward exchange every live slot holds its owner's features, and owners keep their own |
| HaloExchange.Schedule.ExchangeTransposed | pair_symmetrix/pair_symmetrix_mace.cpp:261-305 | the reverse exchange is the transpose of the forward exchange |
| HaloExchange.Schedule.OwnersCollect | pair_symmetrix/pair_symmetrix_mace.cpp:287-305 | each owner ends with the sum of the adjoints on all its copies on all ranks |
| HaloExchange.Schedule.SameFeatures | pair_symmetrix/pair_symmetrix_mace.cpp:535-557 | an edge-linear stage gives each receiver what the undivided graph gives it |
| HaloExchange.Schedule.SameAdjoints | pair_symmetrix/pair_symmetrix_mace.cpp:566-585 | and each owner the adjoint the undivided graph gives it |
| HaloExchange.Schedule.PositionsReadAtoms | pair_symmetrix/pair_symmetrix_mace.cpp:535-562 | after the forward exchange position ii holds the features of node ii, for all features, if and only if the list of owned atoms is the identity |
| HaloExchange.Schedule.PositionsMustBeAtoms | pair_symmetrix/pair_symmetrix_mace.cpp:576-587 | what the reverse exchange leaves at position ii is the undivided adjoint of node ii's own features, for all edge-linear stages and all message adjoints, if and only if the list of owned atoms is the identity |
| HaloExchange.SwappedPair | pair_symmetrix/pair_symmetrix_mace.cpp:576-587 | two owned atoms listed as [1, 0], a ghost and one edge: the adjoint of node 1 goes to node 0 |
| HaloBuffers.PairRank.PackForwardComm | pair_symmetrix/pair_symmetrix_mace.cpp:261-270 | each buffer position holds the listed atom's components; the count is exact |
| HaloBuffers.PairRank.UnpackForwardComm | pair_symmetrix/pair_symmetrix_mace.cpp:274-281 | the contiguous atoms get the buffer, every other component is unchanged |
| HaloBuffers.PairRank.PackReverseComm | pair_symmetrix/pair_symmetrix_mace.cpp:285-293 | each buffer position holds the adjoints of one atom of the range |
| HaloBuffers.PairRank.UnpackReverseComm | pair_symmetrix/pair_symmetrix_mace.cpp:297-305 | every atom grows by the sum of all positions that list it |
| HaloBuffers.ForwardComm | pair_symmetrix/pair_symmetrix_mace.cpp:543-550 | packing and unpacking every swap in order leaves every live slot with its owner's features |
| HaloBuffers.ReverseComm | pair_symmetrix/pair_symmetrix_mace.cpp:576-585 | replaying the swaps backwards leaves every owner with the sum over its copies |
| HaloBuffers.SortByAtom | pair_symmetrix/pair_symmetrix_mace.cpp:535-542 | each listed atom's row holds the features computed at its list position, and no other row changes |
| MessageStages.Gather | libsymmetrix/source/mace.cpp:1970-1999 | the message of every node is the sum over its edges of kernel times the neighbour's features, output by output, with coefficient and feature positions written out |
| MessageStages.GatheredIs | libsymmetrix/source/mace.cpp:1970-1999 | output q of the message of node i is the sum over the node's edges, from its first one on, of coefficient[edge outputs + q] times what the edge reads |
| MessageStages.Scatter | libsymmetrix/source/mace.cpp:2167-2195 | every atom's adjoint grows by the sum over the edges that end at it, and by nothing else |
| MessageStages.ScatteredIs | libsymmetrix/source/mace.cpp:2167-2195 | component p of a slot collects, from every edge that points at it, the coefficients of the outputs that read p times the adjoints of those outputs of the edge's node |
| MessageRounds.Machine.ExchangeDelivers | pair_symmetrix/pair_symmetrix_mace.cpp:543-551 | after sorting and exchange every neighbour's row on every rank holds its owner's features |
| MessageRounds.Machine.CopiesAreUndivided | pair_symmetrix/pair_symmetrix_mace.cpp:566-585 | summed over all copies on all ranks, what the transposed stages leave is the owner's adjoint on the undivided graph |
| MessageRounds.Machine.UndividedMessageIs | pair_symmetrix/pair_symmetrix_mace.cpp:551-557 | the undivided message of node i, written out: over the node's edges, coefficient times the features of the neighbour's owner |
| MessageRounds.Machine.HandedByIs | pair_symmetrix/pair_symmetrix_mace.cpp:566-585 | what a rank's edges hand to an owner on the undivided graph, written out: the edges whose neighbour's owner it is, coefficient times message adjoint |
| MessageRounds.MessageRound | pair_symmetrix/pair_symmetrix_mace.cpp:535-587 | one round over all ranks, for any local stages: messages and own rows are those of the undivided graph, and node ii is handed the undivided adjoint of the atom at its position |
| MessageRounds.RoundNeedsIdentity | pair_symmetrix/pair_symmetrix_mace.cpp:576-587 | on any graph a round hands every node its own adjoints, for all answers of the local stages, if and only if the rank's list is the identity |
| MessageRounds.SwappedRound | libsymmetrix/source/mace.cpp:2640-2646 | a round over the list [1, 0]: each node reads the other's features, and node 0 is handed node 1's adjoint |
| NeighbourEdges.EdgeRule.EdgePosition | pair_symmetrix/pair_symmetrix_mace.cpp:709-756 | the filling pass writes each kept neighbour at the place the counting pass left for it |
| NeighbourEdges.EdgeRule.EdgesAreKept | pair_symmetrix/pair_symmetrix_mace.cpp:696-706 | the edges of an atom are exactly its kept neighbours |
| GhostGraph.PairGraph.MarkGhosts | pair_symmetrix/pair_symmetrix_mace.cpp:660-682 | marked are exactly the atoms that are not owned and that an owned atom lists at a squared distance below the squared cutoff, coordinates written out |
| GhostGraph.Atoms.TakesPartMeans | pair_symmetrix/pair_symmetrix_mace.cpp:660-682 | the same for a single atom, without the functions the loops call |
| GhostGraph.Atoms.EdgeMeans | pair_symmetrix/pair_symmetrix_mace.cpp:733-756 | an edge of an atom is a listed neighbour with (xj-xi)^2 + (yj-yi)^2 + (zj-zi)^2 < rCutSquared, and nothing else is |
| GhostGraph.PairGraph.CollectGhosts | pair_symmetrix/pair_symmetrix_mace.cpp:688-693 | the marked atoms, each once, in increasing order |
| GhostGraph.PairGraph.PopulateNodes | pair_symmetrix/pair_symmetrix_mace.cpp:695-719 | owned atoms first, then the ghosts, nobody twice; counts, types and the index map are right |
| GhostGraph.PairGraph.Lookup | pair_symmetrix/pair_symmetrix_mace.cpp:751-752 | the subscript that may insert a default leaves all node indices right |
| GhostGraph.PairGraph.LocalEdgesEndAtNodes | pair_symmetrix/pair_symmetrix_mace.cpp:660-719 | every close neighbour of an owned atom is a node |
| GhostGraph.PairGraph.Build | pair_symmetrix/pair_symmetrix_mace.cpp:650-762 | the edge rows are the close neighbours of all nodes in order, owned atoms' rows first; a listed neighbour of a node has a row exactly when its squared distance, coordinates written out, is below the squared cutoff; each row holds neighbour, type and the vector from node to neighbour, coordinate by coordinate; neigh_indices is right for all rows of owned atoms, and for any row exactly when the neighbour is a node |
| EdgeTopology.PairTopology.RebuildNodes | pair_symmetrix/pair_symmetrix_mace_kokkos.cpp:1027-1067 | per receiver its edge count and first slot, and the total, agree with the edges in order |
| EdgeTopology.PairTopology.FillEdges | pair_symmetrix/pair_symmetrix_mace_kokkos.cpp:1080-1113 | every edge's geometry is written at its slot; topology rows are written on rebuild and kept on reuse |
| EdgeTopology.PairTopology.Update | pair_symmetrix/pair_symmetrix_mace_kokkos.cpp:989-1128 | after every step the views describe the current list and positions, rebuilt or reused, and rebuilt exactly when they must be; an edge is kept exactly when the skin is or its squared distance, coordinates written out, is below the squared cutoff; its row holds the vector from i to j, coordinate by coordinate, and its length, or both pulled in to the cutoff; the counters say which happened |
| EdgeTopology.RefreshAgainstRebuild | pair_symmetrix/pair_symmetrix_mace_kokkos.cpp:989-1128 | an object with any history of rebuilds and refreshes and one built for this step end the step with the same node and edge rows |
| EdgeClamping.StoredAtCutoff | pair_symmetrix/pair_symmetrix_mace_kokkos.cpp:1093-1110 | an edge within the cutoff is stored unchanged, any other at the cutoff exactly |
| EdgeClamping.StoredLength | pair_symmetrix/pair_symmetrix_mace_kokkos.cpp:1080-1119 | the stored distance squared is the sum of the three squared coordinate differences below the cutoff, and the distance is the cutoff beyond |
| EdgeClamping.RowLength | pair_symmetrix/pair_symmetrix_mace.cpp:740-750 | the same for a row of the graph built anew: r is the non-negative root of the sum of the three squares |
| EdgeClamping.DirectionKept | pair_symmetrix/pair_symmetrix_mace_kokkos.cpp:1093-1110 | clamping scales vector and distance by one positive factor |
| EdgeClamping.SkinEdgesAddNothing | pair_symmetrix/pair_symmetrix_mace_kokkos.cpp:1410-1432 | for every receiver, summing an edge function that vanishes at the cutoff over the clamped skin list equals summing it over the edges within the cutoff |
| RadialCutoff.SkinListIsHarmless | pair_symmetrix/pair_symmetrix_mace_kokkos.cpp:1410-1432 | terms linear in the value and slope read from compiled tables whose basis functions end are such functions, so the skin list changes no receiver's sum |
| CommPackets.CheckedCommValueCount | pair_symmetrix/pair_symmetrix_mace_kokkos.cpp:694-715 | exact product when it fits a signed 32-bit count, refused exactly otherwise, with no wrap-around on the way and negative counts refused |
| SwapBounds.RankCounts.ReceivesAtMostGhosts | pair_symmetrix/pair_symmetrix_mace_kokkos.cpp:1328-1339 | all swaps of a valid schedule together send a rank no more atoms than it has ghosts |
| SwapBounds.RankCounts.OneCheckCoversAllSwaps | pair_symmetrix/pair_symmetrix_mace_kokkos.cpp:1328-1339 | so if a packet of the largest ghost count of any rank fits, the packet of every swap fits, on both of its ranks |
| CommPackets.OffsetsDiffer | pair_symmetrix/pair_symmetrix_mace_kokkos.cpp:744-751 | no two components share a packet offset |
| CommPackets.EveryOffsetIsUsed | pair_symmetrix/pair_symmetrix_mace_kokkos.cpp:744-751 | every place of a packet is the offset of one component |
| CommPackets.PackForwardComm | pair_symmetrix/pair_symmetrix_mace_kokkos.cpp:720-757 | each place holds the component of the listed atom |
| CommPackets.StagedExchange | pair_symmetrix/pair_symmetrix_mace_kokkos.cpp:720-815 | packing on one rank and unpacking on another copies the listed rows and nothing else |
| CommPackets.UnpackForwardCommDirect | pair_symmetrix/pair_symmetrix_mace_kokkos.cpp:819-853 | the contiguous copy puts every component where the indexed unpacking puts it |

## Left out

- Floating-point rounding, NaN and infinity checks, and the single-precision builds: arithmetic is over exact reals.
- `exp` and `sqrt` are known only by positivity (and, where stated, `sqrt` as the square root); `tanh` (but for
  tanh(0) = 0 where stated), `sin` and `pow` are uninterpreted. The derivatives proved are those of the dual-number rules
  for these functions, which the project takes as the definition of their derivative.
- RadialCutoff.RadialBasis.RadialFeatures: says nothing of an Agnesi transform that divides by zero, where the program
  computes with infinities.
- JSON parsing, artifact loading, option parsing, logging and timing; a network or layer list arrives already checked for
  shape, as the constructors check it.
- BLAS and Kokkos kernels have their textbook contract; parallel loops run in one order, atomic additions are additions,
  fences and host-device copies are assignments. That `KokkosBlas::gemm` refuses operands whose extents do not match is
  the library's contract, not code of this repository; the late failures of a pass rest on it.
- Lookup of a network by name and of a pair by atom types in the compact radial model, with their out-of-range errors.
- `CubicSpline::evaluate` and `evaluate_deriv_divided`: the first is the value part of the modelled method, the second
  divides its slope by r. The conversion of the floor to a 32-bit int is not bounded.
- AffineMlpKokkosNetworks.AffineMlpKokkos.ForwardImpl: plain passes the source does not check and that read outside their
  views are left out, here and for EvaluateConditioned without tables: an input wider than the first layer, or narrower
  than a first LayerNorm. Copies of a network that share one tape are not modelled either.
- The workspace generation is an unbounded counter; the original wraps around after 2^64 generations.
- The phi-major copy of the final weight and the packed runtime parameters.
- MACE evaluator bodies: the message stage is linear in the neighbours' features with arbitrary coefficients per edge and
  output; the stages behind it are an arbitrary function of a rank's messages and own features. Which output reads which
  component is one table for all edges, and the streamed variants of the stage are taken to compute the same.
- MPI: the ranks' swaps take place one after the other, in the order of the schedule.
- Neighbour entries arrive with the special-bond bits already masked off.
- The topology fingerprint of the distributed Kokkos path, the fixed-workspace tiled plans and the rank-local edge-count
  limit; reuse is modelled by "the neighbour list has not changed since the last build", which the host guarantees.
- Reverse packets of the Kokkos pair style: the same arithmetic and accumulation as the modelled ones.
