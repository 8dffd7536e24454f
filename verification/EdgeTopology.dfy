/** The retained topology of the Kokkos pair style (pair_symmetrix/pair_symmetrix_mace_kokkos.cpp:989-1113): counting,
    scanning and filling when the graph is rebuilt, geometry alone when it is reused. */
module EdgeTopology {
  import opened RealArithmetic
  import opened NeighbourEdges
  import opened GhostGraph

  /** What stays the same between two neighbour-list builds: receivers, everybody's neighbours, the type of each atom
      and the owned atom each one stands for. */
  datatype NeighbourList = NeighbourList(ilist: seq<nat>, neighbours: seq<seq<nat>>, types: seq<int>, owner: seq<nat>) {
    predicate Valid(atoms: nat) {
      && |neighbours| == |types| == |owner| == atoms
      && (forall ii :: 0 <= ii < |ilist| ==> ilist[ii] < atoms)
      && (forall i :: 0 <= i < atoms ==> ListValid(neighbours[i], atoms))
    }

    predicate ListValid(list: seq<nat>, atoms: nat) {
      forall jj :: 0 <= jj < |list| ==> list[jj] < atoms
    }
  }

  /** Whether the whole skin list is kept, the cutoff, and the square root. */
  datatype Geometry = Geometry(stable: bool, rCut: real, sqrt: real -> real) {
    predicate Close(positions: seq<Position>, i: nat, j: nat)
      requires i < |positions| && j < |positions|
    {
      SquaredLength(Displacement(positions, i, j)) < rCut * rCut
    }

    /** Every listed pair when the whole skin is kept, else the pairs within the cutoff. */
    function Rule(list: NeighbourList, positions: seq<Position>): EdgeRule {
      if stable then EdgeRule(list.neighbours, (i, j) => true) else CutoffRule(list, positions)
    }

    function CutoffRule(list: NeighbourList, positions: seq<Position>): EdgeRule {
      EdgeRule(list.neighbours, (i, j) => 0 <= i < |positions| && 0 <= j < |positions| && Close(positions, i, j))
    }

    function Scale(distance: real): real
      requires rCut > 0.0
    {
      if stable && distance >= rCut then rCut / distance else 1.0
    }

    function Distance(positions: seq<Position>, i: nat, j: nat): real
      requires i < |positions| && j < |positions|
    {
      sqrt(SquaredLength(Displacement(positions, i, j)))
    }

    /** The stored distance: out-of-range edges are pulled in to the cutoff. */
    function StoredDistance(positions: seq<Position>, i: nat, j: nat): real
      requires rCut > 0.0 && i < |positions| && j < |positions|
    {
      var distance := Distance(positions, i, j);
      Scale(distance) * distance
    }

    function StoredVector(positions: seq<Position>, i: nat, j: nat): Position
      requires rCut > 0.0 && i < |positions| && j < |positions|
    {
      var d, scale := Displacement(positions, i, j), Scale(Distance(positions, i, j));
      Position(scale * d.x, scale * d.y, scale * d.z)
    }
  }

  // ---------------------------------------------------------------- what the views must hold

  ghost predicate NodeRowOk(rule: EdgeRule, list: NeighbourList, ii: int, index: nat, maceType: int, count: nat,
                            first: nat)
    requires rule.Inside(list.ilist) && 0 <= ii < |list.ilist| && list.ilist[ii] < |list.types|
  {
    && index == list.ilist[ii] && maceType == list.types[list.ilist[ii]]
    && count == |rule.EdgesOf(list.ilist[ii], rule.NeighbourCount(list.ilist[ii]))|
    && first == |rule.EdgesOfNodes(list.ilist, ii)|
  }

  ghost predicate NodesOk(rule: EdgeRule, list: NeighbourList, indices: seq<nat>, types: seq<int>, counts: seq<nat>,
                          firsts: seq<nat>)
    requires rule.Inside(list.ilist) && forall ii :: 0 <= ii < |list.ilist| ==> list.ilist[ii] < |list.types|
  {
    && |indices| >= |list.ilist| && |types| >= |list.ilist| && |counts| >= |list.ilist| && |firsts| >= |list.ilist|
    && forall ii :: 0 <= ii < |list.ilist| ==>
         NodeRowOk(rule, list, ii, indices[ii], types[ii], counts[ii], firsts[ii])
  }

  ghost predicate TopologyRowOk(list: NeighbourList, e: Edge, owner: nat, maceType: int) {
    e.j < |list.owner| && e.j < |list.types| && owner == list.owner[e.j] && maceType == list.types[e.j]
  }

  /** The first n edges have their topology rows. */
  ghost predicate TopologyRows(list: NeighbourList, edges: seq<Edge>, owners: seq<nat>, types: seq<int>, n: nat) {
    && n <= |edges| && |owners| >= |edges| && |types| >= |edges|
    && forall ij :: 0 <= ij < n ==> TopologyRowOk(list, edges[ij], owners[ij], types[ij])
  }

  ghost predicate GeometryRowOk(g: Geometry, positions: seq<Position>, e: Edge, vector: Position, distance: real)
    requires g.rCut > 0.0
  {
    && e.i < |positions| && e.j < |positions|
    && vector == g.StoredVector(positions, e.i, e.j) && distance == g.StoredDistance(positions, e.i, e.j)
  }

  ghost predicate GeometryRows(g: Geometry, positions: seq<Position>, edges: seq<Edge>, vectors: seq<Position>,
                               distances: seq<real>, n: nat)
    requires g.rCut > 0.0
  {
    && n <= |edges| && |vectors| >= |edges| && |distances| >= |edges|
    && forall ij :: 0 <= ij < n ==> GeometryRowOk(g, positions, edges[ij], vectors[ij], distances[ij])
  }

  /** These rows leave no freedom: whatever fills the views, by rebuilding or by reusing, fills them alike. */
  lemma RowsAreDetermined(g: Geometry, list: NeighbourList, positions: seq<Position>, edges: seq<Edge>,
                          owners: seq<nat>, types: seq<int>, vectors: seq<Position>, distances: seq<real>,
                          owners': seq<nat>, types': seq<int>, vectors': seq<Position>, distances': seq<real>)
    requires g.rCut > 0.0
    requires TopologyRows(list, edges, owners, types, |edges|) && TopologyRows(list, edges, owners', types', |edges|)
    requires GeometryRows(g, positions, edges, vectors, distances, |edges|)
    requires GeometryRows(g, positions, edges, vectors', distances', |edges|)
    ensures owners[..|edges|] == owners'[..|edges|] && types[..|edges|] == types'[..|edges|]
    ensures vectors[..|edges|] == vectors'[..|edges|] && distances[..|edges|] == distances'[..|edges|]
  {
    forall ij | 0 <= ij < |edges|
      ensures owners[ij] == owners'[ij] && types[ij] == types'[ij]
      ensures vectors[ij] == vectors'[ij] && distances[ij] == distances'[ij]
    {
      assert TopologyRowOk(list, edges[ij], owners[ij], types[ij])
             && TopologyRowOk(list, edges[ij], owners'[ij], types'[ij]);
      assert GeometryRowOk(g, positions, edges[ij], vectors[ij], distances[ij]);
      assert GeometryRowOk(g, positions, edges[ij], vectors'[ij], distances'[ij]);
    }
  }

  /** Grows a view when it is too small; its old contents are lost then. */
  function Reallocated<T>(view: seq<T>, n: nat, fill: T): (r: seq<T>)
    ensures |r| >= n && (|view| >= n ==> r == view)
  {
    if |view| < n then seq(n, _ => fill) else view
  }

  // ---------------------------------------------------------------- the pair style

  class PairTopology {
    const g: Geometry
    var nodeIndices: seq<nat>
    var nodeTypes: seq<int>
    var numNeigh: seq<nat>
    var firstNeigh: seq<nat>
    var neighIndices: seq<nat>
    var neighTypes: seq<int>
    var xyz: seq<Position>
    var r: seq<real>
    var graphGeneration: nat
    var executionNumNodes: nat
    var executionNumEdges: nat
    var rebuildCount: nat
    var refreshCount: nat
    var geometryOnlyCount: nat
    /** The list the retained graph was built from. */
    ghost var builtFrom: NeighbourList

    /** A retained graph is the graph of the list it was built from. */
    ghost predicate Valid()
      reads this
    {
      && g.rCut > 0.0
      && (g.stable && graphGeneration != 0 ==>
            && builtFrom.Valid(|builtFrom.types|) && executionNumNodes == |builtFrom.ilist|
            && executionNumEdges == |Edges(builtFrom, [])|
            && TopologyCurrent(builtFrom, []))
    }

    ghost function Edges(list: NeighbourList, positions: seq<Position>): seq<Edge>
      requires list.Valid(|list.types|)
    {
      g.Rule(list, positions).EdgesOfNodes(list.ilist, |list.ilist|)
    }

    ghost predicate TopologyCurrent(list: NeighbourList, positions: seq<Position>)
      reads this
      requires list.Valid(|list.types|)
    {
      && NodesOk(g.Rule(list, positions), list, nodeIndices, nodeTypes, numNeigh, firstNeigh)
      && TopologyRows(list, Edges(list, positions), neighIndices, neighTypes, |Edges(list, positions)|)
    }

    /** Everything describes this list at these positions. */
    ghost predicate Current(list: NeighbourList, positions: seq<Position>)
      reads this
      requires g.rCut > 0.0 && list.Valid(|list.types|)
    {
      && TopologyCurrent(list, positions)
      && GeometryRows(g, positions, Edges(list, positions), xyz, r, |Edges(list, positions)|)
    }

    constructor (g: Geometry)
      requires g.rCut > 0.0
      ensures Valid() && this.g == g && graphGeneration == 0
    {
      this.g := g;
      nodeIndices, nodeTypes, numNeigh, firstNeigh := [], [], [], [];
      neighIndices, neighTypes, xyz, r := [], [], [], [];
      graphGeneration, executionNumNodes, executionNumEdges := 0, 0, 0;
      rebuildCount, refreshCount, geometryOnlyCount := 0, 0, 0;
    }

    /** When the topology is rebuilt rather than reused. */
    predicate NeedsRebuild(list: NeighbourList, ago: int)
      reads this
    {
      !g.stable || graphGeneration == 0 || ago == 0 || |list.ilist| != executionNumNodes
    }

    /** Number of edges of one receiver. */
    method CountNeighbours(list: NeighbourList, positions: seq<Position>, i: nat) returns (count: nat)
      requires list.Valid(|positions|) && i < |positions|
      ensures count == |g.Rule(list, positions).EdgesOf(i, |list.neighbours[i]|)|
    {
      count := 0;
      for jj := 0 to |list.neighbours[i]|
        invariant count == |g.Rule(list, positions).EdgesOf(i, jj)|
      {
        assert list.ListValid(list.neighbours[i], |positions|);
        var j := list.neighbours[i][jj];
        if g.stable || g.Close(positions, i, j) {
          count := count + 1;
        }
      }
    }

    /** The node loop, the edge count and the scan. */
    method RebuildNodes(list: NeighbourList, positions: seq<Position>) returns (numEdges: nat)
      requires list.Valid(|positions|)
      requires |nodeIndices| >= |list.ilist| && |nodeTypes| >= |list.ilist|
      requires |numNeigh| >= |list.ilist| && |firstNeigh| >= |list.ilist|
      modifies this`nodeIndices, this`nodeTypes, this`numNeigh, this`firstNeigh
      ensures NodesOk(g.Rule(list, positions), list, nodeIndices, nodeTypes, numNeigh, firstNeigh)
      ensures numEdges == |Edges(list, positions)|
    {
      ghost var rule := g.Rule(list, positions);
      numEdges := 0;
      for ii := 0 to |list.ilist|
        invariant |nodeIndices| >= |list.ilist| && |nodeTypes| >= |list.ilist|
        invariant |numNeigh| >= |list.ilist| && |firstNeigh| >= |list.ilist|
        invariant numEdges == |rule.EdgesOfNodes(list.ilist, ii)|
        invariant forall k :: 0 <= k < ii ==>
                    NodeRowOk(rule, list, k, nodeIndices[k], nodeTypes[k], numNeigh[k], firstNeigh[k])
      {
        var i := list.ilist[ii];
        var count := CountNeighbours(list, positions, i);
        nodeIndices, nodeTypes := nodeIndices[ii := i], nodeTypes[ii := list.types[i]];
        numNeigh, firstNeigh := numNeigh[ii := count], firstNeigh[ii := numEdges];
        numEdges := numEdges + count;
      }
    }

    /** One row of the edge loop; topology only when it is being rebuilt. */
    method FillRow(list: NeighbourList, positions: seq<Position>, rebuild: bool, ghost edges: seq<Edge>, ij: nat,
                   i: nat, j: nat)
      requires g.rCut > 0.0 && list.Valid(|positions|) && i < |positions| && j < |positions|
      requires TopologyRows(list, edges, neighIndices, neighTypes, if rebuild then ij else |edges|)
      requires GeometryRows(g, positions, edges, xyz, r, ij) && ij < |edges| && edges[ij] == Edge(i, j)
      modifies this`neighIndices, this`neighTypes, this`xyz, this`r
      ensures TopologyRows(list, edges, neighIndices, neighTypes, if rebuild then ij + 1 else |edges|)
      ensures GeometryRows(g, positions, edges, xyz, r, ij + 1)
    {
      var d := Displacement(positions, i, j);
      var distance := g.sqrt(SquaredLength(d));
      var scale := g.Scale(distance);
      if rebuild {
        neighIndices, neighTypes := neighIndices[ij := list.owner[j]], neighTypes[ij := list.types[j]];
      }
      xyz, r := xyz[ij := Position(scale * d.x, scale * d.y, scale * d.z)], r[ij := scale * distance];
      assert GeometryRowOk(g, positions, edges[ij], xyz[ij], r[ij]);
    }

    /** The row of one neighbour, if it is kept. */
    method FillNeighbour(list: NeighbourList, positions: seq<Position>, rebuild: bool, ghost edges: seq<Edge>, ii: nat,
                         jj: nat, ij: nat)
      returns (next: nat)
      requires g.rCut > 0.0 && list.Valid(|positions|) && edges == Edges(list, positions)
      requires ii < |list.ilist| && jj < |list.neighbours[list.ilist[ii]]|
      requires ij == |g.Rule(list, positions).EdgesOfNodes(list.ilist, ii)|
                     + |g.Rule(list, positions).EdgesOf(list.ilist[ii], jj)|
      requires TopologyRows(list, edges, neighIndices, neighTypes, if rebuild then ij else |edges|)
      requires GeometryRows(g, positions, edges, xyz, r, ij)
      modifies this`neighIndices, this`neighTypes, this`xyz, this`r
      ensures next == |g.Rule(list, positions).EdgesOfNodes(list.ilist, ii)|
                      + |g.Rule(list, positions).EdgesOf(list.ilist[ii], jj + 1)|
      ensures TopologyRows(list, edges, neighIndices, neighTypes, if rebuild then next else |edges|)
      ensures GeometryRows(g, positions, edges, xyz, r, next)
    {
      var i := list.ilist[ii];
      var j := list.neighbours[i][jj];
      assert list.ListValid(list.neighbours[i], |positions|);
      next := ij;
      if g.stable || g.Close(positions, i, j) {
        g.Rule(list, positions).EdgePosition(list.ilist, ii, jj);
        FillRow(list, positions, rebuild, edges, ij, i, j);
        next := ij + 1;
      }
    }

    /** The edge loop. Each receiver starts at its own first slot. */
    method FillEdges(list: NeighbourList, positions: seq<Position>, rebuild: bool, ghost edges: seq<Edge>)
      requires g.rCut > 0.0 && list.Valid(|positions|) && edges == Edges(list, positions)
      requires NodesOk(g.Rule(list, positions), list, nodeIndices, nodeTypes, numNeigh, firstNeigh)
      requires TopologyRows(list, edges, neighIndices, neighTypes, if rebuild then 0 else |edges|)
      requires GeometryRows(g, positions, edges, xyz, r, 0)
      modifies this`neighIndices, this`neighTypes, this`xyz, this`r
      ensures TopologyRows(list, edges, neighIndices, neighTypes, |edges|)
      ensures GeometryRows(g, positions, edges, xyz, r, |edges|)
    {
      ghost var rule := g.Rule(list, positions);
      for ii := 0 to |list.ilist|
        invariant TopologyRows(list, edges, neighIndices, neighTypes,
                               if rebuild then |rule.EdgesOfNodes(list.ilist, ii)| else |edges|)
        invariant GeometryRows(g, positions, edges, xyz, r, |rule.EdgesOfNodes(list.ilist, ii)|)
      {
        assert NodeRowOk(rule, list, ii, nodeIndices[ii], nodeTypes[ii], numNeigh[ii], firstNeigh[ii]);
        FillNode(list, positions, rebuild, edges, ii, firstNeigh[ii]);
      }
    }

    /** The rows of one receiver. */
    method FillNode(list: NeighbourList, positions: seq<Position>, rebuild: bool, ghost edges: seq<Edge>, ii: nat,
                    first: nat)
      requires g.rCut > 0.0 && list.Valid(|positions|) && edges == Edges(list, positions) && ii < |list.ilist|
      requires first == |g.Rule(list, positions).EdgesOfNodes(list.ilist, ii)|
      requires TopologyRows(list, edges, neighIndices, neighTypes, if rebuild then first else |edges|)
      requires GeometryRows(g, positions, edges, xyz, r, first)
      modifies this`neighIndices, this`neighTypes, this`xyz, this`r
      ensures TopologyRows(list, edges, neighIndices, neighTypes,
                           if rebuild then |g.Rule(list, positions).EdgesOfNodes(list.ilist, ii + 1)| else |edges|)
      ensures GeometryRows(g, positions, edges, xyz, r, |g.Rule(list, positions).EdgesOfNodes(list.ilist, ii + 1)|)
    {
      var i, ij := list.ilist[ii], first;
      for jj := 0 to |list.neighbours[i]|
        invariant ij == first + |g.Rule(list, positions).EdgesOf(i, jj)|
        invariant TopologyRows(list, edges, neighIndices, neighTypes, if rebuild then ij else |edges|)
        invariant GeometryRows(g, positions, edges, xyz, r, ij)
      {
        ij := FillNeighbour(list, positions, rebuild, edges, ii, jj, ij);
      }
    }

    /** One time step. As long as the host rebuilds its list only when it says so, the views describe the current list
        and positions after every step, whether the topology was rebuilt or reused. */
    method Update(list: NeighbourList, positions: seq<Position>, ago: int)
      requires Valid() && list.Valid(|positions|)
      requires !NeedsRebuild(list, ago) ==> list == builtFrom
      modifies this
      ensures Valid() && Current(list, positions)
      ensures rebuildCount == old(rebuildCount) + (if g.stable && old(NeedsRebuild(list, ago)) then 1 else 0)
      ensures refreshCount == old(refreshCount) + (if g.stable then 1 else 0)
      ensures geometryOnlyCount == old(geometryOnlyCount) + (if old(NeedsRebuild(list, ago)) then 0 else 1)
      ensures g.stable ==> builtFrom == list && graphGeneration != 0
      ensures old(NeedsRebuild(list, ago)) <==>
              !g.stable || old(graphGeneration) == 0 || ago == 0 || |list.ilist| != old(executionNumNodes)
      ensures forall e: Edge :: e in Edges(list, positions) <==>
                e.i in list.ilist && e.i < |positions| && e.j in list.neighbours[e.i] && IsKept(positions, e.i, e.j)
      ensures forall ij :: 0 <= ij < |Edges(list, positions)| ==>
                IsStored(list, positions, Edges(list, positions)[ij], neighIndices[ij], neighTypes[ij], xyz[ij], r[ij])
    {
      var rebuild := NeedsRebuild(list, ago);
      var numEdges := PrepareNodes(list, positions, rebuild);
      RefreshEdges(list, positions, rebuild, numEdges);
      Account(list, rebuild, numEdges);
      RowsMean(list, positions);
    }

    /** The pair is kept: always when the whole skin is, else when its squared distance, coordinate by coordinate, is
        below the square of the cutoff. */
    ghost predicate IsKept(positions: seq<Position>, i: nat, j: nat) {
      && i < |positions| && j < |positions|
      && (g.stable
          || (positions[j].x - positions[i].x) * (positions[j].x - positions[i].x)
             + (positions[j].y - positions[i].y) * (positions[j].y - positions[i].y)
             + (positions[j].z - positions[i].z) * (positions[j].z - positions[i].z) < g.rCut * g.rCut)
    }

    /** One stored row, coordinate by coordinate: the vector from i to j and its length, or both pulled in to the
        cutoff. */
    ghost predicate IsStored(list: NeighbourList, positions: seq<Position>, e: Edge, owner: nat, maceType: int,
                             vector: Position, distance: real)
    {
      && e.i < |positions| && e.j < |positions| == |list.owner| == |list.types|
      && owner == list.owner[e.j] && maceType == list.types[e.j]
      && var dx, dy, dz := positions[e.j].x - positions[e.i].x, positions[e.j].y - positions[e.i].y,
                           positions[e.j].z - positions[e.i].z;
         var length := g.sqrt(SquaredLength(Position(dx, dy, dz)));
         if g.stable && length >= g.rCut then
           && distance == g.rCut
           && vector.x * length == dx * g.rCut && vector.y * length == dy * g.rCut && vector.z * length == dz * g.rCut
         else distance == length && vector == Position(dx, dy, dz)
    }

    lemma EdgeMeans(list: NeighbourList, positions: seq<Position>, i: nat, e: Edge)
      requires list.Valid(|positions|) && i < |positions|
      ensures e in g.Rule(list, positions).EdgesOf(i, |list.neighbours[i]|) <==>
              e.i == i && e.j in list.neighbours[i] && IsKept(positions, e.i, e.j)
    {
      g.Rule(list, positions).EdgesAreKept(i, |list.neighbours[i]|, e);
      assert list.neighbours[i][..|list.neighbours[i]|] == list.neighbours[i];
      assert list.ListValid(list.neighbours[i], |positions|);
    }

    lemma {:induction false} GraphEdgeMeans(list: NeighbourList, positions: seq<Position>, n: nat, e: Edge)
      requires list.Valid(|positions|) && n <= |list.ilist|
      ensures e in g.Rule(list, positions).EdgesOfNodes(list.ilist, n) <==>
              e.i in list.ilist[..n] && e.i < |positions| && e.j in list.neighbours[e.i] && IsKept(positions, e.i, e.j)
    {
      if n == 0 {
      } else {
        GraphEdgeMeans(list, positions, n - 1, e);
        EdgeMeans(list, positions, list.ilist[n - 1], e);
        assert list.ilist[..n] == list.ilist[..n - 1] + [list.ilist[n - 1]];
      }
    }

    lemma RowMeans(list: NeighbourList, positions: seq<Position>, e: Edge, owner: nat, maceType: int,
                   vector: Position, distance: real)
      requires g.rCut > 0.0 && list.Valid(|positions|)
      requires TopologyRowOk(list, e, owner, maceType) && GeometryRowOk(g, positions, e, vector, distance)
      ensures IsStored(list, positions, e, owner, maceType, vector, distance)
    {
      var d, length := Displacement(positions, e.i, e.j), g.Distance(positions, e.i, e.j);
      if g.stable && length >= g.rCut {
        PulledIn(g.rCut, length, d.x, vector.x);
        PulledIn(g.rCut, length, d.y, vector.y);
        PulledIn(g.rCut, length, d.z, vector.z);
        DivisionUndone(g.rCut, length);
      }
    }

    static lemma PulledIn(rCut: real, length: real, dx: real, x: real)
      requires rCut > 0.0 && length >= rCut && x == rCut / length * dx
      ensures x * length == dx * rCut
    {
      DivisionUndone(rCut, length);
      assert x * length == rCut / length * length * dx;
    }

    lemma RowsMean(list: NeighbourList, positions: seq<Position>)
      requires g.rCut > 0.0 && list.Valid(|positions|) && Current(list, positions)
      ensures forall e: Edge :: e in Edges(list, positions) <==>
                e.i in list.ilist && e.i < |positions| && e.j in list.neighbours[e.i] && IsKept(positions, e.i, e.j)
      ensures forall ij :: 0 <= ij < |Edges(list, positions)| ==>
                IsStored(list, positions, Edges(list, positions)[ij], neighIndices[ij], neighTypes[ij], xyz[ij], r[ij])
    {
      forall e: Edge
        ensures e in Edges(list, positions) <==>
                e.i in list.ilist && e.i < |positions| && e.j in list.neighbours[e.i] && IsKept(positions, e.i, e.j)
      {
        GraphEdgeMeans(list, positions, |list.ilist|, e);
        assert list.ilist[..|list.ilist|] == list.ilist;
      }
      var edges := Edges(list, positions);
      forall ij | 0 <= ij < |edges|
        ensures IsStored(list, positions, edges[ij], neighIndices[ij], neighTypes[ij], xyz[ij], r[ij])
      {
        assert TopologyRowOk(list, edges[ij], neighIndices[ij], neighTypes[ij]);
        assert GeometryRowOk(g, positions, edges[ij], xyz[ij], r[ij]);
        RowMeans(list, positions, edges[ij], neighIndices[ij], neighTypes[ij], xyz[ij], r[ij]);
      }
    }

    /** The bookkeeping behind the edge loop. */
    method Account(list: NeighbourList, rebuild: bool, numEdges: nat)
      modifies this`graphGeneration, this`executionNumNodes, this`executionNumEdges
      modifies this`rebuildCount, this`refreshCount, this`geometryOnlyCount, this`builtFrom
      ensures rebuildCount == old(rebuildCount) + (if g.stable && rebuild then 1 else 0)
      ensures refreshCount == old(refreshCount) + (if g.stable then 1 else 0)
      ensures geometryOnlyCount == old(geometryOnlyCount) + (if g.stable && !rebuild then 1 else 0)
      ensures if g.stable && rebuild then
                builtFrom == list && graphGeneration == old(graphGeneration) + 1
                && executionNumNodes == |list.ilist| && executionNumEdges == numEdges
              else
                builtFrom == old(builtFrom) && graphGeneration == old(graphGeneration)
                && executionNumNodes == old(executionNumNodes) && executionNumEdges == old(executionNumEdges)
    {
      if g.stable {
        refreshCount := refreshCount + 1;
        if rebuild {
          graphGeneration, rebuildCount := graphGeneration + 1, rebuildCount + 1;
          executionNumNodes, executionNumEdges := |list.ilist|, numEdges;
          builtFrom := list;
        } else {
          geometryOnlyCount := geometryOnlyCount + 1;
        }
      }
    }

    /** Node views, grown and rebuilt as needed. */
    method PrepareNodes(list: NeighbourList, positions: seq<Position>, rebuild: bool) returns (numEdges: nat)
      requires Valid() && list.Valid(|positions|)
      requires !rebuild ==> g.stable && graphGeneration != 0 && list == builtFrom
      modifies this`nodeIndices, this`nodeTypes, this`numNeigh, this`firstNeigh
      ensures NodesOk(g.Rule(list, positions), list, nodeIndices, nodeTypes, numNeigh, firstNeigh)
      ensures numEdges == |Edges(list, positions)|
    {
      var n := |list.ilist|;
      nodeIndices, nodeTypes := Reallocated(nodeIndices, n, 0), Reallocated(nodeTypes, n, 0);
      numNeigh, firstNeigh := Reallocated(numNeigh, n, 0), Reallocated(firstNeigh, n, 0);
      numEdges := executionNumEdges;
      if rebuild {
        numEdges := RebuildNodes(list, positions);
      }
    }

    /** Edge views, grown as needed, then filled or refreshed. */
    method RefreshEdges(list: NeighbourList, positions: seq<Position>, rebuild: bool, numEdges: nat)
      requires g.rCut > 0.0 && list.Valid(|positions|) && numEdges == |Edges(list, positions)|
      requires NodesOk(g.Rule(list, positions), list, nodeIndices, nodeTypes, numNeigh, firstNeigh)
      requires !rebuild ==> TopologyRows(list, Edges(list, positions), neighIndices, neighTypes, numEdges)
      modifies this`neighIndices, this`neighTypes, this`xyz, this`r
      ensures TopologyRows(list, Edges(list, positions), neighIndices, neighTypes, numEdges)
      ensures GeometryRows(g, positions, Edges(list, positions), xyz, r, numEdges)
    {
      neighIndices, neighTypes := Reallocated(neighIndices, numEdges, 0), Reallocated(neighTypes, numEdges, 0);
      xyz, r := Reallocated(xyz, numEdges, Position(0.0, 0.0, 0.0)), Reallocated(r, numEdges, 0.0);
      FillEdges(list, positions, rebuild, Edges(list, positions));
    }
  }

  /** The rows in use of two pair styles are the same: n node rows and m edge rows. */
  ghost predicate SameViews(a: PairTopology, b: PairTopology, n: nat, m: nat)
    reads a, b
  {
    && |a.nodeIndices| >= n && |b.nodeIndices| >= n && a.nodeIndices[..n] == b.nodeIndices[..n]
    && |a.nodeTypes| >= n && |b.nodeTypes| >= n && a.nodeTypes[..n] == b.nodeTypes[..n]
    && |a.numNeigh| >= n && |b.numNeigh| >= n && a.numNeigh[..n] == b.numNeigh[..n]
    && |a.firstNeigh| >= n && |b.firstNeigh| >= n && a.firstNeigh[..n] == b.firstNeigh[..n]
    && |a.neighIndices| >= m && |b.neighIndices| >= m && a.neighIndices[..m] == b.neighIndices[..m]
    && |a.neighTypes| >= m && |b.neighTypes| >= m && a.neighTypes[..m] == b.neighTypes[..m]
    && |a.xyz| >= m && |b.xyz| >= m && a.xyz[..m] == b.xyz[..m]
    && |a.r| >= m && |b.r| >= m && a.r[..m] == b.r[..m]
  }

  /** Two pair styles, one with a history of rebuilds and refreshes behind it and one made for this step: updated with
      the same list and positions, they end up with the same rows. */
  method RefreshAgainstRebuild(a: PairTopology, list: NeighbourList, positions: seq<Position>, ago: int)
    returns (b: PairTopology)
    requires a.Valid() && list.Valid(|positions|)
    requires !a.NeedsRebuild(list, ago) ==> list == a.builtFrom
    modifies a
    ensures fresh(b) && a.Valid() && b.Valid() && a.Current(list, positions)
    ensures SameViews(a, b, |list.ilist|, |a.Edges(list, positions)|)
  {
    b := new PairTopology(a.g);
    b.Update(list, positions, 0);
    a.Update(list, positions, ago);
    NodesAreDetermined(a, b, list, positions);
    RowsAreDetermined(a.g, list, positions, a.Edges(list, positions), a.neighIndices, a.neighTypes, a.xyz, a.r,
                      b.neighIndices, b.neighTypes, b.xyz, b.r);
  }

  lemma NodesAreDetermined(a: PairTopology, b: PairTopology, list: NeighbourList, positions: seq<Position>)
    requires list.Valid(|list.types|) && a.g == b.g
    requires a.TopologyCurrent(list, positions) && b.TopologyCurrent(list, positions)
    ensures var n := |list.ilist|;
            && a.nodeIndices[..n] == b.nodeIndices[..n] && a.nodeTypes[..n] == b.nodeTypes[..n]
            && a.numNeigh[..n] == b.numNeigh[..n] && a.firstNeigh[..n] == b.firstNeigh[..n]
  {
    var rule := a.g.Rule(list, positions);
    forall k | 0 <= k < |list.ilist|
      ensures a.nodeIndices[k] == b.nodeIndices[k] && a.nodeTypes[k] == b.nodeTypes[k]
      ensures a.numNeigh[k] == b.numNeigh[k] && a.firstNeigh[k] == b.firstNeigh[k]
    {
      assert NodeRowOk(rule, list, k, a.nodeIndices[k], a.nodeTypes[k], a.numNeigh[k], a.firstNeigh[k]);
      assert NodeRowOk(rule, list, k, b.nodeIndices[k], b.nodeTypes[k], b.numNeigh[k], b.firstNeigh[k]);
    }
  }
}
