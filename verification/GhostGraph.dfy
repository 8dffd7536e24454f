/** The graph over owned atoms and the ghosts within the cutoff of one of them
    (pair_symmetrix/pair_symmetrix_mace.cpp:650-757). */
module GhostGraph {
  import opened NeighbourEdges

  datatype Position = Position(x: real, y: real, z: real)

  /** The vector from atom i to atom j. */
  function Displacement(positions: seq<Position>, i: nat, j: nat): Position
    requires i < |positions| && j < |positions|
  {
    Position(positions[j].x - positions[i].x, positions[j].y - positions[i].y, positions[j].z - positions[i].z)
  }

  function SquaredLength(d: Position): real {
    d.x * d.x + d.y * d.y + d.z * d.z
  }

  /** What the pair style is given: all atoms of the rank, the list of owned atoms, and everybody's neighbours. */
  datatype Atoms = Atoms(positions: seq<Position>, types: seq<nat>, ilist: seq<nat>, neighbours: seq<seq<nat>>,
                         maceTypes: seq<int>, rCutSquared: real, sqrt: real -> real)
  {
    predicate Valid() {
      && |types| == |neighbours| == |positions|
      && (forall i :: 0 <= i < |types| ==> 1 <= types[i] <= |maceTypes|)
      && (forall ii :: 0 <= ii < |ilist| ==> ilist[ii] < |positions|)
      && (forall ii, jj :: 0 <= ii < jj < |ilist| ==> ilist[ii] != ilist[jj])
      && (forall i :: 0 <= i < |neighbours| ==> InRangeList(neighbours[i]))
    }

    predicate InRangeList(list: seq<nat>) {
      forall jj :: 0 <= jj < |list| ==> list[jj] < |positions|
    }

    predicate Inside(nodes: seq<nat>) {
      forall k :: 0 <= k < |nodes| ==> nodes[k] < |positions|
    }

    function DistanceSquared(i: nat, j: nat): real
      requires i < |positions| && j < |positions|
    {
      SquaredLength(Displacement(positions, i, j))
    }

    predicate Close(i: nat, j: nat)
      requires i < |positions| && j < |positions|
    {
      DistanceSquared(i, j) < rCutSquared
    }

    function MaceType(i: nat): int
      requires Valid() && i < |positions|
    {
      maceTypes[types[i] - 1]
    }

    /** Pairs within the cutoff become edges. */
    function Rule(): EdgeRule {
      EdgeRule(neighbours, (i, j) => 0 <= i < |positions| && 0 <= j < |positions| && Close(i, j))
    }

    /** The squared distance, coordinate by coordinate, is below the square of the cutoff. */
    ghost predicate IsWithin(i: nat, j: nat) {
      && i < |positions| && j < |positions|
      && (positions[j].x - positions[i].x) * (positions[j].x - positions[i].x)
         + (positions[j].y - positions[i].y) * (positions[j].y - positions[i].y)
         + (positions[j].z - positions[i].z) * (positions[j].z - positions[i].z) < rCutSquared
    }

    /** An edge of atom i is a listed neighbour whose squared distance, coordinate by coordinate, is below the square of
        the cutoff. */
    lemma EdgeMeans(i: nat, e: Edge)
      requires Valid() && i < |positions|
      ensures e in EdgesFrom(i, |neighbours[i]|) <==>
              && e.i == i && e.j in neighbours[i] && e.j < |positions|
              && var p, q := positions[i], positions[e.j];
                 (q.x - p.x) * (q.x - p.x) + (q.y - p.y) * (q.y - p.y) + (q.z - p.z) * (q.z - p.z) < rCutSquared
    {
      Rule().EdgesAreKept(i, |neighbours[i]|, e);
      assert neighbours[i][..|neighbours[i]|] == neighbours[i];
      assert InRangeList(neighbours[i]);
    }

    /** An edge of the graph is one of a node. */
    lemma {:induction false} GraphEdgeMeans(nodes: seq<nat>, n: nat, e: Edge)
      requires Valid() && Inside(nodes) && n <= |nodes|
      ensures e in AllEdges(nodes, n) <==>
              e.i in nodes[..n] && e.i < |positions| && e.j in neighbours[e.i] && IsWithin(e.i, e.j)
    {
      if n == 0 {
      } else {
        GraphEdgeMeans(nodes, n - 1, e);
        EdgeMeans(nodes[n - 1], e);
        assert nodes[..n] == nodes[..n - 1] + [nodes[n - 1]];
      }
    }

    /** A ghost takes part when some owned atom lists it that close. */
    lemma TakesPartMeans(j: nat)
      requires Valid() && j < |positions|
      ensures TakesPart(j) <==>
              && j !in ilist
              && exists i :: i in ilist && j in neighbours[i]
                   && (positions[j].x - positions[i].x) * (positions[j].x - positions[i].x)
                      + (positions[j].y - positions[i].y) * (positions[j].y - positions[i].y)
                      + (positions[j].z - positions[i].z) * (positions[j].z - positions[i].z) < rCutSquared
    {
      forall i | i in ilist
        ensures ReachedFrom(i, j) <==>
                && j in neighbours[i]
                && (positions[j].x - positions[i].x) * (positions[j].x - positions[i].x)
                   + (positions[j].y - positions[i].y) * (positions[j].y - positions[i].y)
                   + (positions[j].z - positions[i].z) * (positions[j].z - positions[i].z) < rCutSquared
      {
        EdgeMeans(i, Edge(i, j));
      }
      assert Reached(j) <==> exists i :: i in ilist && ReachedFrom(i, j) by {
        if i :| i in ilist && ReachedFrom(i, j) {
          var ii: nat :| ii < |ilist| && ilist[ii] == i;
          assert ReachedFrom(ilist[ii], j);
        }
      }
    }

    /** The edges of the first n nodes, and those of atom i among its first n neighbours. */
    function AllEdges(nodes: seq<nat>, n: nat): seq<Edge>
      requires Valid() && Inside(nodes) && n <= |nodes|
    {
      Rule().EdgesOfNodes(nodes, n)
    }

    function EdgesFrom(i: nat, n: nat): seq<Edge>
      requires Valid() && i < |positions| && n <= |neighbours[i]|
    {
      Rule().EdgesOf(i, n)
    }

    /** j is within the cutoff of an owned atom that lists it. */
    ghost predicate Reached(j: nat)
      requires Valid()
    {
      ReachedBefore(|ilist|, j)
    }

    ghost predicate ReachedBefore(n: nat, j: nat)
      requires Valid() && n <= |ilist|
    {
      exists ii :: 0 <= ii < n && ReachedFrom(ilist[ii], j)
    }

    ghost predicate ReachedFrom(i: nat, j: nat)
      requires Valid()
    {
      i < |positions| && Edge(i, j) in EdgesFrom(i, |neighbours[i]|)
    }

    /** j is a ghost that takes part: within the cutoff of an owned atom, and not owned. */
    ghost predicate TakesPart(j: nat)
      requires Valid()
    {
      j < |positions| && j !in ilist && Reached(j)
    }
  }

  /** The retained vectors of the pair style. */
  class PairGraph {
    var nodeI: seq<nat>
    var nodeTypes: seq<int>
    var numNeigh: seq<nat>
    var iiFromI: map<nat, nat>
    var neighJ: seq<nat>
    var neighIndices: seq<nat>
    var neighTypes: seq<int>
    var xyz: seq<Position>
    var r: seq<real>
    var localNodes: nat
    var localEdges: nat

    constructor ()
    {
      nodeI, nodeTypes, numNeigh, iiFromI := [], [], [], map[];
      neighJ, neighIndices, neighTypes, xyz, r := [], [], [], [], [];
      localNodes, localEdges := 0, 0;
    }

    /** Marks the ghosts within the cutoff of an owned atom. */
    method MarkGhosts(atoms: Atoms) returns (isGhost: seq<bool>)
      requires atoms.Valid()
      ensures |isGhost| == |atoms.positions|
      ensures forall j: nat :: j < |isGhost| ==> (isGhost[j] <==> atoms.TakesPart(j))
      ensures forall j: nat :: j < |isGhost| ==>
                (isGhost[j] <==>
                 && j !in atoms.ilist
                 && exists i :: i in atoms.ilist && j in atoms.neighbours[i]
                      && (atoms.positions[j].x - atoms.positions[i].x) * (atoms.positions[j].x - atoms.positions[i].x)
                         + (atoms.positions[j].y - atoms.positions[i].y) * (atoms.positions[j].y - atoms.positions[i].y)
                         + (atoms.positions[j].z - atoms.positions[i].z) * (atoms.positions[j].z - atoms.positions[i].z)
                         < atoms.rCutSquared)
    {
      isGhost := seq(|atoms.positions|, _ => false);
      for ii := 0 to |atoms.ilist|
        invariant |isGhost| == |atoms.positions|
        invariant forall j: nat :: j < |isGhost| ==>
                    (isGhost[j] <==> j !in atoms.ilist && atoms.ReachedBefore(ii, j))
      {
        ghost var before := isGhost;
        var i := atoms.ilist[ii];
        isGhost := MarkFrom(atoms, i, isGhost);
        forall j: nat | j < |isGhost|
          ensures isGhost[j] <==> j !in atoms.ilist && atoms.ReachedBefore(ii + 1, j)
        {
          if atoms.ReachedFrom(i, j) {
            assert atoms.ReachedFrom(atoms.ilist[ii], j);
          }
        }
      }
      forall j: nat | j < |isGhost| {
        atoms.TakesPartMeans(j);
      }
    }

    /** The part of one owned atom. */
    method MarkFrom(atoms: Atoms, i: nat, marked: seq<bool>) returns (isGhost: seq<bool>)
      requires atoms.Valid() && i < |atoms.positions| && |marked| == |atoms.positions|
      ensures |isGhost| == |marked|
      ensures forall j: nat :: j < |isGhost| ==>
                (isGhost[j] <==> marked[j] || (j !in atoms.ilist && atoms.ReachedFrom(i, j)))
    {
      isGhost := marked;
      for jj := 0 to |atoms.neighbours[i]|
        invariant |isGhost| == |marked|
        invariant forall j: nat :: j < |isGhost| ==>
                    (isGhost[j] <==> marked[j] || (j !in atoms.ilist && Edge(i, j) in atoms.EdgesFrom(i, jj)))
      {
        var j := atoms.neighbours[i][jj];
        assert atoms.InRangeList(atoms.neighbours[i]);
        if atoms.Close(i, j) && j !in atoms.ilist {
          isGhost := isGhost[j := true];
        }
      }
    }

    /** The marked atoms in increasing order. */
    method CollectGhosts(isGhost: seq<bool>) returns (ghosts: seq<nat>)
      ensures forall j: nat :: j in ghosts <==> j < |isGhost| && isGhost[j]
      ensures forall a, b :: 0 <= a < b < |ghosts| ==> ghosts[a] < ghosts[b]
    {
      ghosts := [];
      for ii := 0 to |isGhost|
        invariant forall j: nat :: j in ghosts <==> j < ii && isGhost[j]
        invariant forall a, b :: 0 <= a < b < |ghosts| ==> ghosts[a] < ghosts[b]
        invariant forall a :: 0 <= a < |ghosts| ==> ghosts[a] < ii
      {
        if isGhost[ii] {
          ghosts := ghosts + [ii];
        }
      }
    }

    /** Owned atoms first, then the ghosts that take part; nobody twice. */
    ghost predicate NodesOk(atoms: Atoms)
      reads this
      requires atoms.Valid()
    {
      && localNodes == |atoms.ilist| <= |nodeI| && nodeI[..localNodes] == atoms.ilist
      && (forall a, b :: 0 <= a < b < |nodeI| ==> nodeI[a] != nodeI[b])
      && atoms.Inside(nodeI)
      && (forall j: nat :: j in nodeI <==> j in atoms.ilist || atoms.TakesPart(j))
    }

    /** Per node: its type, how many edges it has, and where the map finds it. */
    ghost predicate NodeRowsOk(atoms: Atoms)
      reads this
      requires atoms.Valid() && atoms.Inside(nodeI)
    {
      RowsOk(atoms, nodeI, nodeTypes, numNeigh) && IndexOk(iiFromI, nodeI, |nodeI|)
    }

    ghost predicate RowsOk(atoms: Atoms, nodes: seq<nat>, types: seq<int>, counts: seq<nat>)
      requires atoms.Valid() && atoms.Inside(nodes)
    {
      && |types| == |counts| == |nodes|
      && (forall ii :: 0 <= ii < |nodes| ==> NodeRowOk(atoms, nodes[ii], types[ii], counts[ii]))
    }

    predicate NodeRowOk(atoms: Atoms, i: nat, maceType: int, count: nat)
      requires atoms.Valid() && i < |atoms.positions|
    {
      maceType == atoms.MaceType(i) && count == |atoms.EdgesFrom(i, |atoms.neighbours[i]|)|
    }

    /** The map finds exactly the first n nodes, and sends atoms that are no nodes, if any, to node 0. */
    ghost predicate IndexOk(index: map<nat, nat>, nodes: seq<nat>, n: nat)
      requires n <= |nodes|
    {
      && (forall ii :: 0 <= ii < n ==> nodes[ii] in index && index[nodes[ii]] == ii)
      && (forall j :: j in index && j !in nodes[..n] ==> index[j] == 0)
    }

    /** Number of neighbours of atom i within the cutoff. */
    method CountNeighbours(atoms: Atoms, i: nat) returns (count: nat)
      requires atoms.Valid() && i < |atoms.positions|
      ensures count == |atoms.EdgesFrom(i, |atoms.neighbours[i]|)|
    {
      count := 0;
      for jj := 0 to |atoms.neighbours[i]|
        invariant count == |atoms.EdgesFrom(i, jj)|
      {
        assert atoms.InRangeList(atoms.neighbours[i]);
        if atoms.Close(i, atoms.neighbours[i][jj]) {
          count := count + 1;
        }
      }
    }

    /** The node loop (lines 694-719). */
    method PopulateNodes(atoms: Atoms, ghosts: seq<nat>)
      requires atoms.Valid()
      requires forall j: nat :: j in ghosts <==> atoms.TakesPart(j)
      requires forall a, b :: 0 <= a < b < |ghosts| ==> ghosts[a] < ghosts[b]
      modifies this
      ensures NodesOk(atoms) && NodeRowsOk(atoms) && nodeI == atoms.ilist + ghosts
    {
      localNodes := |atoms.ilist|;
      nodeI, nodeTypes, numNeigh, iiFromI := [], [], [], map[];
      ghost var nodes := atoms.ilist + ghosts;
      NodesDistinct(atoms, ghosts);
      for ii := 0 to |atoms.ilist| + |ghosts|
        invariant localNodes == |atoms.ilist| && Populated(atoms, nodes, ii)
      {
        var i := if ii < localNodes then atoms.ilist[ii] else ghosts[ii - localNodes];
        assert i == nodes[ii];
        AddNode(atoms, i, nodes, ii);
      }
      assert nodes[..|nodes|] == nodes;
    }

    /** The first n nodes have their rows. */
    ghost predicate Populated(atoms: Atoms, nodes: seq<nat>, n: nat)
      reads this
      requires atoms.Valid() && atoms.Inside(nodes) && n <= |nodes|
    {
      && nodeI == nodes[..n] && |nodeTypes| == |numNeigh| == n
      && (forall k :: 0 <= k < n ==> NodeRowOk(atoms, nodes[k], nodeTypes[k], numNeigh[k]))
      && IndexOk(iiFromI, nodes, n)
    }

    /** One turn of the node loop. */
    method AddNode(atoms: Atoms, i: nat, ghost nodes: seq<nat>, ii: nat)
      requires atoms.Valid() && atoms.Inside(nodes) && ii < |nodes| && nodes[ii] == i && i !in nodes[..ii]
      requires Populated(atoms, nodes, ii)
      modifies this`nodeI, this`nodeTypes, this`numNeigh, this`iiFromI
      ensures Populated(atoms, nodes, ii + 1)
    {
      var count := CountNeighbours(atoms, i);
      IndexGrows(iiFromI, nodes, ii);
      nodeI, nodeTypes, numNeigh := nodeI + [i], nodeTypes + [atoms.MaceType(i)], numNeigh + [count];
      iiFromI := iiFromI[i := ii];
    }

    lemma IndexGrows(index: map<nat, nat>, nodes: seq<nat>, n: nat)
      requires n < |nodes| && IndexOk(index, nodes, n) && nodes[n] !in nodes[..n]
      ensures IndexOk(index[nodes[n] := n], nodes, n + 1)
    {
      forall k | 0 <= k < n ensures nodes[k] != nodes[n] {
        assert nodes[k] == nodes[..n][k];
      }
      assert nodes[..n + 1] == nodes[..n] + [nodes[n]];
    }

    lemma NodesDistinct(atoms: Atoms, ghosts: seq<nat>)
      requires atoms.Valid()
      requires forall j: nat :: j in ghosts <==> atoms.TakesPart(j)
      requires forall a, b :: 0 <= a < b < |ghosts| ==> ghosts[a] < ghosts[b]
      ensures var nodes := atoms.ilist + ghosts;
              && (forall a, b :: 0 <= a < b < |nodes| ==> nodes[a] != nodes[b])
              && atoms.Inside(nodes)
              && (forall j: nat :: j in nodes <==> j in atoms.ilist || atoms.TakesPart(j))
    {
      var nodes := atoms.ilist + ghosts;
      forall k | 0 <= k < |nodes| ensures nodes[k] < |atoms.positions| {
        assert k >= |atoms.ilist| ==> nodes[k] in ghosts;
      }
      forall a, b | 0 <= a < b < |nodes| ensures nodes[a] != nodes[b] {
        if a < |atoms.ilist| <= b {
          assert nodes[b] in ghosts;
        }
      }
    }

    // -------------------------------------------------------------- edges

    /** All edges of the graph, node by node. */
    ghost function Edges(atoms: Atoms): seq<Edge>
      reads this
      requires atoms.Valid() && atoms.Inside(nodeI)
    {
      atoms.AllEdges(nodeI, |nodeI|)
    }

    /** Sums the counts of the nodes from..to: the number of their edges. */
    method CountEdges(atoms: Atoms, from: nat, to: nat) returns (count: nat)
      requires atoms.Valid() && atoms.Inside(nodeI) && from <= to <= |nodeI|
      requires RowsOk(atoms, nodeI, nodeTypes, numNeigh)
      ensures |atoms.AllEdges(nodeI, to)| == |atoms.AllEdges(nodeI, from)| + count
    {
      count := 0;
      for ii := from to to
        invariant |atoms.AllEdges(nodeI, ii)| == |atoms.AllEdges(nodeI, from)| + count
      {
        assert NodeRowOk(atoms, nodeI[ii], nodeTypes[ii], numNeigh[ii]);
        count := count + numNeigh[ii];
      }
    }

    /** Where neigh_indices points: at the node of atom j, or at node 0 when j is no node. */
    predicate PointsAt(nodes: seq<nat>, j: nat, v: nat) {
      if j in nodes then v < |nodes| && nodes[v] == j else v == 0
    }

    /** Row ij of the edge vectors describes edge e. */
    predicate EdgeRowOk(atoms: Atoms, e: Edge, j: nat, index: nat, maceType: int, d: Position, distance: real)
      requires atoms.Valid()
      reads this
    {
      && e.i < |atoms.positions| && e.j < |atoms.positions|
      && j == e.j && PointsAt(nodeI, e.j, index) && maceType == atoms.MaceType(e.j)
      && d == Displacement(atoms.positions, e.i, e.j) && distance == atoms.sqrt(atoms.DistanceSquared(e.i, e.j))
    }

    /** The edge vectors have one row per edge of the whole graph, and the first n rows are filled. */
    ghost predicate Filled(atoms: Atoms, edges: seq<Edge>, n: nat)
      reads this
      requires atoms.Valid()
    {
      && |neighJ| == |neighIndices| == |neighTypes| == |xyz| == |r| && n <= |edges| && n <= |neighJ|
      && forall ij :: 0 <= ij < n ==>
           EdgeRowOk(atoms, edges[ij], neighJ[ij], neighIndices[ij], neighTypes[ij], xyz[ij], r[ij])
    }

    /** Looks an atom up the way the map's subscript does: a missing atom is inserted with index 0. */
    method Lookup(j: nat) returns (v: nat)
      requires IndexOk(iiFromI, nodeI, |nodeI|)
      modifies this`iiFromI
      ensures IndexOk(iiFromI, nodeI, |nodeI|) && PointsAt(nodeI, j, v)
    {
      assert nodeI[..|nodeI|] == nodeI;
      if j !in iiFromI {
        iiFromI := iiFromI[j := 0];
      }
      v := iiFromI[j];
      if k :| 0 <= k < |nodeI| && nodeI[k] == j {
        assert v == k;
      }
    }

    /** Writes one row. */
    method FillRow(atoms: Atoms, ghost edges: seq<Edge>, ij: nat, i: nat, j: nat)
      requires atoms.Valid() && i < |atoms.positions| && j < |atoms.positions|
      requires IndexOk(iiFromI, nodeI, |nodeI|) && Filled(atoms, edges, ij)
      requires ij < |edges| && ij < |neighJ| && edges[ij] == Edge(i, j)
      modifies this`neighJ, this`neighIndices, this`neighTypes, this`xyz, this`r, this`iiFromI
      ensures IndexOk(iiFromI, nodeI, |nodeI|) && Filled(atoms, edges, ij + 1) && |neighJ| == old(|neighJ|)
    {
      var index := Lookup(j);
      neighJ, neighIndices := neighJ[ij := j], neighIndices[ij := index];
      neighTypes := neighTypes[ij := atoms.MaceType(j)];
      xyz := xyz[ij := Displacement(atoms.positions, i, j)];
      r := r[ij := atoms.sqrt(atoms.DistanceSquared(i, j))];
    }

    /** The rows of one node. */
    method FillNode(atoms: Atoms, ghost edges: seq<Edge>, ii: nat, start: nat) returns (ij: nat)
      requires atoms.Valid() && atoms.Inside(nodeI) && ii < |nodeI| && edges == atoms.AllEdges(nodeI, |nodeI|)
      requires IndexOk(iiFromI, nodeI, |nodeI|) && |neighJ| == |edges| && Filled(atoms, edges, start)
      requires start == |atoms.AllEdges(nodeI, ii)|
      modifies this`neighJ, this`neighIndices, this`neighTypes, this`xyz, this`r, this`iiFromI
      ensures IndexOk(iiFromI, nodeI, |nodeI|) && |neighJ| == |edges| && Filled(atoms, edges, ij)
      ensures ij == |atoms.AllEdges(nodeI, ii + 1)|
    {
      ij := start;
      var i := nodeI[ii];
      for jj := 0 to |atoms.neighbours[i]|
        invariant ij == start + |atoms.EdgesFrom(i, jj)|
        invariant IndexOk(iiFromI, nodeI, |nodeI|) && |neighJ| == |edges| && Filled(atoms, edges, ij)
      {
        ij := FillNeighbour(atoms, edges, ii, jj, ij);
      }
    }

    /** The row of one neighbour, if it is within the cutoff. */
    method FillNeighbour(atoms: Atoms, ghost edges: seq<Edge>, ii: nat, jj: nat, ij: nat) returns (next: nat)
      requires atoms.Valid() && atoms.Inside(nodeI) && ii < |nodeI| && edges == atoms.AllEdges(nodeI, |nodeI|)
      requires IndexOk(iiFromI, nodeI, |nodeI|) && |neighJ| == |edges| && Filled(atoms, edges, ij)
      requires jj < |atoms.neighbours[nodeI[ii]]|
      requires ij == |atoms.AllEdges(nodeI, ii)| + |atoms.EdgesFrom(nodeI[ii], jj)|
      modifies this`neighJ, this`neighIndices, this`neighTypes, this`xyz, this`r, this`iiFromI
      ensures IndexOk(iiFromI, nodeI, |nodeI|) && |neighJ| == |edges| && Filled(atoms, edges, next)
      ensures next == |atoms.AllEdges(nodeI, ii)| + |atoms.EdgesFrom(nodeI[ii], jj + 1)|
    {
      var i := nodeI[ii];
      var j := atoms.neighbours[i][jj];
      assert atoms.InRangeList(atoms.neighbours[i]);
      next := ij;
      if atoms.Close(i, j) {
        atoms.Rule().EdgePosition(nodeI, ii, jj);
        FillRow(atoms, edges, ij, i, j);
        next := ij + 1;
      }
    }

    /** Every owned atom's edges lead to nodes. */
    lemma {:induction false} LocalEdgesEndAtNodes(atoms: Atoms, nodes: seq<nat>, n: nat)
      requires atoms.Valid() && atoms.Inside(nodes) && n <= |atoms.ilist| <= |nodes|
      requires nodes[..|atoms.ilist|] == atoms.ilist
      requires forall j: nat :: j in nodes <==> j in atoms.ilist || atoms.TakesPart(j)
      ensures forall e <- atoms.AllEdges(nodes, n) :: e.j in nodes
    {
      if n == 0 {
      } else {
        LocalEdgesEndAtNodes(atoms, nodes, n - 1);
        assert nodes[n - 1] == nodes[..|atoms.ilist|][n - 1] == atoms.ilist[n - 1];
        forall e <- atoms.EdgesFrom(nodes[n - 1], |atoms.neighbours[nodes[n - 1]]|) ensures e.j in nodes {
          atoms.Rule().EdgesAreKept(nodes[n - 1], atoms.Rule().NeighbourCount(nodes[n - 1]), e);
          assert atoms.ReachedFrom(atoms.ilist[n - 1], e.j);
        }
      }
    }

    /** Builds the graph. The edge rows are exactly the close neighbours of the nodes in order; the rows of owned
        atoms come first; neigh_indices is right for every one of them, and for any other row exactly when the
        neighbour is a node at all. */
    method Build(atoms: Atoms)
      requires atoms.Valid()
      modifies this
      ensures NodesOk(atoms) && NodeRowsOk(atoms)
      ensures Filled(atoms, Edges(atoms), |Edges(atoms)|) && |neighJ| == |Edges(atoms)|
      ensures localEdges == |atoms.AllEdges(nodeI, localNodes)| <= |neighJ|
      ensures forall ij :: 0 <= ij < localEdges ==> neighIndices[ij] < |nodeI| && nodeI[neighIndices[ij]] == neighJ[ij]
      ensures forall ij :: 0 <= ij < |neighJ| ==> neighIndices[ij] < |nodeI|
      ensures forall ij :: 0 <= ij < |neighJ| ==> (nodeI[neighIndices[ij]] == neighJ[ij] <==> neighJ[ij] in nodeI)
      ensures forall e: Edge :: e in Edges(atoms) <==>
                e.i in nodeI && e.i < |atoms.positions| && e.j in atoms.neighbours[e.i] && atoms.IsWithin(e.i, e.j)
      ensures forall ij :: 0 <= ij < |neighJ| ==> IsRow(atoms, Edges(atoms)[ij], ij)
      ensures forall ii :: 0 <= ii < |nodeI| ==> nodeTypes[ii] == atoms.maceTypes[atoms.types[nodeI[ii]] - 1]
    {
      var isGhost := MarkGhosts(atoms);
      var ghosts := CollectGhosts(isGhost);
      PopulateNodes(atoms, ghosts);
      FillEdges(atoms);
      IndicesRight(atoms);
      GraphMeans(atoms);
    }

    /** What the rows say, without the functions that fill them. */
    lemma GraphMeans(atoms: Atoms)
      requires atoms.Valid() && atoms.Inside(nodeI) && RowsOk(atoms, nodeI, nodeTypes, numNeigh)
      requires |neighJ| == |Edges(atoms)| && Filled(atoms, Edges(atoms), |neighJ|)
      ensures forall e: Edge :: e in Edges(atoms) <==>
                e.i in nodeI && e.i < |atoms.positions| && e.j in atoms.neighbours[e.i] && atoms.IsWithin(e.i, e.j)
      ensures forall ij :: 0 <= ij < |neighJ| ==> IsRow(atoms, Edges(atoms)[ij], ij)
      ensures forall ii :: 0 <= ii < |nodeI| ==> nodeTypes[ii] == atoms.maceTypes[atoms.types[nodeI[ii]] - 1]
    {
      RowsMean(atoms);
      forall e: Edge
        ensures e in Edges(atoms) <==>
                e.i in nodeI && e.i < |atoms.positions| && e.j in atoms.neighbours[e.i] && atoms.IsWithin(e.i, e.j)
      {
        EdgesMean(atoms, e);
      }
      forall ii | 0 <= ii < |nodeI| ensures nodeTypes[ii] == atoms.maceTypes[atoms.types[nodeI[ii]] - 1] {
        assert NodeRowOk(atoms, nodeI[ii], nodeTypes[ii], numNeigh[ii]);
      }
    }

    /** Row ij, coordinate by coordinate. */
    ghost predicate IsRow(atoms: Atoms, e: Edge, ij: int)
      reads this
      requires 0 <= ij < |neighJ| == |neighTypes| == |xyz| == |r|
    {
      && neighJ[ij] == e.j < |atoms.positions| == |atoms.types| && e.i < |atoms.positions|
      && 1 <= atoms.types[e.j] <= |atoms.maceTypes| && neighTypes[ij] == atoms.maceTypes[atoms.types[e.j] - 1]
      && xyz[ij].x == atoms.positions[e.j].x - atoms.positions[e.i].x
      && xyz[ij].y == atoms.positions[e.j].y - atoms.positions[e.i].y
      && xyz[ij].z == atoms.positions[e.j].z - atoms.positions[e.i].z
      && r[ij] == atoms.sqrt(SquaredLength(xyz[ij]))
    }

    lemma EdgesMean(atoms: Atoms, e: Edge)
      requires atoms.Valid() && atoms.Inside(nodeI)
      ensures e in Edges(atoms) <==>
              e.i in nodeI && e.i < |atoms.positions| && e.j in atoms.neighbours[e.i] && atoms.IsWithin(e.i, e.j)
    {
      atoms.GraphEdgeMeans(nodeI, |nodeI|, e);
      assert nodeI[..|nodeI|] == nodeI;
    }

    lemma RowsMean(atoms: Atoms)
      requires atoms.Valid() && atoms.Inside(nodeI)
      requires |neighJ| == |Edges(atoms)| && Filled(atoms, Edges(atoms), |neighJ|)
      ensures forall ij :: 0 <= ij < |neighJ| ==> IsRow(atoms, Edges(atoms)[ij], ij)
    {
      forall ij | 0 <= ij < |neighJ| ensures IsRow(atoms, Edges(atoms)[ij], ij) {
        var e := Edges(atoms)[ij];
        assert EdgeRowOk(atoms, e, neighJ[ij], neighIndices[ij], neighTypes[ij], xyz[ij], r[ij]);
        assert xyz[ij] == Displacement(atoms.positions, e.i, e.j);
      }
    }

    /** Indices point at the neighbour's node, unless the neighbour is no node; those of owned atoms' edges always do.
        */
    lemma IndicesRight(atoms: Atoms)
      requires atoms.Valid() && NodesOk(atoms) && |neighJ| == |Edges(atoms)| && Filled(atoms, Edges(atoms), |neighJ|)
      requires localEdges == |atoms.AllEdges(nodeI, localNodes)|
      ensures localEdges <= |neighJ|
      ensures forall ij :: 0 <= ij < localEdges ==> neighIndices[ij] < |nodeI| && nodeI[neighIndices[ij]] == neighJ[ij]
      ensures forall ij :: 0 <= ij < |neighJ| ==> neighIndices[ij] < |nodeI|
      ensures forall ij :: 0 <= ij < |neighJ| ==> (nodeI[neighIndices[ij]] == neighJ[ij] <==> neighJ[ij] in nodeI)
    {
      atoms.Rule().NodeEdgesGrow(nodeI, localNodes, |nodeI|);
      LocalEdgesEndAtNodes(atoms, nodeI, localNodes);
      var edges := Edges(atoms);
      forall ij | 0 <= ij < |neighJ|
        ensures neighIndices[ij] < |nodeI|
        ensures nodeI[neighIndices[ij]] == neighJ[ij] <==> neighJ[ij] in nodeI
        ensures ij < localEdges ==> nodeI[neighIndices[ij]] == neighJ[ij]
      {
        assert EdgeRowOk(atoms, edges[ij], neighJ[ij], neighIndices[ij], neighTypes[ij], xyz[ij], r[ij]);
        assert ij < localEdges ==> edges[ij] == atoms.AllEdges(nodeI, localNodes)[ij];
        assert |nodeI| > 0;
      }
    }

    /** The edge vectors, once the nodes stand. */
    method FillEdges(atoms: Atoms)
      requires atoms.Valid() && atoms.Inside(nodeI) && localNodes <= |nodeI|
      requires RowsOk(atoms, nodeI, nodeTypes, numNeigh) && IndexOk(iiFromI, nodeI, |nodeI|)
      modifies this`neighJ, this`neighIndices, this`neighTypes, this`xyz, this`r, this`iiFromI, this`localEdges
      ensures IndexOk(iiFromI, nodeI, |nodeI|) && |neighJ| == |Edges(atoms)|
      ensures Filled(atoms, Edges(atoms), |neighJ|)
      ensures localEdges == |atoms.AllEdges(nodeI, localNodes)|
    {
      ghost var edges := Edges(atoms);
      var total := CountAllEdges(atoms);
      ResizeEdges(total);
      FillNodes(atoms, edges);
    }

    method ResizeEdges(total: nat)
      modifies this`neighJ, this`neighIndices, this`neighTypes, this`xyz, this`r
      ensures |neighJ| == |neighIndices| == |neighTypes| == |xyz| == |r| == total
    {
      neighJ, neighIndices, neighTypes := seq(total, _ => 0), seq(total, _ => 0), seq(total, _ => 0);
      xyz, r := seq(total, _ => Position(0.0, 0.0, 0.0)), seq(total, _ => 0.0);
    }

    /** The two counting sums. */
    method CountAllEdges(atoms: Atoms) returns (total: nat)
      requires atoms.Valid() && atoms.Inside(nodeI) && localNodes <= |nodeI|
      requires RowsOk(atoms, nodeI, nodeTypes, numNeigh)
      modifies this`localEdges
      ensures localEdges == |atoms.AllEdges(nodeI, localNodes)| && total == |Edges(atoms)|
    {
      localEdges := CountEdges(atoms, 0, localNodes);
      var ghostEdges := CountEdges(atoms, localNodes, |nodeI|);
      total := localEdges + ghostEdges;
    }

    /** The rows of all nodes. */
    method FillNodes(atoms: Atoms, ghost edges: seq<Edge>)
      requires atoms.Valid() && atoms.Inside(nodeI) && edges == atoms.AllEdges(nodeI, |nodeI|)
      requires IndexOk(iiFromI, nodeI, |nodeI|) && |neighJ| == |edges| && Filled(atoms, edges, 0)
      modifies this`neighJ, this`neighIndices, this`neighTypes, this`xyz, this`r, this`iiFromI
      ensures IndexOk(iiFromI, nodeI, |nodeI|) && |neighJ| == |edges| && Filled(atoms, edges, |edges|)
    {
      var ij := 0;
      for ii := 0 to |nodeI|
        invariant ij == |atoms.AllEdges(nodeI, ii)|
        invariant IndexOk(iiFromI, nodeI, |nodeI|) && |neighJ| == |edges| && Filled(atoms, edges, ij)
      {
        ij := FillNode(atoms, edges, ii, ij);
      }
    }
  }
}
