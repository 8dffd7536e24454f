/** Keeping the whole skin list with out-of-range edges pulled in to the cutoff changes no sum of an edge function
    that vanishes there (pair_symmetrix/pair_symmetrix_mace_kokkos.cpp:1076-1100, 1410-1432). */
module EdgeClamping {
  import opened RealArithmetic
  import opened NeighbourEdges
  import opened GhostGraph
  import opened EdgeTopology

  /** sqrt is the non-negative square root. */
  ghost predicate TakesRoots(sqrt: real -> real) {
    forall x :: x >= 0.0 ==> IsRoot(sqrt(x), x)
  }

  predicate IsRoot(s: real, x: real) {
    s >= 0.0 && s * s == x
  }

  /** Comparing the root with c is comparing the number with c squared. */
  lemma RootCompares(s: real, x: real, c: real)
    requires IsRoot(s, x) && c > 0.0
    ensures s >= c <==> x >= c * c
  {
    var d := s - c;
    assert d * (s + c) == x - c * c;
    if d < 0.0 {
      ProductPositive(-d, s + c, -d * (s + c));
    } else {
      NonNegativeProduct(d, s + c);
    }
  }

  lemma NonNegativeProduct(a: real, b: real)
    requires a >= 0.0 && b >= 0.0
    ensures a * b >= 0.0
  {
  }

  lemma SquaredLengthNonNegative(d: Position)
    ensures SquaredLength(d) >= 0.0
  {
    assert d.x * d.x >= 0.0 && d.y * d.y >= 0.0 && d.z * d.z >= 0.0;
  }

  /** The two tests of the source agree: an edge is clamped exactly when it is not within the cutoff. */
  lemma ClampedIffNotClose(g: Geometry, positions: seq<Position>, i: nat, j: nat)
    requires g.rCut > 0.0 && TakesRoots(g.sqrt) && i < |positions| && j < |positions|
    ensures g.Close(positions, i, j) <==> g.Distance(positions, i, j) < g.rCut
  {
    var d := Displacement(positions, i, j);
    SquaredLengthNonNegative(d);
    RootCompares(g.sqrt(SquaredLength(d)), SquaredLength(d), g.rCut);
  }

  /** An edge within the cutoff is stored as it is; any other is stored at the cutoff exactly. */
  lemma StoredAtCutoff(g: Geometry, positions: seq<Position>, i: nat, j: nat)
    requires g.rCut > 0.0 && g.stable && TakesRoots(g.sqrt) && i < |positions| && j < |positions|
    ensures if g.Close(positions, i, j) then
              && g.StoredDistance(positions, i, j) == g.Distance(positions, i, j)
              && g.StoredVector(positions, i, j) == Displacement(positions, i, j)
            else g.StoredDistance(positions, i, j) == g.rCut
  {
    ClampedIffNotClose(g, positions, i, j);
    var distance := g.Distance(positions, i, j);
    if distance >= g.rCut {
      DivisionUndone(g.rCut, distance);
    }
  }

  /** The stored distance of an edge within the cutoff, squared, is the sum of the squared coordinate differences; any
      other edge is stored at the cutoff. */
  lemma StoredLength(t: PairTopology, list: NeighbourList, positions: seq<Position>, e: Edge, owner: nat, maceType: int,
                     vector: Position, distance: real, squared: real)
    requires t.g.rCut > 0.0 && TakesRoots(t.g.sqrt)
    requires t.IsStored(list, positions, e, owner, maceType, vector, distance)
    requires squared == (positions[e.j].x - positions[e.i].x) * (positions[e.j].x - positions[e.i].x)
                        + (positions[e.j].y - positions[e.i].y) * (positions[e.j].y - positions[e.i].y)
                        + (positions[e.j].z - positions[e.i].z) * (positions[e.j].z - positions[e.i].z)
    ensures t.g.stable && squared >= t.g.rCut * t.g.rCut ==> distance == t.g.rCut
    ensures !t.g.stable || squared < t.g.rCut * t.g.rCut ==> distance >= 0.0 && distance * distance == squared
  {
    var d := Displacement(positions, e.i, e.j);
    SquaredLengthNonNegative(d);
    assert SquaredLength(d) == squared;
    RootCompares(t.g.sqrt(squared), squared, t.g.rCut);
  }

  /** The length in a row of the graph built anew, squared, is the sum of the squared coordinates of its vector. */
  lemma RowLength(graph: PairGraph, atoms: Atoms, e: Edge, ij: int)
    requires 0 <= ij < |graph.neighJ| == |graph.neighTypes| == |graph.xyz| == |graph.r|
    requires graph.IsRow(atoms, e, ij) && TakesRoots(atoms.sqrt)
    ensures graph.r[ij] >= 0.0
    ensures graph.r[ij] * graph.r[ij]
         == graph.xyz[ij].x * graph.xyz[ij].x + graph.xyz[ij].y * graph.xyz[ij].y + graph.xyz[ij].z * graph.xyz[ij].z
  {
    SquaredLengthNonNegative(graph.xyz[ij]);
    assert IsRoot(atoms.sqrt(SquaredLength(graph.xyz[ij])), SquaredLength(graph.xyz[ij]));
  }

  /** Clamping keeps the direction: vector and distance are scaled by the same positive factor. */
  lemma DirectionKept(g: Geometry, positions: seq<Position>, i: nat, j: nat)
    requires g.rCut > 0.0 && i < |positions| && j < |positions|
    ensures var v, s := g.StoredVector(positions, i, j), g.StoredDistance(positions, i, j);
            var d, distance := Displacement(positions, i, j), g.Distance(positions, i, j);
            v.x * distance == d.x * s && v.y * distance == d.y * s && v.z * distance == d.z * s
    ensures g.Scale(g.Distance(positions, i, j)) > 0.0
  {
    var d, distance := Displacement(positions, i, j), g.Distance(positions, i, j);
    var scale := g.Scale(distance);
    if g.stable && distance >= g.rCut {
      PositiveQuotient(g.rCut, distance);
    }
    Reorder(scale, d.x, distance);
    Reorder(scale, d.y, distance);
    Reorder(scale, d.z, distance);
  }

  lemma PositiveQuotient(p: real, d: real)
    requires p > 0.0 && d > 0.0
    ensures p / d > 0.0
  {
  }

  lemma Reorder(scale: real, x: real, distance: real)
    ensures scale * x * distance == x * (scale * distance)
  {
  }

  // ---------------------------------------------------------------- receiver sums

  /** A function of an edge: of the neighbour, the stored vector and the stored distance. */
  type EdgeFunction = (int, Position, real) -> real

  /** It vanishes at the cutoff, whatever the neighbour and the direction. */
  ghost predicate VanishesAtCutoff(f: EdgeFunction, rCut: real) {
    forall j: int, v: Position :: f(j, v, rCut) == 0.0
  }

  /** What receiver i sums up over its edges, from the stored rows. */
  ghost function StoredSum(g: Geometry, positions: seq<Position>, edges: seq<Edge>, f: EdgeFunction): real
    requires g.rCut > 0.0 && forall e <- edges :: e.i < |positions| && e.j < |positions|
  {
    if edges == [] then 0.0 else
      var e := edges[|edges| - 1];
      StoredSum(g, positions, edges[..|edges| - 1], f)
      + f(e.j, g.StoredVector(positions, e.i, e.j), g.StoredDistance(positions, e.i, e.j))
  }

  lemma StoredSumGrows(g: Geometry, positions: seq<Position>, edges: seq<Edge>, e: Edge, f: EdgeFunction)
    requires g.rCut > 0.0 && e.i < |positions| && e.j < |positions|
    requires forall e <- edges :: e.i < |positions| && e.j < |positions|
    ensures StoredSum(g, positions, edges + [e], f)
         == StoredSum(g, positions, edges, f)
            + f(e.j, g.StoredVector(positions, e.i, e.j), g.StoredDistance(positions, e.i, e.j))
  {
    assert (edges + [e])[..|edges|] == edges;
  }

  /** One more neighbour changes both sums alike: it counts the same in both, or it counts nothing in the first. */
  lemma OneMoreNeighbour(g: Geometry, positions: seq<Position>, skin: seq<Edge>, close: seq<Edge>, e: Edge,
                         f: EdgeFunction)
    requires g.rCut > 0.0 && g.stable && TakesRoots(g.sqrt) && VanishesAtCutoff(f, g.rCut)
    requires e.i < |positions| && e.j < |positions|
    requires forall e <- skin :: e.i < |positions| && e.j < |positions|
    requires forall e <- close :: e.i < |positions| && e.j < |positions|
    requires StoredSum(g, positions, skin, f) == StoredSum(g, positions, close, f)
    ensures StoredSum(g, positions, skin + [e], f)
         == StoredSum(g, positions, if g.Close(positions, e.i, e.j) then close + [e] else close, f)
  {
    StoredAtCutoff(g, positions, e.i, e.j);
    StoredSumGrows(g, positions, skin, e, f);
    StoredSumGrows(g, positions, close, e, f);
  }

  lemma EdgesInside(rule: EdgeRule, list: NeighbourList, atoms: nat, i: nat, n: nat)
    requires list.Valid(atoms) && rule.neighbours == list.neighbours && i < atoms && n <= |list.neighbours[i]|
    ensures forall e <- rule.EdgesOf(i, n) :: e.i < atoms && e.j < atoms
  {
    forall e <- rule.EdgesOf(i, n) ensures e.i < atoms && e.j < atoms {
      rule.EdgesAreKept(i, n, e);
      assert list.ListValid(list.neighbours[i], atoms);
    }
  }

  /** For every receiver, every list and all positions: summing over the whole skin list with clamped edges gives what
      summing over the edges within the cutoff gives. */
  lemma {:induction false} SkinEdgesAddNothing(g: Geometry, list: NeighbourList, positions: seq<Position>, i: nat,
                                               n: nat,
                                               f: EdgeFunction)
    requires g.rCut > 0.0 && g.stable && TakesRoots(g.sqrt) && VanishesAtCutoff(f, g.rCut)
    requires list.Valid(|positions|) && i < |positions| && n <= |list.neighbours[i]|
    ensures forall e <- g.Rule(list, positions).EdgesOf(i, n) :: e.i < |positions| && e.j < |positions|
    ensures forall e <- g.CutoffRule(list, positions).EdgesOf(i, n) :: e.i < |positions| && e.j < |positions|
    ensures StoredSum(g, positions, g.Rule(list, positions).EdgesOf(i, n), f)
         == StoredSum(g, positions, g.CutoffRule(list, positions).EdgesOf(i, n), f)
  {
    EdgesInside(g.Rule(list, positions), list, |positions|, i, n);
    EdgesInside(g.CutoffRule(list, positions), list, |positions|, i, n);
    if n == 0 {
    } else {
      SkinEdgesAddNothing(g, list, positions, i, n - 1, f);
      assert list.ListValid(list.neighbours[i], |positions|);
      EdgesInside(g.Rule(list, positions), list, |positions|, i, n - 1);
      EdgesInside(g.CutoffRule(list, positions), list, |positions|, i, n - 1);
      OneMoreNeighbour(g, positions, g.Rule(list, positions).EdgesOf(i, n - 1),
                       g.CutoffRule(list, positions).EdgesOf(i, n - 1), Edge(i, list.neighbours[i][n - 1]), f);
    }
  }
}
