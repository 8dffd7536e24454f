/** The edges a neighbour list and a selection rule give, node by node: what the counting, scanning and filling passes
    of both pair styles agree on. */
module NeighbourEdges {

  datatype Edge = Edge(i: nat, j: nat)

  /** Everybody's neighbours, and which pairs become edges. */
  datatype EdgeRule = EdgeRule(neighbours: seq<seq<nat>>, keep: (int, int) -> bool) {
    predicate Inside(nodes: seq<nat>) {
      forall k :: 0 <= k < |nodes| ==> nodes[k] < |neighbours|
    }

    function NeighbourCount(i: nat): nat
      requires i < |neighbours|
    {
      |neighbours[i]|
    }

    /** The edges of atom i among its first n neighbours. */
    function EdgesOf(i: nat, n: nat): seq<Edge>
      requires i < |neighbours| && n <= |neighbours[i]|
    {
      if n == 0 then [] else
        var j := neighbours[i][n - 1];
        if keep(i, j) then EdgesOf(i, n - 1) + [Edge(i, j)] else EdgesOf(i, n - 1)
    }

    /** The edges of the first n nodes, node by node. */
    function EdgesOfNodes(nodes: seq<nat>, n: nat): seq<Edge>
      requires n <= |nodes| && Inside(nodes)
    {
      if n == 0 then [] else EdgesOfNodes(nodes, n - 1) + EdgesOf(nodes[n - 1], NeighbourCount(nodes[n - 1]))
    }

    /** The edges of atom i are its kept neighbours, and no others. */
    lemma {:induction false} EdgesAreKept(i: nat, n: nat, e: Edge)
      requires i < |neighbours| && n <= |neighbours[i]|
      ensures e in EdgesOf(i, n) <==> e.i == i && e.j in neighbours[i][..n] && keep(i, e.j)
    {
      if n == 0 {
      } else {
        EdgesAreKept(i, n - 1, e);
        assert neighbours[i][..n] == neighbours[i][..n - 1] + [neighbours[i][n - 1]];
      }
    }

    lemma {:induction false} EdgesGrow(i: nat, n: nat, m: nat)
      requires i < |neighbours| && n <= m <= |neighbours[i]|
      ensures EdgesOf(i, n) <= EdgesOf(i, m)
      decreases m - n
    {
      if n == m {
      } else {
        EdgesGrow(i, n, m - 1);
      }
    }

    lemma {:induction false} NodeEdgesGrow(nodes: seq<nat>, n: nat, m: nat)
      requires n <= m <= |nodes| && Inside(nodes)
      ensures EdgesOfNodes(nodes, n) <= EdgesOfNodes(nodes, m)
      decreases m - n
    {
      if n == m {
      } else {
        NodeEdgesGrow(nodes, n, m - 1);
      }
    }

    /** The counting passes and the filling pass agree: the kept neighbour jj of node ii has the row that follows the
        rows of the earlier nodes and the earlier kept neighbours. */
    lemma EdgePosition(nodes: seq<nat>, ii: nat, jj: nat)
      requires Inside(nodes) && ii < |nodes| && jj < NeighbourCount(nodes[ii])
      requires keep(nodes[ii], neighbours[nodes[ii]][jj])
      ensures var ij := |EdgesOfNodes(nodes, ii)| + |EdgesOf(nodes[ii], jj)|;
              && ij < |EdgesOfNodes(nodes, |nodes|)|
              && EdgesOfNodes(nodes, |nodes|)[ij] == Edge(nodes[ii], neighbours[nodes[ii]][jj])
    {
      var i := nodes[ii];
      EdgesGrow(i, jj + 1, |neighbours[i]|);
      NodeEdgesGrow(nodes, ii + 1, |nodes|);
      LastOfPrefix(EdgesOfNodes(nodes, ii), EdgesOf(i, jj + 1), EdgesOf(i, |neighbours[i]|),
                   EdgesOfNodes(nodes, |nodes|));
    }
  }

  /** The last element of a prefix of b, found in everything that starts with a + b. */
  lemma LastOfPrefix(a: seq<Edge>, p: seq<Edge>, b: seq<Edge>, all: seq<Edge>)
    requires p != [] && p <= b && a + b <= all
    ensures |a| + |p| - 1 < |all| && all[|a| + |p| - 1] == p[|p| - 1]
  {
    assert (a + b)[|a| + |p| - 1] == b[|p| - 1];
  }
}
