/** The edge-linear message stage of one rank and its transpose (libsymmetrix/source/mace.cpp:1970-1999 and
    2169-2195): running edge counters over flat buffers, for any coefficients. */
module MessageStages {
  import opened FiniteSums
  import opened FlatIndex
  import opened NestedSums
  import opened HaloExchange
  import opened HaloBuffers

  /** Flat buffers of terms hold `outputs` terms for every edge. Term t belongs to this edge, */
  function EdgeOf(t: int, outputs: nat): (e: int)
    requires outputs > 0
    ensures e >= 0
    decreases t
  {
    if t < outputs then 0 else EdgeOf(t - outputs, outputs) + 1
  }

  /** and is this output of it. */
  function OutputOf(t: int, outputs: nat): (q: int)
    requires outputs > 0
    ensures q < outputs && (t >= 0 ==> q >= 0)
    decreases t
  {
    if t < outputs then t else OutputOf(t - outputs, outputs)
  }

  /** Output q of edge e is term e * outputs + q, */
  lemma {:induction false} TermPlace(e: nat, outputs: nat, q: nat)
    requires q < outputs
    ensures EdgeOf(Offset(e, outputs, q), outputs) == e && OutputOf(Offset(e, outputs, q), outputs) == q
  {
    if e == 0 {
    } else {
      TermPlace(e - 1, outputs, q);
      ProductNonNegative(e - 1, outputs);
      assert Offset(e, outputs, q) == Offset(e - 1, outputs, q) + outputs;
    }
  }

  /** and every term is one. */
  lemma TermDecoded(t: nat, edges: nat, outputs: nat)
    requires outputs > 0 && t < edges * outputs
    ensures EdgeOf(t, outputs) < edges && t == Offset(EdgeOf(t, outputs), outputs, OutputOf(t, outputs))
  {
    FlatDecoded(t, edges, outputs);
    TermPlace(t / outputs, outputs, t % outputs);
  }

  /** What one rank brings to a round: its nodes (node ii is atom ilist[ii]), the neighbours of each node as atoms,
      the stage's coefficients (one per edge and output) and the features it computed, node by node. */
  datatype RankGraph = RankGraph(ilist: seq<nat>, numNeigh: seq<nat>, neighJ: seq<nat>, coefficients: seq<real>,
                                 features: seq<real>)
  {
    /** Output q of a message reads component source[q] of the neighbour. */
    predicate Valid(width: nat, atoms: nat, source: seq<nat>) {
      && source != [] && (forall q :: 0 <= q < |source| ==> source[q] < width)
      && |ilist| <= atoms && ListsEveryAtom() && |features| == |ilist| * width
      && |numNeigh| == |ilist| && |neighJ| == Start(|ilist|) && |coefficients| == |neighJ| * |source|
      && (forall e :: 0 <= e < |neighJ| ==> neighJ[e] < atoms)
    }

    /** The list names the owned atoms, each once. */
    predicate ListsEveryAtom() {
      && (forall ii :: 0 <= ii < |ilist| ==> ilist[ii] < |ilist|)
      && (forall ii, jj :: 0 <= ii < jj < |ilist| ==> ilist[ii] != ilist[jj])
      && (forall a :: 0 <= a < |ilist| ==> a in ilist)
    }

    /** First edge of node n. */
    function Start(n: nat): nat
      requires n <= |numNeigh|
    {
      if n == 0 then 0 else Start(n - 1) + numNeigh[n - 1]
    }

    /** The node edge e belongs to, among the first n. */
    function NodeOf(e: int, n: nat): nat
      requires n <= |numNeigh|
    {
      if n == 0 then 0 else if Start(n - 1) <= e then n - 1 else NodeOf(e, n - 1)
    }

    lemma {:induction false} StartMonotone(i: nat, n: nat)
      requires i <= n <= |numNeigh|
      ensures Start(i) <= Start(n)
    {
      if i == n {
      } else {
        StartMonotone(i, n - 1);
      }
    }

    lemma {:induction false} NodeFound(e: nat, i: nat, n: nat)
      requires i < n <= |numNeigh| && Start(i) <= e < Start(i + 1)
      ensures NodeOf(e, n) == i
    {
      if n == i + 1 {
      } else {
        StartMonotone(i + 1, n - 1);
        NodeFound(e, i, n - 1);
      }
    }

    /** Every edge lies between its node's first edge and the next node's. */
    lemma {:induction false} NodeHolds(e: nat, n: nat)
      requires n <= |numNeigh| && e < Start(n)
      ensures NodeOf(e, n) < n && Start(NodeOf(e, n)) <= e < Start(NodeOf(e, n) + 1)
    {
      if n == 0 {
      } else if Start(n - 1) <= e {
      } else {
        NodeHolds(e, n - 1);
      }
    }

    /** And between no other node's. */
    lemma OtherNode(e: nat, node: nat, i: nat)
      requires node < |numNeigh| && i < |numNeigh| && node != i && Start(node) <= e < Start(node + 1)
      ensures !(Start(i) <= e < Start(i + 1))
    {
      if node < i {
        StartMonotone(node + 1, i);
      } else {
        StartMonotone(i + 1, node);
      }
    }

    function NeighbourAt(e: int): nat {
      if 0 <= e < |neighJ| then neighJ[e] else 0
    }

    /** What term t weighs component p with. */
    function Coefficient(source: seq<nat>, p: int, t: int): real
      requires source != []
    {
      if 0 <= t < |coefficients| && source[OutputOf(t, |source|)] == p then coefficients[t] else 0.0
    }

    /** The stage as far as it reads component p, for a rank whose slots start at `first`. The receivers are the
        places of the flat message buffer. */
    ghost function Stage(source: seq<nat>, first: int, p: int): Edges
      requires source != []
    {
      ProductNonNegative(|neighJ|, |source|);
      Edges(|neighJ| * |source|, Receivers(source), t => first + NeighbourAt(EdgeOf(t, |source|)),
            Coefficients(source, p))
    }

    ghost function Receivers(source: seq<nat>): int -> int
      requires source != []
    {
      t => Offset(NodeOf(EdgeOf(t, |source|), |numNeigh|), |source|, OutputOf(t, |source|))
    }

    ghost function Coefficients(source: seq<nat>, p: int): int -> real
      requires source != []
    {
      t => Coefficient(source, p, t)
    }

    lemma StageNeighbour(source: seq<nat>, first: int, p: int, t: int, e: int)
      requires source != [] && e == EdgeOf(t, |source|)
      ensures Stage(source, first, p).neighbour(t) == first + NeighbourAt(e)
    {
    }

    /** Term t, taken apart. */
    lemma TermParts(source: seq<nat>, first: int, p: int, i: nat, e: nat, q: nat)
      requires source != [] && q < |source| && i < |numNeigh| && Start(i) <= e < Start(i + 1) && e < |neighJ|
      requires |coefficients| == |neighJ| * |source|
      ensures var t := Offset(e, |source|, q);
              && 0 <= t < |coefficients|
              && Stage(source, first, p).receiver(t) == Offset(i, |source|, q)
              && Stage(source, first, p).neighbour(t) == first + neighJ[e]
              && Stage(source, first, p).kernel(t) == if source[q] == p then coefficients[t] else 0.0
    {
      TermPlace(e, |source|, q);
      OffsetBound(e, |neighJ|, |source|, q);
      NodeFound(e, i, |numNeigh|);
    }

    /** Where the stage points does not depend on the numbering of the slots: slot s is atom a of the rank. */
    lemma StageShifted(source: seq<nat>, first: int, p: int, w: int -> real, s: int, a: int)
      requires source != [] && s == first + a
      ensures Stage(source, first, p).Scattered(w)(s) == Stage(source, 0, p).Scattered(w)(a)
    {
      SameShares(Stage(source, first, p), Stage(source, 0, p), w, s, a);
    }
  }

  /** Two stages that hand the same back, one to slot s and the other to slot a. */
  lemma SameShares(here: Edges, there: Edges, w: int -> real, s: int, a: int)
    requires here.count == there.count && here.receiver == there.receiver && here.kernel == there.kernel
    requires forall t :: here.neighbour(t) == s <==> there.neighbour(t) == a
    ensures here.Scattered(w)(s) == there.Scattered(w)(a)
  {
    SumCong(here.count, here.Share(w, s), there.Share(w, a));
  }

  /** Component p of each atom of one rank. */
  ghost function ComponentOf(h: seq<real>, width: nat, p: int): int -> real {
    a => Entry(h, width, a, p)
  }

  lemma NextRow(e: int, width: nat)
    ensures Offset(e, width, width) == Offset(e + 1, width, 0)
  {
    assert (e + 1) * width == e * width + width;
  }

  // ---------------------------------------------------------------- the stage on one rank

  /** Entry u of the message buffer after the first t terms. */
  ghost function PartialMessage(graph: RankGraph, source: seq<nat>, h: seq<real>, width: nat, u: nat, t: nat): real
    requires source != []
  {
    var p := source[OutputOf(u, |source|)];
    Sum(t, graph.Stage(source, 0, p).Term(ComponentOf(h, width, p), u))
  }

  ghost predicate MessagesAt(graph: RankGraph, source: seq<nat>, h: seq<real>, width: nat, messages: seq<real>, t: nat)
    requires source != []
  {
    && |messages| == |graph.ilist| * |source|
    && forall u :: 0 <= u < |messages| ==> messages[u] == PartialMessage(graph, source, h, width, u, t)
  }

  /** Term t, output q of edge e of node i, goes to one place of the message buffer. */
  lemma TermStep(graph: RankGraph, source: seq<nat>, h: seq<real>, width: nat, atoms: nat, p: int, u: int, i: nat,
                 e: nat,
                 q: nat, t: nat)
    requires graph.Valid(width, atoms, source) && q < |source| && i < |graph.ilist| && t == Offset(e, |source|, q)
    requires graph.Start(i) <= e < graph.Start(i + 1) && e < |graph.neighJ|
    requires u == Offset(i, |source|, q) ==> p == source[q]
    ensures t < |graph.coefficients|
    ensures graph.Stage(source, 0, p).Term(ComponentOf(h, width, p), u)(t)
         == if u == Offset(i, |source|, q)
            then Product(graph.coefficients[t], Entry(h, width, graph.neighJ[e], source[q])) else 0.0
  {
    graph.TermParts(source, 0, p, i, e, q);
  }

  lemma MessageStep(graph: RankGraph, source: seq<nat>, h: seq<real>, width: nat, atoms: nat, u: nat, i: nat, e: nat,
                    q: nat,
                    t: nat)
    requires graph.Valid(width, atoms, source) && q < |source| && i < |graph.ilist| && t == Offset(e, |source|, q)
    requires graph.Start(i) <= e < graph.Start(i + 1) && e < |graph.neighJ|
    ensures t < |graph.coefficients|
    ensures PartialMessage(graph, source, h, width, u, t + 1)
         == PartialMessage(graph, source, h, width, u, t)
            + (if u == Offset(i, |source|, q)
               then Product(graph.coefficients[t], Entry(h, width, graph.neighJ[e], source[q])) else 0.0)
  {
    var p := source[OutputOf(u, |source|)];
    TermPlace(i, |source|, q);
    TermStep(graph, source, h, width, atoms, p, u, i, e, q, t);
    SumGrows(t, graph.Stage(source, 0, p).Term(ComponentOf(h, width, p), u));
  }

  lemma SumGrows(t: nat, f: int -> real)
    ensures Sum(t + 1, f) == Sum(t, f) + f(t)
  {
  }

  lemma MessagesGrow(graph: RankGraph, source: seq<nat>, h: seq<real>, width: nat, atoms: nat, messages: seq<real>,
                     i: nat, e: nat, q: nat, t: nat, u: nat, v: real)
    requires graph.Valid(width, atoms, source) && q < |source| && i < |graph.ilist| && t == Offset(e, |source|, q)
    requires graph.Start(i) <= e < graph.Start(i + 1) && e < |graph.neighJ| && u == Offset(i, |source|, q)
    requires MessagesAt(graph, source, h, width, messages, t) && u < |messages| && t < |graph.coefficients|
    requires v == Product(graph.coefficients[t], Entry(h, width, graph.neighJ[e], source[q]))
    ensures MessagesAt(graph, source, h, width, messages[u := messages[u] + v], t + 1)
  {
    var grown := messages[u := messages[u] + v];
    forall k | 0 <= k < |grown| ensures grown[k] == PartialMessage(graph, source, h, width, k, t + 1) {
      MessageStep(graph, source, h, width, atoms, k, i, e, q, t);
    }
  }

  /** One output of one edge. */
  method GatherTerm(rank: PairRank, graph: RankGraph, source: seq<nat>, i: nat, ij: nat, q: nat, t: nat,
                    messages: seq<real>)
    returns (messages': seq<real>)
    requires rank.Valid() && graph.Valid(rank.width, rank.atoms, source) && i < |graph.ilist| && q < |source|
    requires graph.Start(i) <= ij < graph.Start(i + 1) && ij < |graph.neighJ| && t == Offset(ij, |source|, q)
    requires MessagesAt(graph, source, rank.h1[..], rank.width, messages, t)
    ensures MessagesAt(graph, source, rank.h1[..], rank.width, messages', t + 1)
  {
    OffsetBound(i, |graph.ilist|, |source|, q);
    OffsetBound(ij, |graph.neighJ|, |source|, q);
    EntryInside(rank.h1.Length, rank.atoms, rank.width, graph.neighJ[ij], source[q]);
    var feature := ReadEntry(rank.h1, rank.width, graph.neighJ[ij], source[q]);
    var u, v := i * |source| + q, Product(graph.coefficients[t], feature);
    MessagesGrow(graph, source, rank.h1[..], rank.width, rank.atoms, messages, i, ij, q, t, u, v);
    messages' := messages[u := messages[u] + v];
  }

  /** All outputs of one edge. */
  method GatherEdge(rank: PairRank, graph: RankGraph, source: seq<nat>, i: nat, ij: nat, start: nat,
                    messages: seq<real>)
    returns (messages': seq<real>, next: nat)
    requires rank.Valid() && graph.Valid(rank.width, rank.atoms, source) && i < |graph.ilist|
    requires graph.Start(i) <= ij < graph.Start(i + 1) && ij < |graph.neighJ| && start == Offset(ij, |source|, 0)
    requires MessagesAt(graph, source, rank.h1[..], rank.width, messages, start)
    ensures next == start + |source| && MessagesAt(graph, source, rank.h1[..], rank.width, messages', next)
  {
    messages', next := messages, start;
    for q := 0 to |source|
      invariant next == start + q && MessagesAt(graph, source, rank.h1[..], rank.width, messages', next)
    {
      messages' := GatherTerm(rank, graph, source, i, ij, q, next, messages');
      next := next + 1;
    }
  }

  /** The message of every node: the stage over the neighbours' features. */
  method Gather(rank: PairRank, graph: RankGraph, source: seq<nat>) returns (messages: seq<real>)
    requires rank.Valid() && graph.Valid(rank.width, rank.atoms, source)
    ensures |messages| == |graph.ilist| * |source|
    ensures forall u :: 0 <= u < |messages| ==>
              var p := source[OutputOf(u, |source|)];
              messages[u] == graph.Stage(source, 0, p).Gathered(ComponentOf(rank.h1[..], rank.width, p), u)
    ensures forall i: nat, q: nat :: i < |graph.ilist| && q < |source| ==>
              At(messages, Offset(i, |source|, q))
              == Sum(graph.numNeigh[i], NodeTerms(graph, |source|, NeighbourEntries(graph, rank.h1[..], rank.width,
                                                                                    source[q]), q, graph.Start(i)))
  {
    ProductNonNegative(|graph.ilist|, |source|);
    messages := seq(|graph.ilist| * |source|, _ => 0.0);
    var ij: nat, t: nat := 0, 0;
    for i := 0 to |graph.ilist|
      invariant ij == graph.Start(i) && t == Offset(ij, |source|, 0)
      invariant MessagesAt(graph, source, rank.h1[..], rank.width, messages, t)
    {
      graph.StartMonotone(i + 1, |graph.ilist|);
      for j := 0 to graph.numNeigh[i]
        invariant ij == graph.Start(i) + j && t == Offset(ij, |source|, 0)
        invariant MessagesAt(graph, source, rank.h1[..], rank.width, messages, t)
      {
        messages, t := GatherEdge(rank, graph, source, i, ij, t, messages);
        NextRow(ij, |source|);
        ij := ij + 1;
      }
    }
    forall i: nat, q: nat | i < |graph.ilist| && q < |source|
      ensures At(messages, Offset(i, |source|, q))
           == Sum(graph.numNeigh[i], NodeTerms(graph, |source|, NeighbourEntries(graph, rank.h1[..], rank.width,
                                                                                 source[q]), q, graph.Start(i)))
    {
      MessageIs(graph, source, rank.h1[..], rank.width, rank.atoms, messages, i, q);
    }
  }

  /** Component p of the neighbour that edge e points at: it stands at neighJ[e] * width + p. */
  ghost function NeighbourEntries(graph: RankGraph, h: seq<real>, width: nat, p: int): int -> real {
    e => At(h, Offset(graph.NeighbourAt(e), width, p))
  }

  lemma MessageIs(graph: RankGraph, source: seq<nat>, h: seq<real>, width: nat, atoms: nat, messages: seq<real>, i: nat,
                  q: nat)
    requires graph.Valid(width, atoms, source) && i < |graph.ilist| && q < |source|
    requires |messages| == |graph.ilist| * |source|
    requires forall u :: 0 <= u < |messages| ==>
               var p := source[OutputOf(u, |source|)];
               messages[u] == graph.Stage(source, 0, p).Gathered(ComponentOf(h, width, p), u)
    ensures At(messages, Offset(i, |source|, q))
         == Sum(graph.numNeigh[i], NodeTerms(graph, |source|, NeighbourEntries(graph, h, width, source[q]), q,
                                             graph.Start(i)))
  {
    var p, u := source[q], Offset(i, |source|, q);
    TermPlace(i, |source|, q);
    OffsetBound(i, |graph.ilist|, |source|, q);
    StageReads(graph, source, h, width, q);
    GatheredIs(graph, source, graph.Stage(source, 0, p), ComponentOf(h, width, p), NeighbourEntries(graph, h, width, p),
               i, q);
  }

  lemma StageReads(graph: RankGraph, source: seq<nat>, h: seq<real>, width: nat, q: nat)
    requires source != [] && q < |source| && |graph.neighJ| == graph.Start(|graph.numNeigh|)
    requires |graph.coefficients| == |graph.neighJ| * |source|
    ensures ReadsThrough(graph, source, graph.Stage(source, 0, source[q]), ComponentOf(h, width, source[q]),
                         NeighbourEntries(graph, h, width, source[q]), q)
  {
  }

  /** What the first t terms have handed back to component p of atom a. */
  ghost function PartialShare(graph: RankGraph, source: seq<nat>, w: seq<real>, a: int, p: int, t: nat): real
    requires source != []
  {
    Sum(t, graph.Stage(source, 0, p).Share(Entries(w), a))
  }

  ghost predicate SharesAt(graph: RankGraph, source: seq<nat>, w: seq<real>, width: nat, before: seq<real>,
                           after: seq<real>,
                           t: nat)
    requires source != []
  {
    forall a, p :: 0 <= p < width ==>
      Entry(after, width, a, p) == Entry(before, width, a, p) + PartialShare(graph, source, w, a, p, t)
  }

  lemma ShareStep(graph: RankGraph, source: seq<nat>, w: seq<real>, width: nat, atoms: nat, a: int, p: int, i: nat,
                  e: nat,
                  q: nat, t: nat, u: nat)
    requires graph.Valid(width, atoms, source) && q < |source| && i < |graph.ilist| && |w| == |graph.ilist| * |source|
    requires graph.Start(i) <= e < graph.Start(i + 1) && e < |graph.neighJ|
    requires t == Offset(e, |source|, q) && u == Offset(i, |source|, q) && u < |w|
    ensures t < |graph.coefficients|
    ensures PartialShare(graph, source, w, a, p, t + 1)
         == PartialShare(graph, source, w, a, p, t)
            + (if a == graph.neighJ[e] && p == source[q] then Product(graph.coefficients[t], w[u]) else 0.0)
  {
    graph.TermParts(source, 0, p, i, e, q);
  }

  lemma SharesGrow(graph: RankGraph, source: seq<nat>, w: seq<real>, width: nat, atoms: nat, before: seq<real>,
                   x: seq<real>, y: seq<real>, i: nat, e: nat, q: nat, t: nat, u: nat)
    requires graph.Valid(width, atoms, source) && q < |source| && i < |graph.ilist| && |w| == |graph.ilist| * |source|
    requires graph.Start(i) <= e < graph.Start(i + 1) && e < |graph.neighJ|
    requires t == Offset(e, |source|, q) && u == Offset(i, |source|, q) && u < |w| && t < |graph.coefficients|
    requires SharesAt(graph, source, w, width, before, x, t)
    requires EntryWritten(x, y, width, graph.neighJ[e], source[q],
                          Entry(x, width, graph.neighJ[e], source[q]) + Product(graph.coefficients[t], w[u]))
    ensures SharesAt(graph, source, w, width, before, y, t + 1)
  {
    forall a, p | 0 <= p < width
      ensures Entry(y, width, a, p) == Entry(before, width, a, p) + PartialShare(graph, source, w, a, p, t + 1)
    {
      ShareStep(graph, source, w, width, atoms, a, p, i, e, q, t, u);
    }
  }

  /** One output of one edge, transposed. */
  method ScatterTerm(rank: PairRank, graph: RankGraph, source: seq<nat>, w: seq<real>, i: nat, ij: nat, q: nat, t: nat,
                     ghost before: seq<real>)
    requires rank.Valid() && graph.Valid(rank.width, rank.atoms, source) && i < |graph.ilist| && q < |source|
    requires |w| == |graph.ilist| * |source|
    requires graph.Start(i) <= ij < graph.Start(i + 1) && ij < |graph.neighJ| && t == Offset(ij, |source|, q)
    requires SharesAt(graph, source, w, rank.width, before, rank.h1Adj[..], t)
    modifies rank.h1Adj
    ensures SharesAt(graph, source, w, rank.width, before, rank.h1Adj[..], t + 1)
  {
    ghost var x := rank.h1Adj[..];
    OffsetBound(i, |graph.ilist|, |source|, q);
    OffsetBound(ij, |graph.neighJ|, |source|, q);
    EntryInside(rank.h1Adj.Length, rank.atoms, rank.width, graph.neighJ[ij], source[q]);
    var adjoint := ReadEntry(rank.h1Adj, rank.width, graph.neighJ[ij], source[q]);
    var u := i * |source| + q;
    WriteEntry(rank.h1Adj, rank.width, graph.neighJ[ij], source[q], adjoint + Product(graph.coefficients[t], w[u]));
    SharesGrow(graph, source, w, rank.width, rank.atoms, before, x, rank.h1Adj[..], i, ij, q, t, u);
  }

  /** All outputs of one edge, transposed. */
  method ScatterEdge(rank: PairRank, graph: RankGraph, source: seq<nat>, w: seq<real>, i: nat, ij: nat, start: nat,
                     ghost before: seq<real>)
    returns (next: nat)
    requires rank.Valid() && graph.Valid(rank.width, rank.atoms, source) && i < |graph.ilist|
    requires |w| == |graph.ilist| * |source|
    requires graph.Start(i) <= ij < graph.Start(i + 1) && ij < |graph.neighJ| && start == Offset(ij, |source|, 0)
    requires SharesAt(graph, source, w, rank.width, before, rank.h1Adj[..], start)
    modifies rank.h1Adj
    ensures next == start + |source| && SharesAt(graph, source, w, rank.width, before, rank.h1Adj[..], next)
  {
    next := start;
    for q := 0 to |source|
      invariant next == start + q && SharesAt(graph, source, w, rank.width, before, rank.h1Adj[..], next)
    {
      ScatterTerm(rank, graph, source, w, i, ij, q, next, before);
      next := next + 1;
    }
  }

  /** The adjoints of the features: every atom collects what the edges that point at it hand back. */
  method Scatter(rank: PairRank, graph: RankGraph, source: seq<nat>, w: seq<real>)
    requires rank.Valid() && graph.Valid(rank.width, rank.atoms, source) && |w| == |graph.ilist| * |source|
    modifies rank.h1Adj
    ensures forall a, p :: 0 <= p < rank.width ==>
              (Entry(rank.h1Adj[..], rank.width, a, p)
            == old(Entry(rank.h1Adj[..], rank.width, a, p)) + graph.Stage(source, 0, p).Scattered(Entries(w))(a))
  {
    ghost var before := rank.h1Adj[..];
    var ij: nat, t: nat := 0, 0;
    for i := 0 to |graph.ilist|
      invariant ij == graph.Start(i) && t == Offset(ij, |source|, 0)
      invariant SharesAt(graph, source, w, rank.width, before, rank.h1Adj[..], t)
    {
      graph.StartMonotone(i + 1, |graph.ilist|);
      for j := 0 to graph.numNeigh[i]
        invariant ij == graph.Start(i) + j && t == Offset(ij, |source|, 0)
        invariant SharesAt(graph, source, w, rank.width, before, rank.h1Adj[..], t)
      {
        t := ScatterEdge(rank, graph, source, w, i, ij, t, before);
        NextRow(ij, |source|);
        ij := ij + 1;
      }
    }
    forall a, p | 0 <= p < rank.width
      ensures (Entry(rank.h1Adj[..], rank.width, a, p)
            == Entry(before, rank.width, a, p) + graph.Stage(source, 0, p).Scattered(Entries(w))(a))
    {
      assert PartialShare(graph, source, w, a, p, t) == graph.Stage(source, 0, p).Scattered(Entries(w))(a);
    }
  }

  // ---------------------------------------------------------------- the two stages, written out

  /** What edge e adds to output q of its node. */
  ghost function EdgeTerm(graph: RankGraph, outputs: nat, z: int -> real, q: nat): int -> real {
    e => At(graph.coefficients, Offset(e, outputs, q)) * z(e)
  }

  /** The stage as it computes output q, reading z(e) through edge e. */
  ghost predicate ReadsThrough(graph: RankGraph, source: seq<nat>, edges: Edges, x: int -> real, z: int -> real, q: nat)
  {
    && source != [] && q < |source| && |graph.neighJ| == graph.Start(|graph.numNeigh|)
    && |graph.coefficients| == |graph.neighJ| * |source| == edges.count
    && edges.receiver == graph.Receivers(source) && edges.kernel == graph.Coefficients(source, source[q])
    && forall t :: 0 <= t < edges.count ==> x(edges.neighbour(t)) == z(EdgeOf(t, |source|))
  }

  /** Output q of the message of node i is the sum over the node's edges, from its first one on, of the edge's
      coefficient for q times what the edge reads. */
  lemma GatheredIs(graph: RankGraph, source: seq<nat>, edges: Edges, x: int -> real, z: int -> real, i: nat, q: nat)
    requires ReadsThrough(graph, source, edges, x, z, q) && i < |graph.numNeigh|
    ensures edges.Gathered(x, Offset(i, |source|, q))
         == Sum(graph.numNeigh[i], NodeTerms(graph, |source|, z, q, graph.Start(i)))
  {
    var outputs, n, first, term := |source|, |graph.neighJ|, graph.Start(i), edges.Term(x, Offset(i, |source|, q));
    FlatSum(n, outputs, term);
    graph.StartMonotone(i + 1, |graph.numNeigh|);
    forall e | 0 <= e < n
      ensures RowTotals(term, outputs)(e)
           == if first <= e < first + graph.numNeigh[i] then EdgeTerm(graph, outputs, z, q)(e) else 0.0
    {
      EdgeTotal(graph, source, edges, x, z, i, q, e);
    }
    NodeWindow(n, first, graph.numNeigh[i], RowTotals(term, outputs), graph, outputs, z, q);
  }

  /** The terms of the node whose first edge this is. */
  ghost function NodeTerms(graph: RankGraph, outputs: nat, z: int -> real, q: nat, first: nat): int -> real {
    j => EdgeTerm(graph, outputs, z, q)(first + j)
  }

  lemma NodeWindow(n: nat, first: nat, count: nat, totals: int -> real, graph: RankGraph, outputs: nat, z: int -> real,
                   q: nat)
    requires first + count <= n
    requires forall e :: 0 <= e < n ==>
               totals(e) == if first <= e < first + count then EdgeTerm(graph, outputs, z, q)(e) else 0.0
    ensures Sum(n, totals) == Sum(count, NodeTerms(graph, outputs, z, q, first))
  {
    SumWindow(n, first, count, totals, NodeTerms(graph, outputs, z, q, first));
  }

  lemma EdgeTotal(graph: RankGraph, source: seq<nat>, edges: Edges, x: int -> real, z: int -> real, i: nat, q: nat,
                  e: nat)
    requires ReadsThrough(graph, source, edges, x, z, q) && i < |graph.numNeigh| && e < |graph.neighJ|
    ensures RowTotals(edges.Term(x, Offset(i, |source|, q)), |source|)(e)
         == if graph.Start(i) <= e < graph.Start(i + 1) then EdgeTerm(graph, |source|, z, q)(e) else 0.0
  {
    var outputs, term := |source|, edges.Term(x, Offset(i, |source|, q));
    var row := k => term(Offset(e, outputs, k));
    var node := graph.NodeOf(e, |graph.numNeigh|);
    graph.NodeHolds(e, |graph.numNeigh|);
    forall k | 0 <= k < outputs
      ensures row(k) == if k == q && node == i then EdgeTerm(graph, outputs, z, q)(e) else 0.0
    {
      OneTerm(graph, source, edges, x, z, i, q, e, k, node);
    }
    if node != i {
      graph.OtherNode(e, node, i);
    }
    SingleOrZero(outputs, q, row, node == i, EdgeTerm(graph, outputs, z, q)(e));
    SumCong(outputs, k => term(Offset(e, outputs, k)), row);
  }

  lemma SingleOrZero(n: nat, q: nat, f: int -> real, hit: bool, v: real)
    requires q < n && forall k :: 0 <= k < n ==> f(k) == if k == q && hit then v else 0.0
    ensures Sum(n, f) == if hit then v else 0.0
  {
    SumSingle(n, q, f);
  }

  lemma OneTerm(graph: RankGraph, source: seq<nat>, edges: Edges, x: int -> real, z: int -> real, i: nat, q: nat,
                e: nat, k: nat, node: nat)
    requires ReadsThrough(graph, source, edges, x, z, q) && k < |source| && i < |graph.numNeigh| && e < |graph.neighJ|
    requires node == graph.NodeOf(e, |graph.numNeigh|)
    ensures edges.Term(x, Offset(i, |source|, q))(Offset(e, |source|, k))
         == if k == q && node == i then EdgeTerm(graph, |source|, z, q)(e) else 0.0
  {
    var outputs, t := |source|, Offset(e, |source|, k);
    TermPlace(e, outputs, k);
    OffsetBound(e, |graph.neighJ|, outputs, k);
    assert edges.receiver(t) == Offset(node, outputs, k);
    if Offset(node, outputs, k) == Offset(i, outputs, q) {
      OffsetInjective(outputs, node, k, i, q);
      TermValue(graph, source, edges, x, z, q, e, t);
    }
  }

  /** What edge e hands back to component p of its neighbour, for message adjoints w. */
  ghost function HandedByEdge(graph: RankGraph, source: seq<nat>, p: int, w: int -> real, e: int): real {
    if 0 <= e
    then Sum(|source|, BackTerms(graph, source, p, w, e, graph.NodeOf(e, |graph.numNeigh|)))
    else 0.0
  }

  ghost function BackTerms(graph: RankGraph, source: seq<nat>, p: int, w: int -> real, e: int, node: nat): int -> real {
    q => if 0 <= q < |source| && source[q] == p
         then At(graph.coefficients, Offset(e, |source|, q)) * w(Offset(node, |source|, q)) else 0.0
  }

  /** What the edges that point at slot a hand back to it; `target` says where edge e points. */
  ghost function HandedTo(graph: RankGraph, source: seq<nat>, p: int, w: int -> real, target: int -> int, a: int)
    : int -> real
  {
    e => if target(e) == a then HandedByEdge(graph, source, p, w, e) else 0.0
  }

  /** The stage as far as it reads component p, with edge e pointing at target(e). */
  ghost predicate PointsThrough(graph: RankGraph, source: seq<nat>, edges: Edges, target: int -> int, p: int) {
    && source != [] && |graph.neighJ| == graph.Start(|graph.numNeigh|)
    && |graph.coefficients| == |graph.neighJ| * |source| == edges.count
    && edges.receiver == graph.Receivers(source) && edges.kernel == graph.Coefficients(source, p)
    && forall t :: 0 <= t < edges.count ==> edges.neighbour(t) == target(EdgeOf(t, |source|))
  }

  /** Component p of slot a collects, from every edge that points at it, the coefficients of the outputs that read p
      times the adjoints of those outputs of the edge's node. */
  lemma ScatteredIs(graph: RankGraph, source: seq<nat>, edges: Edges, target: int -> int, p: int, w: int -> real,
                    a: int)
    requires PointsThrough(graph, source, edges, target, p)
    ensures edges.Scattered(w)(a) == Sum(|graph.neighJ|, HandedTo(graph, source, p, w, target, a))
  {
    var share := edges.Share(w, a);
    FlatSum(|graph.neighJ|, |source|, share);
    forall e | 0 <= e < |graph.neighJ|
      ensures RowTotals(share, |source|)(e) == HandedTo(graph, source, p, w, target, a)(e)
    {
      EdgeShare(graph, source, edges, target, p, w, a, e);
    }
    SumCong(|graph.neighJ|, RowTotals(share, |source|), HandedTo(graph, source, p, w, target, a));
  }

  lemma EdgeShare(graph: RankGraph, source: seq<nat>, edges: Edges, target: int -> int, p: int, w: int -> real, a: int,
                  e: nat)
    requires PointsThrough(graph, source, edges, target, p) && e < |graph.neighJ|
    ensures RowTotals(edges.Share(w, a), |source|)(e) == HandedTo(graph, source, p, w, target, a)(e)
  {
    var share, node := edges.Share(w, a), graph.NodeOf(e, |graph.numNeigh|);
    var row, back := k => share(Offset(e, |source|, k)), BackTerms(graph, source, p, w, e, node);
    forall k | 0 <= k < |source| ensures row(k) == if target(e) == a then back(k) else 0.0 {
      OneShare(graph, source, edges, target, p, w, a, e, k, node);
    }
    if target(e) == a {
      SumCong(|source|, row, back);
    } else {
      SumZero(|source|, row);
    }
    SumCong(|source|, k => share(Offset(e, |source|, k)), row);
  }

  lemma OneShare(graph: RankGraph, source: seq<nat>, edges: Edges, target: int -> int, p: int, w: int -> real, a: int,
                 e: nat, k: nat, node: nat)
    requires PointsThrough(graph, source, edges, target, p) && e < |graph.neighJ| && k < |source|
    requires node == graph.NodeOf(e, |graph.numNeigh|)
    ensures edges.Share(w, a)(Offset(e, |source|, k))
         == if target(e) == a then BackTerms(graph, source, p, w, e, node)(k) else 0.0
  {
    var t, u := Offset(e, |source|, k), Offset(node, |source|, k);
    TermPlace(e, |source|, k);
    OffsetBound(e, |graph.neighJ|, |source|, k);
    assert edges.kernel(t) == graph.Coefficient(source, p, t);
    ShareIs(edges, w, a, t, target(e), source[k] == p, At(graph.coefficients, t), u);
    BackTermAt(graph, source, p, w, e, node, k, t, u);
  }

  lemma ShareIs(edges: Edges, w: int -> real, a: int, t: int, neighbour: int, hit: bool, kernel: real, receiver: int)
    requires edges.neighbour(t) == neighbour && edges.kernel(t) == (if hit then kernel else 0.0)
    requires edges.receiver(t) == receiver
    ensures edges.Share(w, a)(t) == if neighbour == a && hit then kernel * w(receiver) else 0.0
  {
  }

  lemma BackTermAt(graph: RankGraph, source: seq<nat>, p: int, w: int -> real, e: int, node: nat, k: nat, t: int,
                   u: int)
    requires k < |source| && t == Offset(e, |source|, k) && u == Offset(node, |source|, k)
    ensures BackTerms(graph, source, p, w, e, node)(k)
         == if source[k] == p then At(graph.coefficients, t) * w(u) else 0.0
  {
  }

  lemma TermValue(graph: RankGraph, source: seq<nat>, edges: Edges, x: int -> real, z: int -> real, q: nat, e: nat,
                  t: nat)
    requires ReadsThrough(graph, source, edges, x, z, q) && e < |graph.neighJ| && t == Offset(e, |source|, q)
    requires EdgeOf(t, |source|) == e && OutputOf(t, |source|) == q && t < edges.count
    ensures Product(edges.kernel(t), x(edges.neighbour(t))) == EdgeTerm(graph, |source|, z, q)(e)
  {
    KernelIs(graph, source, edges, q, t);
    assert x(edges.neighbour(t)) == z(e);
    EdgeTermIs(graph, |source|, z, q, e, t);
  }

  lemma EdgeTermIs(graph: RankGraph, outputs: nat, z: int -> real, q: nat, e: nat, t: nat)
    requires t == Offset(e, outputs, q)
    ensures EdgeTerm(graph, outputs, z, q)(e) == Product(At(graph.coefficients, t), z(e))
  {
  }

  lemma KernelIs(graph: RankGraph, source: seq<nat>, edges: Edges, q: nat, t: nat)
    requires q < |source| && edges.kernel == graph.Coefficients(source, source[q]) && OutputOf(t, |source|) == q
    ensures edges.kernel(t) == At(graph.coefficients, t)
  {
  }
}
