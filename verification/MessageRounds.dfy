/** One whole round of distributed message passing (pair_symmetrix/pair_symmetrix_mace.cpp:535-587): features out, the
    message stage, whatever each rank computes from its messages and its own features, the transposed stage, adjoints
    back. */
module MessageRounds {
  import opened FiniteSums
  import opened FlatIndex
  import opened HaloExchange
  import opened HaloBuffers
  import opened MessageStages

  /** What a rank's local stages return: the adjoints of its messages and, position by position, those of its own
      features. */
  datatype LocalAdjoints = LocalAdjoints(messages: seq<real>, rows: seq<real>)

  /** The local stages of rank r: anything computed from its messages and its own features, in the right sizes. */
  type LocalStages = (nat, seq<real>, seq<real>) -> LocalAdjoints

  ghost predicate SizesKept(local: LocalStages) {
    forall r, messages, rows ::
      |local(r, messages, rows).messages| == |messages| && |local(r, messages, rows).rows| == |rows|
  }

  /** All ranks, with `stride` slots each. */
  datatype Machine = Machine(graphs: seq<RankGraph>, swaps: seq<RankSwap>, source: seq<nat>, width: nat, stride: nat) {
    function First(r: int): int { Offset(r, stride, 0) }

    function Slots(): nat {
      ProductNonNegative(|graphs|, stride);
      |graphs| * stride
    }

    /** The owned atoms of every rank. */
    ghost function Owned(): set<int> {
      set s | 0 <= s < Slots() && IsOwned(s)
    }

    ghost predicate IsOwned(s: int) {
      stride > 0 && 0 <= s / stride < |graphs| && s % stride < |graphs[s / stride].ilist|
    }

    ghost function Sched(): Schedule {
      FlatSchedule(swaps, stride, Slots(), Owned())
    }

    /** Arrays and graphs of the right sizes. */
    ghost predicate Shaped(ranks: seq<PairRank>)
      reads ranks
    {
      && stride > 0 && source != [] && |ranks| == |graphs| && Separate(ranks, width, stride)
      && forall r: nat :: r < |ranks| ==> GraphFits(ranks, r)
    }

    ghost predicate GraphFits(ranks: seq<PairRank>, r: nat)
      requires r < |ranks| && r < |graphs|
      reads ranks
    {
      graphs[r].Valid(width, ranks[r].atoms, source)
    }

    /** What being shaped means for one rank. */
    lemma RankShape(ranks: seq<PairRank>, r: nat)
      requires Shaped(ranks) && r < |ranks|
      ensures ranks[r].Valid() && ranks[r].width == width && ranks[r].atoms <= stride
      ensures graphs[r].Valid(width, ranks[r].atoms, source) && |graphs[r].ilist| <= stride
      ensures NeighboursInside(r)
    {
      assert GraphFits(ranks, r) && RankFits(ranks, r, width, stride);
    }

    /** A valid schedule, and neighbours that hold features once the exchange is done. */
    ghost predicate Scheduled(ranks: seq<PairRank>)
      requires stride > 0
    {
      && (forall w <- swaps :: w.Within(ranks)) && Sched().Valid()
      && forall r: nat :: r < |graphs| ==> NeighboursLive(r)
    }

    ghost predicate Valid(ranks: seq<PairRank>)
      reads ranks
    {
      Shaped(ranks) && Scheduled(ranks)
    }

    ghost predicate NeighboursInside(r: nat)
      requires r < |graphs|
    {
      forall e :: 0 <= e < |graphs[r].neighJ| ==> graphs[r].neighJ[e] < stride
    }

    ghost predicate NeighboursLive(r: nat)
      requires r < |graphs|
    {
      forall e :: 0 <= e < |graphs[r].neighJ| ==> Sched().Live(|swaps|, Offset(r, stride, graphs[r].neighJ[e]))
    }

    lemma OwnedSlot(r: int, a: int)
      requires 0 <= r < |graphs| && 0 <= a < |graphs[r].ilist| && a < stride
      ensures Offset(r, stride, a) in Owned()
    {
      OffsetDecoded(r, stride, a);
      OffsetBound(r, |graphs|, stride, a);
      assert IsOwned(Offset(r, stride, a));
    }

    // ------------------------------------------------------------ the features

    /** Component p of the features computed for owned atom a of rank r. */
    ghost function NodeFeature(r: int, a: int, p: int): real {
      if 0 <= r < |graphs| && a in graphs[r].ilist
      then Entry(graphs[r].features, width, PositionOf(graphs[r].ilist, a), p) else 0.0
    }

    /** The same as a function of the slot. */
    ghost function Feature(p: int): int -> real
      requires stride > 0
    {
      s => NodeFeature(s / stride, s % stride, p)
    }

    lemma FeatureOfSlot(r: int, a: int, p: int)
      requires 0 <= a < stride
      ensures Feature(p)(Offset(r, stride, a)) == NodeFeature(r, a, p)
    {
      OffsetDecoded(r, stride, a);
    }

    lemma FeatureOfNode(r: nat, ii: nat, p: int)
      requires r < |graphs| && ii < |graphs[r].ilist| && graphs[r].ListsEveryAtom()
      ensures NodeFeature(r, graphs[r].ilist[ii], p) == Entry(graphs[r].features, width, ii, p)
    {
      assert PositionOf(graphs[r].ilist, graphs[r].ilist[ii]) == ii;
    }

    /** The rows of the owned atoms hold their features. */
    ghost predicate Placed(r: nat, h: seq<real>) {
      && r < |graphs|
      && forall a, p :: 0 <= a < |graphs[r].ilist| && 0 <= p < width ==> Entry(h, width, a, p) == NodeFeature(r, a, p)
    }

    /** Every live slot holds its owner's features. */
    ghost predicate Exchanged(c: seq<seq<real>>)
      requires stride > 0
    {
      forall p: nat, s :: p < width && Sched().Live(|swaps|, s) ==>
        Component(c, width, stride, p)(s) == Feature(p)(Sched().Owner(s))
    }

    /** The forward exchange takes rows that are placed to slots that hold their owners' features. */
    lemma ExchangeDone(before: seq<seq<real>>, after: seq<seq<real>>)
      requires stride > 0 && Sched().Valid() && |before| == |graphs|
      requires forall r: nat :: r < |graphs| ==> Placed(r, before[r])
      requires forall p: nat, s :: p < width && Sched().Live(|swaps|, s) ==>
                 Component(after, width, stride, p)(s) == Component(before, width, stride, p)(Sched().Owner(s))
      ensures Exchanged(after)
    {
      forall p: nat, s | p < width && Sched().Live(|swaps|, s)
        ensures Component(after, width, stride, p)(s) == Feature(p)(Sched().Owner(s))
      {
        Sched().OriginIsOwned(|swaps|, s);
        OwnedHolds(before, p, Sched().Owner(s));
      }
    }

    lemma OwnedHolds(c: seq<seq<real>>, p: nat, o: int)
      requires stride > 0 && |c| == |graphs| && p < width && IsOwned(o)
      requires forall r: nat :: r < |graphs| ==> Placed(r, c[r])
      ensures Component(c, width, stride, p)(o) == Feature(p)(o)
    {
      assert Placed(o / stride, c[o / stride]);
    }

    // ------------------------------------------------------------ messages

    /** The stage of rank r in slot numbers. */
    ghost function StageOf(r: nat, p: int): Edges
      requires r < |graphs| && source != []
    {
      graphs[r].Stage(source, First(r), p)
    }

    /** What the undivided graph gives place u of the messages of rank r. */
    ghost function UndividedMessage(r: nat, u: nat): real
      requires r < |graphs| && source != [] && stride > 0
    {
      var p := source[OutputOf(u, |source|)];
      Sched().Undivided(StageOf(r, p)).Gathered(Feature(p), u)
    }

    /** The slot edge e of rank r stands for, and component p of the features of that slot's atom. */
    ghost function OwnerOf(r: int): int -> int
      requires 0 <= r < |graphs|
    {
      e => Sched().Owner(Offset(r, stride, graphs[r].NeighbourAt(e)))
    }

    ghost function OwnerFeatures(r: nat, p: int): int -> real
      requires r < |graphs| && stride > 0
    {
      e => Feature(p)(OwnerOf(r)(e))
    }

    /** The undivided message written out: output q of node i sums, over the node's edges, the edge's coefficient for q
        times component source[q] of the features of the neighbour's owner. */
    lemma UndividedMessageIs(r: nat, atoms: nat, i: nat, q: nat)
      requires stride > 0 && r < |graphs| && graphs[r].Valid(width, atoms, source)
      requires i < |graphs[r].ilist| && q < |source|
      ensures UndividedMessage(r, Offset(i, |source|, q))
           == Sum(graphs[r].numNeigh[i],
                  NodeTerms(graphs[r], |source|, OwnerFeatures(r, source[q]), q, graphs[r].Start(i)))
    {
      var p := source[q];
      TermPlace(i, |source|, q);
      UndividedReads(r, q);
      GatheredIs(graphs[r], source, Sched().Undivided(StageOf(r, p)), Feature(p), OwnerFeatures(r, p), i, q);
    }

    lemma UndividedReads(r: nat, q: nat)
      requires stride > 0 && r < |graphs| && source != [] && q < |source|
      requires |graphs[r].neighJ| == graphs[r].Start(|graphs[r].numNeigh|)
      requires |graphs[r].coefficients| == |graphs[r].neighJ| * |source|
      ensures ReadsThrough(graphs[r], source, Sched().Undivided(StageOf(r, source[q])), Feature(source[q]),
                           OwnerFeatures(r, source[q]), q)
    {
      var p := source[q];
      var edges := Sched().Undivided(StageOf(r, p));
      forall t | 0 <= t < edges.count
        ensures Feature(p)(edges.neighbour(t)) == OwnerFeatures(r, p)(EdgeOf(t, |source|))
      {
        UndividedNeighbour(r, p, t);
      }
    }

    lemma UndividedNeighbour(r: nat, p: int, t: int)
      requires r < |graphs| && source != []
      ensures Sched().Undivided(StageOf(r, p)).neighbour(t) == OwnerOf(r)(EdgeOf(t, |source|))
    {
      var e := EdgeOf(t, |source|);
      SlotOfEdge(r, e);
      graphs[r].StageNeighbour(source, First(r), p, t, e);
      UndividedAt(StageOf(r, p), t);
    }

    lemma UndividedAt(edges: Edges, t: int)
      ensures Sched().Undivided(edges).neighbour(t) == Sched().Owner(edges.neighbour(t))
    {
    }

    lemma SlotOfEdge(r: int, e: int)
      requires 0 <= r < |graphs|
      ensures First(r) + graphs[r].NeighbourAt(e) == Offset(r, stride, graphs[r].NeighbourAt(e))
    {
    }

    /** What rank r's edges hand to owner o on the undivided graph, written out in the same way. */
    lemma HandedByIs(answers: seq<LocalAdjoints>, r: nat, atoms: nat, p: int, o: int)
      requires r < |graphs| && r < |answers| && graphs[r].Valid(width, atoms, source)
      ensures HandedBy(answers, p, o)(r)
           == Sum(|graphs[r].neighJ|,
                  HandedTo(graphs[r], source, p, Entries(answers[r].messages), OwnerOf(r), o))
    {
      UndividedPoints(r, p);
      ScatteredIs(graphs[r], source, Sched().Undivided(StageOf(r, p)), OwnerOf(r), p, Entries(answers[r].messages), o);
    }

    lemma UndividedPoints(r: nat, p: int)
      requires r < |graphs| && source != [] && |graphs[r].neighJ| == graphs[r].Start(|graphs[r].numNeigh|)
      requires |graphs[r].coefficients| == |graphs[r].neighJ| * |source|
      ensures PointsThrough(graphs[r], source, Sched().Undivided(StageOf(r, p)), OwnerOf(r), p)
    {
      var edges := Sched().Undivided(StageOf(r, p));
      forall t | 0 <= t < edges.count ensures edges.neighbour(t) == OwnerOf(r)(EdgeOf(t, |source|)) {
        UndividedNeighbour(r, p, t);
      }
    }

    /** On every rank, what a neighbour's row holds is its owner's feature, and own rows are right. */
    ghost predicate Delivered(c: seq<seq<real>>)
      requires stride > 0
    {
      |c| == |graphs| && forall r: nat, p: nat :: r < |graphs| && p < width ==> DeliveredTo(c[r], r, p)
    }

    ghost predicate DeliveredTo(h: seq<real>, r: nat, p: nat)
      requires stride > 0 && r < |graphs|
    {
      && (forall e :: 0 <= e < |graphs[r].neighJ| ==>
           Entry(h, width, graphs[r].neighJ[e], p) == Feature(p)(Sched().Owner(Offset(r, stride, graphs[r].neighJ[e]))))
      && (forall ii :: 0 <= ii < |graphs[r].ilist| ==> Entry(h, width, ii, p) == NodeFeature(r, ii, p))
    }

    lemma ExchangeDelivers(c: seq<seq<real>>, r: nat, p: nat)
      requires stride > 0 && |c| == |graphs| && Exchanged(c) && r < |graphs| && NeighboursLive(r) && p < width
      requires Sched().Valid() && |graphs[r].ilist| <= stride
      requires NeighboursInside(r)
      ensures DeliveredTo(c[r], r, p)
    {
      forall e | 0 <= e < |graphs[r].neighJ|
        ensures Entry(c[r], width, graphs[r].neighJ[e], p)
             == Feature(p)(Sched().Owner(Offset(r, stride, graphs[r].neighJ[e])))
      {
        ComponentOfSlot(c, width, stride, p, r, graphs[r].neighJ[e]);
      }
      forall ii | 0 <= ii < |graphs[r].ilist| ensures Entry(c[r], width, ii, p) == NodeFeature(r, ii, p) {
        OwnRow(c, r, ii, p);
      }
    }

    /** One term of the stage, on this rank's rows and on the undivided graph. */
    lemma TermIsUndivided(h: seq<real>, r: nat, p: nat, u: int, t: nat)
      requires stride > 0 && source != [] && r < |graphs| && DeliveredTo(h, r, p)
      requires t < |graphs[r].neighJ| * |source|
      ensures graphs[r].Stage(source, 0, p).Term(ComponentOf(h, width, p), u)(t)
           == Sched().Undivided(StageOf(r, p)).Term(Feature(p), u)(t)
    {
      var here, there := graphs[r].Stage(source, 0, p), StageOf(r, p);
      TermDecoded(t, |graphs[r].neighJ|, |source|);
      var e := EdgeOf(t, |source|);
      assert here.neighbour(t) == graphs[r].neighJ[e];
      assert there.neighbour(t) == Offset(r, stride, graphs[r].neighJ[e]);
      SameTerm(here, Sched().Undivided(there), ComponentOf(h, width, p), Feature(p), u, t);
    }

    /** Over delivered features the stage gives the messages of the undivided graph. */
    lemma MessageIsUndivided(h: seq<real>, r: nat, u: nat, p: nat)
      requires stride > 0 && source != [] && r < |graphs| && DeliveredTo(h, r, p)
      requires p == source[OutputOf(u, |source|)]
      ensures graphs[r].Stage(source, 0, p).Gathered(ComponentOf(h, width, p), u) == UndividedMessage(r, u)
    {
      var here, undivided, x, y := graphs[r].Stage(source, 0, p), Sched().Undivided(StageOf(r, p)),
                                   ComponentOf(h, width, p), Feature(p);
      forall t: nat | t < here.count ensures here.Term(x, u)(t) == undivided.Term(y, u)(t) {
        TermIsUndivided(h, r, p, u, t);
      }
      SameTerms(here, undivided, x, y, u);
    }

    /** The messages of rank r are those of the undivided graph. */
    ghost predicate MessagesRight(r: nat, messages: seq<real>)
      requires stride > 0 && source != []
    {
      && r < |graphs| && |messages| == |graphs[r].ilist| * |source|
      && forall u :: 0 <= u < |messages| ==> messages[u] == UndividedMessage(r, u)
    }

    /** What the local stages read at position ii is the feature of owned atom ii. */
    ghost predicate RowsRight(r: nat, rows: seq<real>) {
      && r < |graphs| && |rows| == |graphs[r].ilist| * width
      && forall ii, p :: 0 <= ii < |graphs[r].ilist| && 0 <= p < width ==>
           Entry(rows, width, ii, p) == NodeFeature(r, ii, p)
    }

    /** The first rows of a rank are those of its owned atoms. */
    lemma OwnRows(h: seq<real>, r: nat, rows: seq<real>)
      requires stride > 0 && r < |graphs| && |rows| == |graphs[r].ilist| * width && rows <= h
      requires forall p: nat :: p < width ==> DeliveredTo(h, r, p)
      ensures RowsRight(r, rows)
    {
      forall ii, p: nat | 0 <= ii < |graphs[r].ilist| && p < width
        ensures Entry(rows, width, ii, p) == NodeFeature(r, ii, p)
      {
        assert DeliveredTo(h, r, p);
        OffsetBound(ii, |graphs[r].ilist|, width, p);
      }
    }

    lemma OwnRow(c: seq<seq<real>>, r: nat, ii: nat, p: nat)
      requires stride > 0 && |c| == |graphs| && Exchanged(c) && r < |graphs| && Sched().Valid()
      requires ii < |graphs[r].ilist| <= stride && p < width
      ensures Entry(c[r], width, ii, p) == NodeFeature(r, ii, p)
    {
      var s := Offset(r, stride, ii);
      OwnedSlot(r, ii);
      Sched().OwnedStaysLive(|swaps|, s);
      Sched().OriginIsOwned(|swaps|, s);
      ComponentOfSlot(c, width, stride, p, r, ii);
      FeatureOfSlot(r, ii, p);
    }

    // ------------------------------------------------------------ adjoints

    /** What rank q's edges hand back to owner o on the undivided graph. */
    ghost function HandedBy(answers: seq<LocalAdjoints>, p: int, o: int): int -> real
      requires source != []
    {
      q => if 0 <= q < |graphs| && q < |answers|
           then Sched().Undivided(StageOf(q, p)).Scattered(Entries(answers[q].messages))(o) else 0.0
    }

    /** The adjoint the local stages leave at position a of rank r. */
    ghost function RowAdjoint(answers: seq<LocalAdjoints>, r: int, a: int, p: int): real {
      if 0 <= r < |answers| && r < |graphs| && 0 <= a < |graphs[r].ilist|
      then Entry(answers[r].rows, width, a, p) else 0.0
    }

    ghost function RowAdjoints(answers: seq<LocalAdjoints>, p: int): int -> real
      requires stride > 0
    {
      s => RowAdjoint(answers, s / stride, s % stride, p)
    }

    /** The adjoint of component p of slot o on the undivided graph: its own and that of every edge, on any rank, that
        ends at a copy of it. */
    ghost function UndividedAdjoint(answers: seq<LocalAdjoints>, p: int, o: int): real
      requires source != [] && stride > 0
    {
      RowAdjoints(answers, p)(o) + Sum(|graphs|, HandedBy(answers, p, o))
    }

    /** What the stages leave on rank r: the adjoint of its own rows and what its edges hand back. */
    ghost predicate AdjointsLeft(answers: seq<LocalAdjoints>, r: nat, h: seq<real>)
      requires source != []
    {
      && r < |graphs| && r < |answers|
      && forall a: nat, p: nat :: p < width ==>
           Entry(h, width, a, p)
           == RowAdjoint(answers, r, a, p) + graphs[r].Stage(source, 0, p).Scattered(Entries(answers[r].messages))(a)
    }

    /** What rank q's edges hand back to slot s. */
    ghost function LeftBy(answers: seq<LocalAdjoints>, p: int, s: int): int -> real
      requires source != []
    {
      q => if 0 <= q < |graphs| && q < |answers| then StageOf(q, p).Scattered(Entries(answers[q].messages))(s) else 0.0
    }

    /** A rank's edges point at its own slots. */
    lemma StageNeighbour(q: nat, p: int, t: nat) returns (a: nat)
      requires stride > 0 && source != [] && q < |graphs| && t < |graphs[q].neighJ| * |source|
      requires NeighboursInside(q)
      ensures a < stride && a in graphs[q].neighJ && StageOf(q, p).neighbour(t) == Offset(q, stride, a)
      ensures Offset(q, stride, a) / stride == q
    {
      TermDecoded(t, |graphs[q].neighJ|, |source|);
      a := graphs[q].neighJ[EdgeOf(t, |source|)];
      OffsetDecoded(q, stride, a);
    }

    /** A rank's edges hand nothing to another rank's slots. */
    lemma NothingLeft(answers: seq<LocalAdjoints>, p: int, s: int, q: nat)
      requires stride > 0 && source != [] && q < |graphs| && q < |answers| && s / stride != q
      requires NeighboursInside(q)
      ensures LeftBy(answers, p, s)(q) == 0.0
    {
      var edges := StageOf(q, p);
      forall t: nat | t < edges.count ensures edges.neighbour(t) != s {
        var a := StageNeighbour(q, p, t);
      }
      NobodyPoints(edges, Entries(answers[q].messages), s);
    }

    lemma LeftByStage(answers: seq<LocalAdjoints>, p: int, s: int, q: nat)
      requires source != [] && q < |graphs| && q < |answers|
      ensures LeftBy(answers, p, s)(q) == StageOf(q, p).Scattered(Entries(answers[q].messages))(s)
    {
    }

    /** What a rank's edges hand back to one of its own atoms. */
    lemma OwnLeft(answers: seq<LocalAdjoints>, p: int, s: int, r: nat, first: int, a: int)
      requires source != [] && r < |graphs| && r < |answers| && first == First(r) && s == first + a
      ensures LeftBy(answers, p, s)(r) == graphs[r].Stage(source, 0, p).Scattered(Entries(answers[r].messages))(a)
    {
      LeftByStage(answers, p, s, r);
      graphs[r].StageShifted(source, first, p, Entries(answers[r].messages), s, a);
    }

    /** The adjoints of all ranks, slot by slot. */
    lemma SlotAdjoint(answers: seq<LocalAdjoints>, c: seq<seq<real>>, p: nat, s: nat)
      requires stride > 0 && source != [] && |c| == |graphs| == |answers| && p < width && s < Slots()
      requires forall q: nat :: q < |graphs| ==> AdjointsLeft(answers, q, c[q])
      requires forall q: nat :: q < |graphs| ==> NeighboursInside(q)
      ensures Component(c, width, stride, p)(s) == RowAdjoints(answers, p)(s) + Sum(|graphs|, LeftBy(answers, p, s))
    {
      FlatDecoded(s, |graphs|, stride);
      RankAdjoint(answers, c, p, s, s / stride, s % stride);
    }

    lemma RankAdjoint(answers: seq<LocalAdjoints>, c: seq<seq<real>>, p: nat, s: nat, r: nat, a: nat)
      requires stride > 0 && source != [] && |c| == |graphs| == |answers| && p < width
      requires s == Offset(r, stride, a) && r == s / stride && a == s % stride && r < |graphs|
      requires forall q: nat :: q < |graphs| ==> AdjointsLeft(answers, q, c[q])
      requires forall q: nat :: q < |graphs| ==> NeighboursInside(q)
      ensures Component(c, width, stride, p)(s) == RowAdjoints(answers, p)(s) + Sum(|graphs|, LeftBy(answers, p, s))
    {
      forall q | 0 <= q < |graphs| && q != r ensures LeftBy(answers, p, s)(q) == 0.0 {
        NothingLeft(answers, p, s, q);
      }
      SumSingle(|graphs|, r, LeftBy(answers, p, s));
      OwnLeft(answers, p, s, r, First(r), a);
      assert AdjointsLeft(answers, r, c[r]);
    }

    lemma StageWithin(r: nat, p: int)
      requires stride > 0 && source != [] && r < |graphs| && NeighboursLive(r)
      requires NeighboursInside(r)
      ensures StageOf(r, p).Within(Sched())
    {
      var edges := StageOf(r, p);
      forall t: nat | t < edges.count
        ensures 0 <= edges.neighbour(t) < Slots() && Sched().Live(|swaps|, edges.neighbour(t))
      {
        var a := StageNeighbour(r, p, t);
        OffsetBound(r, |graphs|, stride, a);
      }
    }

    /** Copy s of owner o, seen from rank q. */
    ghost function CopyLeft(answers: seq<LocalAdjoints>, p: int, o: int): (int, int) -> real
      requires source != []
    {
      (s, q) => if Sched().Live(|swaps|, s) && Sched().Owner(s) == o then LeftBy(answers, p, s)(q) else 0.0
    }

    lemma CopyByRank(answers: seq<LocalAdjoints>, p: int, o: int, s: int, q: nat)
      requires stride > 0 && source != [] && q < |graphs| == |answers|
      ensures CopyLeft(answers, p, o)(s, q)
           == Sched().CopiesOf(o, StageOf(q, p).Scattered(Entries(answers[q].messages)))(s)
    {
      LeftByStage(answers, p, s, q);
    }

    /** Over all copies of o, rank q's edges hand back what they hand to o on the undivided graph. */
    lemma RankCollected(answers: seq<LocalAdjoints>, p: int, o: int, q: nat)
      requires stride > 0 && source != [] && Sched().Valid() && o in Owned()
      requires q < |graphs| == |answers| && StageOf(q, p).Within(Sched())
      ensures Sum(Slots(), s => CopyLeft(answers, p, o)(s, q)) == HandedBy(answers, p, o)(q)
    {
      var edges, w := StageOf(q, p), Entries(answers[q].messages);
      Sched().OwnersCollect(edges.Scattered(w), o);
      Sched().SameAdjoints(edges, w, o);
      forall s ensures CopyLeft(answers, p, o)(s, q) == Sched().CopiesOf(o, edges.Scattered(w))(s) {
        CopyByRank(answers, p, o, s, q);
      }
      SumColumn(Slots(), CopyLeft(answers, p, o), q, Sched().CopiesOf(o, edges.Scattered(w)));
    }

    /** Only the owner itself carries an adjoint of its own. */
    lemma RowCollected(answers: seq<LocalAdjoints>, p: int, o: int)
      requires stride > 0 && Sched().Valid() && o in Owned()
      ensures Sum(Slots(), Sched().CopiesOf(o, RowAdjoints(answers, p))) == RowAdjoints(answers, p)(o)
    {
      var copies := Sched().CopiesOf(o, RowAdjoints(answers, p));
      forall s | 0 <= s < Slots() && s != o ensures copies(s) == 0.0 {
        if Sched().Live(|swaps|, s) && Sched().Owner(s) == o {
          Sched().OriginIsOwned(|swaps|, s);
          assert !IsOwned(s);
        }
      }
      Sched().OwnedStaysLive(|swaps|, o);
      Sched().OriginIsOwned(|swaps|, o);
      SumSingle(Slots(), o, copies);
    }

    /** Collecting all copies of an owner gives its adjoint on the undivided graph. */
    lemma CopiesAreUndivided(answers: seq<LocalAdjoints>, c: seq<seq<real>>, p: nat, o: int)
      requires stride > 0 && source != [] && Sched().Valid() && o in Owned() && p < width
      requires |c| == |graphs| == |answers| && forall q: nat :: q < |graphs| ==> AdjointsLeft(answers, q, c[q])
      requires forall q: nat :: q < |graphs| ==> NeighboursInside(q)
      requires forall q: nat :: q < |graphs| ==> NeighboursLive(q)
      ensures Sum(Slots(), Sched().CopiesOf(o, Component(c, width, stride, p))) == UndividedAdjoint(answers, p, o)
    {
      var n, left, rows := |graphs|, CopyLeft(answers, p, o), Sched().CopiesOf(o, RowAdjoints(answers, p));
      var all := Sched().CopiesOf(o, Component(c, width, stride, p));
      forall s | 0 <= s < Slots() ensures all(s) == rows(s) + (t => Sum(n, q => left(t, q)))(s) {
        CopySplits(answers, c, p, o, s);
      }
      SumAdded(Slots(), rows, s => Sum(n, q => left(s, q)), all);
      SumSwap(Slots(), n, left);
      RowCollected(answers, p, o);
      forall q | 0 <= q < n ensures Sum(Slots(), s => left(s, q)) == HandedBy(answers, p, o)(q) {
        StageWithin(q, p);
        RankCollected(answers, p, o, q);
      }
      SumCong(n, q => Sum(Slots(), s => left(s, q)), HandedBy(answers, p, o));
    }

    lemma CopySplits(answers: seq<LocalAdjoints>, c: seq<seq<real>>, p: nat, o: int, s: nat)
      requires stride > 0 && source != [] && p < width && s < Slots()
      requires |c| == |graphs| == |answers| && forall q: nat :: q < |graphs| ==> AdjointsLeft(answers, q, c[q])
      requires forall q: nat :: q < |graphs| ==> NeighboursInside(q)
      ensures Sched().CopiesOf(o, Component(c, width, stride, p))(s)
           == Sched().CopiesOf(o, RowAdjoints(answers, p))(s) + Sum(|graphs|, q => CopyLeft(answers, p, o)(s, q))
    {
      var left, given := CopyLeft(answers, p, o), LeftBy(answers, p, s);
      var isCopy := Sched().Live(|swaps|, s) && Sched().Owner(s) == o;
      forall q ensures left(s, q) == if isCopy then given(q) else 0.0 {
      }
      SlotAdjoint(answers, c, p, s);
      SumCopied(|graphs|, isCopy, given, q => left(s, q));
    }
  }

  lemma SumColumn(n: nat, f: (int, int) -> real, q: int, g: int -> real)
    requires forall s :: f(s, q) == g(s)
    ensures Sum(n, s => f(s, q)) == Sum(n, g)
  {
    SumCong(n, s => f(s, q), g);
  }

  lemma SumCopied(n: nat, isCopy: bool, f: int -> real, g: int -> real)
    requires forall q :: g(q) == if isCopy then f(q) else 0.0
    ensures Sum(n, g) == if isCopy then Sum(n, f) else 0.0
  {
    if isCopy {
      SumCong(n, g, f);
    } else {
      SumZero(n, g);
    }
  }

  lemma NobodyPoints(edges: Edges, w: int -> real, s: int)
    requires forall t: nat :: t < edges.count ==> edges.neighbour(t) != s
    ensures edges.Scattered(w)(s) == 0.0
  {
    SumZero(edges.count, edges.Share(w, s));
  }

  lemma SameTerms(here: Edges, there: Edges, x: int -> real, y: int -> real, u: int)
    requires here.count == there.count && forall t: nat :: t < here.count ==> here.Term(x, u)(t) == there.Term(y, u)(t)
    ensures here.Gathered(x, u) == there.Gathered(y, u)
  {
    SumCong(here.count, here.Term(x, u), there.Term(y, u));
  }

  lemma SameTerm(here: Edges, there: Edges, x: int -> real, y: int -> real, u: int, t: int)
    requires here.receiver == there.receiver && here.kernel == there.kernel
    requires x(here.neighbour(t)) == y(there.neighbour(t))
    ensures here.Term(x, u)(t) == there.Term(y, u)(t)
  {
  }

  /** Where a stands in the list; 0 if it does not. */
  ghost function PositionOf(list: seq<nat>, a: int): (i: nat)
    ensures a in list ==> i < |list| && list[i] == a
  {
    if a in list then var i: nat :| i < |list| && list[i] == a; i else 0
  }

  // ---------------------------------------------------------------- the features go out

  /** Sorts one rank's features by atom. */
  method PlaceOnRank(m: Machine, ranks: seq<PairRank>, r: nat)
    requires m.Shaped(ranks) && r < |ranks|
    modifies ranks[r].h1
    ensures m.Placed(r, Features(ranks)[r])
    ensures forall q :: 0 <= q < |ranks| && q != r ==> Features(ranks)[q] == old(Features(ranks)[q])
  {
    m.RankShape(ranks, r);
    SortByAtom(ranks[r], m.graphs[r].ilist, m.graphs[r].features);
    RowsPlaced(m, r, ranks[r].h1[..]);
  }

  lemma PlacedGrows(m: Machine, before: seq<seq<real>>, after: seq<seq<real>>, r: nat)
    requires r < |before| == |after| && forall q :: 0 <= q < |before| && q != r ==> after[q] == before[q]
    requires m.Placed(r, after[r]) && forall q: nat :: q < r ==> m.Placed(q, before[q])
    ensures forall q: nat :: q <= r ==> m.Placed(q, after[q])
  {
  }

  method PlaceFeatures(m: Machine, ranks: seq<PairRank>)
    requires m.Shaped(ranks)
    modifies set r | 0 <= r < |ranks| :: ranks[r].h1
    ensures forall r: nat :: r < |ranks| ==> m.Placed(r, Features(ranks)[r])
  {
    for r := 0 to |ranks|
      invariant forall q: nat :: q < r ==> m.Placed(q, Features(ranks)[q])
    {
      ghost var before := Features(ranks);
      assert ranks[r].h1 in set q | 0 <= q < |ranks| :: ranks[q].h1;
      PlaceOnRank(m, ranks, r);
      PlacedGrows(m, before, Features(ranks), r);
    }
  }

  lemma RowsPlaced(m: Machine, r: nat, h: seq<real>)
    requires r < |m.graphs| && m.graphs[r].ListsEveryAtom()
    requires forall ii, k :: 0 <= ii < |m.graphs[r].ilist| && 0 <= k < m.width ==>
               Entry(h, m.width, m.graphs[r].ilist[ii], k) == Entry(m.graphs[r].features, m.width, ii, k)
    ensures m.Placed(r, h)
  {
    var list := m.graphs[r].ilist;
    forall a, p | 0 <= a < |list| && 0 <= p < m.width ensures Entry(h, m.width, a, p) == m.NodeFeature(r, a, p) {
      assert list[PositionOf(list, a)] == a;
    }
  }

  /** The forward exchange of rows that are placed. */
  method ExchangeFeatures(m: Machine, ranks: seq<PairRank>)
    requires m.Valid(ranks) && forall r: nat :: r < |ranks| ==> m.Placed(r, Features(ranks)[r])
    modifies set r | 0 <= r < |ranks| :: ranks[r].h1
    ensures m.Exchanged(Features(ranks))
  {
    ghost var before := Features(ranks);
    ForwardComm(ranks, m.swaps, m.width, m.stride, m.Slots(), m.Owned());
    m.ExchangeDone(before, Features(ranks));
  }

  /** Sorting and the forward exchange. */
  method SendFeatures(m: Machine, ranks: seq<PairRank>)
    requires m.Valid(ranks)
    modifies set r | 0 <= r < |ranks| :: ranks[r].h1
    ensures m.Delivered(Features(ranks))
  {
    PlaceFeatures(m, ranks);
    DeliverFeatures(m, ranks);
  }

  method DeliverFeatures(m: Machine, ranks: seq<PairRank>)
    requires m.Valid(ranks) && forall r: nat :: r < |ranks| ==> m.Placed(r, Features(ranks)[r])
    modifies set r | 0 <= r < |ranks| :: ranks[r].h1
    ensures m.Delivered(Features(ranks))
  {
    ExchangeFeatures(m, ranks);
    AllDelivered(m, ranks);
  }

  lemma AllDelivered(m: Machine, ranks: seq<PairRank>)
    requires m.Valid(ranks) && m.Exchanged(Features(ranks))
    ensures m.Delivered(Features(ranks))
  {
    forall r: nat, p: nat | r < |m.graphs| && p < m.width ensures m.DeliveredTo(Features(ranks)[r], r, p) {
      m.RankShape(ranks, r);
      m.ExchangeDelivers(Features(ranks), r, p);
    }
  }

  // ---------------------------------------------------------------- messages and what the ranks make of them

  /** One rank's messages and own rows. */
  method RankMessages(m: Machine, ranks: seq<PairRank>, r: nat) returns (messages: seq<real>, rows: seq<real>)
    requires m.Shaped(ranks) && r < |ranks| && m.Delivered(Features(ranks))
    ensures m.MessagesRight(r, messages) && m.RowsRight(r, rows)
  {
    m.RankShape(ranks, r);
    var rank, graph := ranks[r], m.graphs[r];
    ghost var h := Features(ranks)[r];
    messages := Gather(rank, graph, m.source);
    forall u: nat | u < |messages| ensures messages[u] == m.UndividedMessage(r, u) {
      m.MessageIsUndivided(h, r, u, m.source[OutputOf(u, |m.source|)]);
    }
    ProductMonotone(|graph.ilist|, rank.atoms, rank.width);
    ProductNonNegative(|graph.ilist|, rank.width);
    rows := rank.h1[..|graph.ilist| * rank.width];
    m.OwnRows(h, r, rows);
  }

  /** One rank's messages, own rows and answer are right. */
  ghost predicate RankRight(m: Machine, local: LocalStages, r: nat, messages: seq<real>, rows: seq<real>,
                            answer: LocalAdjoints)
    requires m.stride > 0 && m.source != []
  {
    m.MessagesRight(r, messages) && m.RowsRight(r, rows) && answer == local(r, messages, rows)
  }

  lemma RanksGrow(m: Machine, local: LocalStages, messages: seq<seq<real>>, rows: seq<seq<real>>,
                  answers: seq<LocalAdjoints>, message: seq<real>, row: seq<real>, answer: LocalAdjoints)
    requires m.stride > 0 && m.source != [] && |messages| == |rows| == |answers|
    requires forall q: nat :: q < |messages| ==> RankRight(m, local, q, messages[q], rows[q], answers[q])
    requires RankRight(m, local, |messages|, message, row, answer)
    ensures forall q: nat :: q <= |messages| ==>
              RankRight(m, local, q, (messages + [message])[q], (rows + [row])[q], (answers + [answer])[q])
  {
  }

  /** Every rank's messages, and the adjoints its local stages return. */
  method RunLocalStages(m: Machine, ranks: seq<PairRank>, local: LocalStages)
    returns (messages: seq<seq<real>>, rows: seq<seq<real>>, answers: seq<LocalAdjoints>)
    requires m.Shaped(ranks) && m.Delivered(Features(ranks))
    ensures |messages| == |rows| == |answers| == |ranks|
    ensures forall r: nat :: r < |ranks| ==> RankRight(m, local, r, messages[r], rows[r], answers[r])
  {
    messages, rows, answers := [], [], [];
    for r := 0 to |ranks|
      invariant |messages| == |rows| == |answers| == r
      invariant forall q: nat :: q < r ==> RankRight(m, local, q, messages[q], rows[q], answers[q])
    {
      var message, row := RankMessages(m, ranks, r);
      RanksGrow(m, local, messages, rows, answers, message, row, local(r, message, row));
      messages, rows, answers := messages + [message], rows + [row], answers + [local(r, message, row)];
    }
  }

  // ---------------------------------------------------------------- the adjoints come back

  /** All adjoints cleared, then those of the rank's own rows stored (libsymmetrix/source/mace.cpp:2560-2600,
      2626-2648). */
  method StartAdjoints(rank: PairRank, n: nat, rows: seq<real>)
    requires rank.Valid() && n <= rank.atoms && |rows| == n * rank.width
    modifies rank.h1Adj
    ensures forall a: nat, p: nat :: p < rank.width ==>
              Entry(rank.h1Adj[..], rank.width, a, p) == if a < n then Entry(rows, rank.width, a, p) else 0.0
  {
    ProductMonotone(n, rank.atoms, rank.width);
    forall k | 0 <= k < rank.h1Adj.Length {
      rank.h1Adj[k] := 0.0;
    }
    for k := 0 to |rows|
      invariant forall l :: 0 <= l < rank.h1Adj.Length ==> rank.h1Adj[l] == if l < k then rows[l] else 0.0
    {
      rank.h1Adj[k] := rows[k];
    }
    forall a: nat, p: nat | p < rank.width
      ensures Entry(rank.h1Adj[..], rank.width, a, p) == if a < n then Entry(rows, rank.width, a, p) else 0.0
    {
      RowPlace(n, rank.width, a, p);
    }
  }

  lemma RowPlace(n: nat, width: nat, a: nat, p: nat)
    requires p < width
    ensures 0 <= Offset(a, width, p) && (Offset(a, width, p) < n * width <==> a < n)
  {
    ProductNonNegative(a, width);
    if a < n {
      OffsetBound(a, n, width, p);
    } else {
      ProductMonotone(n, a, width);
    }
  }

  /** The transposed stage of one rank. */
  method RankAdjoints(m: Machine, ranks: seq<PairRank>, r: nat, answers: seq<LocalAdjoints>)
    requires m.Shaped(ranks) && r < |ranks| == |answers|
    requires |answers[r].rows| == |m.graphs[r].ilist| * m.width
    requires |answers[r].messages| == |m.graphs[r].ilist| * |m.source|
    modifies ranks[r].h1Adj
    ensures m.AdjointsLeft(answers, r, Adjoints(ranks)[r])
    ensures forall q :: 0 <= q < |ranks| && q != r ==> Adjoints(ranks)[q] == old(Adjoints(ranks)[q])
  {
    m.RankShape(ranks, r);
    StartAdjoints(ranks[r], |m.graphs[r].ilist|, answers[r].rows);
    Scatter(ranks[r], m.graphs[r], m.source, answers[r].messages);
    assert m.AdjointsLeft(answers, r, ranks[r].h1Adj[..]);
  }

  /** The answers have the sizes of the ranks' messages and rows. */
  ghost predicate AnswersSized(m: Machine, answers: seq<LocalAdjoints>) {
    && |answers| == |m.graphs|
    && forall r: nat :: r < |answers| ==> AnswerSized(m, r, answers[r])
  }

  ghost predicate AnswerSized(m: Machine, r: nat, answer: LocalAdjoints)
    requires r < |m.graphs|
  {
    |answer.rows| == |m.graphs[r].ilist| * m.width && |answer.messages| == |m.graphs[r].ilist| * |m.source|
  }

  lemma LeftGrows(m: Machine, answers: seq<LocalAdjoints>, before: seq<seq<real>>, after: seq<seq<real>>, r: nat)
    requires m.source != [] && r < |before| == |after|
    requires forall q :: 0 <= q < |before| && q != r ==> after[q] == before[q]
    requires m.AdjointsLeft(answers, r, after[r]) && forall q: nat :: q < r ==> m.AdjointsLeft(answers, q, before[q])
    ensures forall q: nat :: q <= r ==> m.AdjointsLeft(answers, q, after[q])
  {
  }

  method ScatterAll(m: Machine, ranks: seq<PairRank>, answers: seq<LocalAdjoints>)
    requires m.Shaped(ranks) && AnswersSized(m, answers)
    modifies set r | 0 <= r < |ranks| :: ranks[r].h1Adj
    ensures forall r: nat :: r < |ranks| ==> m.AdjointsLeft(answers, r, Adjoints(ranks)[r])
  {
    for r := 0 to |ranks|
      invariant forall q: nat :: q < r ==> m.AdjointsLeft(answers, q, Adjoints(ranks)[q])
    {
      ghost var before := Adjoints(ranks);
      assert ranks[r].h1Adj in set q | 0 <= q < |ranks| :: ranks[q].h1Adj;
      assert AnswerSized(m, r, answers[r]);
      RankAdjoints(m, ranks, r, answers);
      LeftGrows(m, answers, before, Adjoints(ranks), r);
    }
  }

  /** The transposed stages and the reverse exchange: every owner ends with its adjoint on the undivided graph. */
  method ReturnAdjoints(m: Machine, ranks: seq<PairRank>, answers: seq<LocalAdjoints>)
    requires m.Valid(ranks) && AnswersSized(m, answers)
    modifies set r | 0 <= r < |ranks| :: ranks[r].h1Adj
    ensures forall p: nat, o :: p < m.width && o in m.Owned() ==>
              Component(Adjoints(ranks), m.width, m.stride, p)(o) == m.UndividedAdjoint(answers, p, o)
  {
    ScatterAll(m, ranks, answers);
    ghost var before := Adjoints(ranks);
    ReverseComm(ranks, m.swaps, m.width, m.stride, m.Slots(), m.Owned());
    AdjointsCollected(m, ranks, answers, before);
  }

  lemma AdjointsCollected(m: Machine, ranks: seq<PairRank>, answers: seq<LocalAdjoints>, before: seq<seq<real>>)
    requires m.Valid(ranks) && |before| == |ranks| == |answers|
    requires forall q: nat :: q < |ranks| ==> m.AdjointsLeft(answers, q, before[q])
    requires forall p: nat, o :: p < m.width && o in m.Owned() ==>
               (Component(Adjoints(ranks), m.width, m.stride, p)(o)
             == Sum(m.Slots(), m.Sched().CopiesOf(o, Component(before, m.width, m.stride, p))))
    ensures forall p: nat, o :: p < m.width && o in m.Owned() ==>
              Component(Adjoints(ranks), m.width, m.stride, p)(o) == m.UndividedAdjoint(answers, p, o)
  {
    forall q: nat | q < |m.graphs| ensures m.NeighboursInside(q) {
      m.RankShape(ranks, q);
    }
    forall p: nat, o | p < m.width && o in m.Owned()
      ensures Component(Adjoints(ranks), m.width, m.stride, p)(o) == m.UndividedAdjoint(answers, p, o)
    {
      m.CopiesAreUndivided(answers, before, p, o);
    }
  }

  /** What rank r hands to its nodes: position by position, the adjoints of its owned atoms. */
  ghost predicate HandedRight(m: Machine, answers: seq<LocalAdjoints>, r: nat, handed: seq<real>)
    requires m.stride > 0 && m.source != []
  {
    && r < |m.graphs| && |handed| == |m.graphs[r].ilist| * m.width
    && forall ii: nat, p: nat :: ii < |m.graphs[r].ilist| && p < m.width ==>
         Entry(handed, m.width, ii, p) == m.UndividedAdjoint(answers, p, Offset(r, m.stride, ii))
  }

  /** One rank's hand-back: node ii reads position ii. */
  method RankHandBack(m: Machine, ranks: seq<PairRank>, r: nat, ghost answers: seq<LocalAdjoints>)
    returns (rows: seq<real>)
    requires m.Shaped(ranks) && r < |ranks|
    requires forall p: nat, o :: p < m.width && o in m.Owned() ==>
               Component(Adjoints(ranks), m.width, m.stride, p)(o) == m.UndividedAdjoint(answers, p, o)
    ensures HandedRight(m, answers, r, rows)
  {
    m.RankShape(ranks, r);
    var n := |m.graphs[r].ilist|;
    ProductMonotone(n, ranks[r].atoms, ranks[r].width);
    ProductNonNegative(n, ranks[r].width);
    rows := ranks[r].h1Adj[..n * ranks[r].width];
    RowsHanded(m, answers, Adjoints(ranks), r, rows);
  }

  /** The hand-back (lines 585-587). */
  method HandBack(m: Machine, ranks: seq<PairRank>, ghost answers: seq<LocalAdjoints>) returns (handed: seq<seq<real>>)
    requires m.Shaped(ranks)
    requires forall p: nat, o :: p < m.width && o in m.Owned() ==>
               Component(Adjoints(ranks), m.width, m.stride, p)(o) == m.UndividedAdjoint(answers, p, o)
    ensures |handed| == |ranks| && forall r: nat :: r < |ranks| ==> HandedRight(m, answers, r, handed[r])
  {
    handed := [];
    for r := 0 to |ranks|
      invariant |handed| == r && forall q: nat :: q < r ==> HandedRight(m, answers, q, handed[q])
    {
      var rows := RankHandBack(m, ranks, r, answers);
      handed := handed + [rows];
    }
  }

  lemma RowsHanded(m: Machine, answers: seq<LocalAdjoints>, c: seq<seq<real>>, r: nat, rows: seq<real>)
    requires m.stride > 0 && m.source != [] && r < |m.graphs| == |c| && |m.graphs[r].ilist| <= m.stride
    requires |rows| == |m.graphs[r].ilist| * m.width && rows <= c[r]
    requires forall p: nat, o :: p < m.width && o in m.Owned() ==>
               Component(c, m.width, m.stride, p)(o) == m.UndividedAdjoint(answers, p, o)
    ensures HandedRight(m, answers, r, rows)
  {
    forall ii: nat, p: nat | ii < |m.graphs[r].ilist| && p < m.width
      ensures Entry(rows, m.width, ii, p) == m.UndividedAdjoint(answers, p, Offset(r, m.stride, ii))
    {
      OffsetBound(ii, |m.graphs[r].ilist|, m.width, p);
      m.OwnedSlot(r, ii);
      ComponentOfSlot(c, m.width, m.stride, p, r, ii);
    }
  }

  lemma AnswersFit(m: Machine, local: LocalStages, messages: seq<seq<real>>, rows: seq<seq<real>>,
                   answers: seq<LocalAdjoints>)
    requires m.stride > 0 && m.source != [] && SizesKept(local) && |messages| == |rows| == |answers| == |m.graphs|
    requires forall r: nat :: r < |m.graphs| ==> RankRight(m, local, r, messages[r], rows[r], answers[r])
    ensures AnswersSized(m, answers)
  {
    forall r: nat | r < |answers| ensures AnswerSized(m, r, answers[r]) {
      assert RankRight(m, local, r, messages[r], rows[r], answers[r]);
    }
  }

  /** The way out: features, messages, and what every rank makes of them. */
  method OutwardHalf(m: Machine, ranks: seq<PairRank>, local: LocalStages)
    returns (messages: seq<seq<real>>, rows: seq<seq<real>>, answers: seq<LocalAdjoints>)
    requires m.Valid(ranks) && SizesKept(local)
    modifies set r | 0 <= r < |ranks| :: ranks[r].h1
    ensures |messages| == |rows| == |answers| == |ranks| && AnswersSized(m, answers)
    ensures forall r: nat :: r < |ranks| ==> RankRight(m, local, r, messages[r], rows[r], answers[r])
  {
    SendFeatures(m, ranks);
    messages, rows, answers := RunLocalStages(m, ranks, local);
    AnswersFit(m, local, messages, rows, answers);
  }

  /** The way back. */
  method ReturnHalf(m: Machine, ranks: seq<PairRank>, answers: seq<LocalAdjoints>) returns (handed: seq<seq<real>>)
    requires m.Valid(ranks) && AnswersSized(m, answers)
    modifies set r | 0 <= r < |ranks| :: ranks[r].h1Adj
    ensures |handed| == |ranks| && forall r: nat :: r < |ranks| ==> HandedRight(m, answers, r, handed[r])
  {
    ReturnAdjoints(m, ranks, answers);
    handed := HandBack(m, ranks, answers);
  }

  /** The whole round on all ranks. Messages and own rows are those of the undivided graph; what each node is handed
      is the undivided adjoint of the owned atom at its position. */
  method MessageRound(m: Machine, ranks: seq<PairRank>, local: LocalStages)
    returns (messages: seq<seq<real>>, rows: seq<seq<real>>, answers: seq<LocalAdjoints>, handed: seq<seq<real>>)
    requires m.Valid(ranks) && SizesKept(local)
    modifies set r | 0 <= r < |ranks| :: ranks[r].h1, set r | 0 <= r < |ranks| :: ranks[r].h1Adj
    ensures |messages| == |rows| == |answers| == |handed| == |ranks|
    ensures forall r: nat :: r < |ranks| ==> RankRight(m, local, r, messages[r], rows[r], answers[r])
    ensures forall r: nat :: r < |ranks| ==> HandedRight(m, answers, r, handed[r])
  {
    messages, rows, answers := OutwardHalf(m, ranks, local);
    handed := ReturnHalf(m, ranks, answers);
  }

  // ---------------------------------------------------------------- positions and atoms

  /** Whatever the local stages answer, every node of rank r is handed the adjoint of its own features. */
  ghost predicate HandsEveryNodeItsOwn(m: Machine, r: nat)
    requires m.stride > 0 && m.source != [] && r < |m.graphs|
  {
    forall answers: seq<LocalAdjoints>, ii: nat, p: nat ::
      AnswersSized(m, answers) && ii < |m.graphs[r].ilist| && p < m.width ==> HandedOwnAt(m, r, answers, ii, p)
  }

  ghost predicate HandedOwnAt(m: Machine, r: nat, answers: seq<LocalAdjoints>, ii: nat, p: nat)
    requires m.stride > 0 && m.source != [] && r < |m.graphs| && ii < |m.graphs[r].ilist|
  {
    m.UndividedAdjoint(answers, p, Offset(r, m.stride, ii))
    == m.UndividedAdjoint(answers, p, Offset(r, m.stride, m.graphs[r].ilist[ii]))
  }

  /** On any graph, a round hands every node its own adjoints exactly when the rank's list is the identity. */
  lemma RoundNeedsIdentity(m: Machine, r: nat)
    requires m.stride > 0 && m.source != [] && m.width > 0 && r < |m.graphs| && m.graphs[r].ListsEveryAtom()
    requires |m.graphs[r].ilist| <= m.stride
    ensures HandsEveryNodeItsOwn(m, r) <==> forall ii :: 0 <= ii < |m.graphs[r].ilist| ==> m.graphs[r].ilist[ii] == ii
  {
    var list := m.graphs[r].ilist;
    if ii: nat :| ii < |list| && list[ii] != ii {
      var answers := UnitAnswers(m, r, ii);
      UnitAnswersDiffer(m, r, ii, answers);
    }
  }

  /** The answers whose only adjoint is that of component 0 of position ii of rank r. */
  ghost function UnitAnswers(m: Machine, r: nat, ii: nat): seq<LocalAdjoints> {
    seq(|m.graphs|, q requires 0 <= q < |m.graphs| => UnitAnswer(m, q, r, ii))
  }

  ghost function UnitAnswer(m: Machine, q: nat, r: nat, ii: nat): LocalAdjoints
    requires q < |m.graphs|
  {
    ProductNonNegative(|m.graphs[q].ilist|, |m.source|);
    ProductNonNegative(|m.graphs[q].ilist|, m.width);
    LocalAdjoints(seq(|m.graphs[q].ilist| * |m.source|, _ => 0.0),
                  seq(|m.graphs[q].ilist| * m.width, k => if q == r && k == Offset(ii, m.width, 0) then 1.0 else 0.0))
  }

  lemma UnitAnswersDiffer(m: Machine, r: nat, ii: nat, answers: seq<LocalAdjoints>)
    requires m.stride > 0 && m.source != [] && m.width > 0 && r < |m.graphs| && ii < |m.graphs[r].ilist| <= m.stride
    requires m.graphs[r].ListsEveryAtom() && m.graphs[r].ilist[ii] != ii && answers == UnitAnswers(m, r, ii)
    ensures AnswersSized(m, answers) && !HandedOwnAt(m, r, answers, ii, 0)
  {
    var a := m.graphs[r].ilist[ii];
    UnitAdjoint(m, r, ii, answers, ii);
    UnitAdjoint(m, r, ii, answers, a);
  }

  /** The row part is 1 at (r, ii) and 0 at every other owned atom of rank r. */
  lemma UnitRow(m: Machine, r: nat, ii: nat, answers: seq<LocalAdjoints>, a: nat)
    requires m.stride > 0 && m.width > 0 && r < |m.graphs| && ii < |m.graphs[r].ilist| <= m.stride
    requires a < |m.graphs[r].ilist| && answers == UnitAnswers(m, r, ii)
    ensures m.RowAdjoint(answers, r, a, 0) == if a == ii then 1.0 else 0.0
  {
    OffsetBound(a, |m.graphs[r].ilist|, m.width, 0);
    if Offset(a, m.width, 0) == Offset(ii, m.width, 0) {
      OffsetInjective(m.width, a, 0, ii, 0);
    }
  }

  lemma UnitMessages(m: Machine, r: nat, ii: nat, answers: seq<LocalAdjoints>, q: nat)
    requires q < |m.graphs| && answers == UnitAnswers(m, r, ii)
    ensures forall u :: Entries(answers[q].messages)(u) == 0.0
  {
  }

  lemma NothingHanded(m: Machine, answers: seq<LocalAdjoints>, p: int, o: int, q: nat)
    requires m.source != [] && q < |m.graphs| == |answers| && forall u :: Entries(answers[q].messages)(u) == 0.0
    ensures m.HandedBy(answers, p, o)(q) == 0.0
  {
    NothingScattered(m.Sched().Undivided(m.StageOf(q, p)), Entries(answers[q].messages), o);
  }

  lemma UnitAdjoint(m: Machine, r: nat, ii: nat, answers: seq<LocalAdjoints>, a: nat)
    requires m.stride > 0 && m.source != [] && m.width > 0 && r < |m.graphs| && ii < |m.graphs[r].ilist| <= m.stride
    requires a < |m.graphs[r].ilist| && answers == UnitAnswers(m, r, ii)
    ensures m.UndividedAdjoint(answers, 0, Offset(r, m.stride, a)) == if a == ii then 1.0 else 0.0
  {
    var o := Offset(r, m.stride, a);
    forall q | 0 <= q < |m.graphs| ensures m.HandedBy(answers, 0, o)(q) == 0.0 {
      UnitMessages(m, r, ii, answers, q);
      NothingHanded(m, answers, 0, o, q);
    }
    SumZero(|m.graphs|, m.HandedBy(answers, 0, o));
    OffsetDecoded(r, m.stride, a);
    UnitRow(m, r, ii, answers, a);
  }

  lemma NothingScattered(edges: Edges, w: int -> real, s: int)
    requires forall u :: w(u) == 0.0
    ensures edges.Scattered(w)(s) == 0.0
  {
    forall t ensures edges.Share(w, s)(t) == 0.0 {
      var u := edges.receiver(t);
      ProductOfZero(edges.kernel(t), w(u));
    }
    SumZero(edges.count, edges.Share(w, s));
  }

  lemma ProductOfZero(a: real, b: real)
    requires b == 0.0
    ensures Product(a, b) == 0.0
  {
  }

  /** One rank with owned atoms 0 and 1, listed as [1, 0], and atom 2 as a ghost of atom 0. Node 0 has the ghost as
      its only neighbour. */
  function SwappedMachine(): Machine {
    Machine([RankGraph([1, 0], [1, 0], [2], [1.0], [10.0, 20.0])], [RankSwap(0, 0, [0], 2)], [0], 1, 3)
  }

  /** Local stages that answer every message with 1 and leave no adjoint on the rank's own rows. */
  function UnitStages(): LocalStages {
    (r, messages: seq<real>, rows: seq<real>) =>
      LocalAdjoints(seq(|messages|, _ => 1.0), seq(|rows|, _ => 0.0))
  }

  lemma SwappedSchedule()
    ensures SwappedMachine().Owned() == {0, 1} && SwappedMachine().Slots() == 3
    ensures SwappedMachine().Sched() == Schedule([Swap([0], 2)], 3, {0, 1}) && SwappedMachine().Sched().Valid()
    ensures SwappedMachine().Sched().Live(1, 2) && SwappedMachine().Sched().Owner(2) == 0
  {
    var m := SwappedMachine();
    forall s ensures s in m.Owned() <==> s in {0, 1} {
      if 0 <= s < 3 {
        assert s / 3 == 0 && s % 3 == s;
        assert m.IsOwned(s) <==> s < |m.graphs[0].ilist|;
      }
    }
    assert m.swaps[0].Flat(3).list == [0];
    assert m.Sched().swaps == [Swap([0], 2)];
    SwappedPair();
  }

  lemma SwappedGraph()
    ensures SwappedMachine().graphs[0].Valid(1, 3, [0])
  {
    var graph := SwappedMachine().graphs[0];
    assert graph.ilist == [1, 0] && graph.Start(0) == 0 && graph.Start(1) == 1 && graph.Start(2) == 1;
    assert graph.ListsEveryAtom() by {
      assert graph.ilist[0] == 1 && graph.ilist[1] == 0;
    }
  }

  lemma OneNeighbour(m: Machine, graph: RankGraph)
    requires m.graphs == [graph] && graph.neighJ == [2] && m.Sched().Live(|m.swaps|, 2)
    ensures m.NeighboursLive(0)
  {
    assert Offset(0, m.stride, 2) == 2;
  }

  lemma SwappedNeighbours()
    ensures SwappedMachine().NeighboursLive(0)
  {
    SwappedSchedule();
    OneNeighbour(SwappedMachine(), SwappedMachine().graphs[0]);
  }

  lemma SingleRankValid(m: Machine, rank: PairRank)
    requires m.stride > 0 && m.source != [] && |m.graphs| == 1 && |m.swaps| == 1 && m.Sched().Valid()
    requires m.graphs[0].Valid(m.width, rank.atoms, m.source) && m.NeighboursLive(0) && m.swaps[0].Within([rank])
    requires Separate([rank], m.width, m.stride)
    ensures m.Valid([rank])
  {
  }

  lemma SwappedIsValid(m: Machine, rank: PairRank)
    requires m == SwappedMachine()
    requires rank.Valid() && rank.width == 1 && rank.atoms == 3 && rank.h1 != rank.h1Adj
    ensures m.Valid([rank])
  {
    assert m.swaps[0].Within([rank]) by { SwapInside(m.swaps[0], rank); }
    assert Separate([rank], m.width, m.stride) by { OneIsSeparate(rank); }
    assert m.Sched().Valid() by { SwappedSchedule(); }
    assert m.graphs[0].Valid(m.width, rank.atoms, m.source) by { SwappedGraph(); }
    assert m.NeighboursLive(0) by { SwappedNeighbours(); }
    SingleRankValid(m, rank);
  }

  lemma SwapInside(w: RankSwap, rank: PairRank)
    requires w == RankSwap(0, 0, [0], 2) && rank.atoms == 3
    ensures w.Within([rank])
  {
  }

  lemma OneIsSeparate(rank: PairRank)
    requires rank.Valid() && rank.width == 1 && rank.atoms == 3 && rank.h1 != rank.h1Adj
    ensures Separate([rank], 1, 3)
  {
  }

  /** A graph of one edge of weight 1, from atom 2 to node 0. */
  lemma OneEdgeStage(graph: RankGraph, source: seq<nat>, edges: Edges)
    requires |source| == 1 && source[0] == 0 && edges == graph.Stage(source, 0, 0)
    requires |graph.numNeigh| > 0 && graph.Start(0) == 0 && graph.Start(1) == 1
    requires |graph.neighJ| == 1 && graph.neighJ[0] == 2 && |graph.coefficients| == 1 && graph.coefficients[0] == 1.0
    ensures edges.count == 1 && edges.kernel(0) == 1.0 && edges.neighbour(0) == 2 && edges.receiver(0) == 0
  {
    graph.TermParts(source, 0, 0, 0, 0, 0);
  }

  /** The one edge of the example. */
  lemma SwappedStage(m: Machine, edges: Edges)
    requires m == SwappedMachine() && edges == m.StageOf(0, 0)
    ensures edges.count == 1 && edges.kernel(0) == 1.0 && edges.neighbour(0) == 2 && edges.receiver(0) == 0
  {
    var graph := m.graphs[0];
    assert graph.Start(0) == 0 && graph.Start(1) == 1;
    assert m.First(0) == 0;
    OneEdgeStage(graph, m.source, edges);
  }

  /** It hands its adjoint to the owner of the ghost. */
  lemma OneEdgeHands(sched: Schedule, edges: Edges, w: int -> real, o: int)
    requires edges.count == 1 && edges.kernel(0) == 1.0 && edges.neighbour(0) == 2 && edges.receiver(0) == 0
    requires sched.Owner(2) == 0 && w(0) == 1.0
    ensures sched.Undivided(edges).Scattered(w)(o) == if o == 0 then 1.0 else 0.0
  {
    OneEdge(sched.Undivided(edges), w, o);
  }

  lemma SwappedEdge(m: Machine, w: int -> real, o: int)
    requires m == SwappedMachine() && w(0) == 1.0
    ensures m.Sched().Undivided(m.StageOf(0, 0)).Scattered(w)(o) == if o == 0 then 1.0 else 0.0
  {
    SwappedSchedule();
    var edges := m.StageOf(0, 0);
    SwappedStage(m, edges);
    OneEdgeHands(m.Sched(), edges, w, o);
  }

  lemma SwappedRows(m: Machine, rows: seq<real>, handed: seq<real>)
    requires m == SwappedMachine() && m.RowsRight(0, rows)
    requires |handed| == 2
    ensures rows == [20.0, 10.0]
    ensures Entry(handed, 1, 0, 0) == handed[0] && Entry(handed, 1, 1, 0) == handed[1]
  {
    var graph := m.graphs[0];
    m.FeatureOfNode(0, 0, 0);
    m.FeatureOfNode(0, 1, 0);
    assert Entry(rows, 1, 0, 0) == m.NodeFeature(0, 0, 0) && Entry(rows, 1, 1, 0) == m.NodeFeature(0, 1, 0);
    assert rows[0] == 20.0 && rows[1] == 10.0;
  }

  lemma OneRankAdjoint(m: Machine, answers: seq<LocalAdjoints>, a: int, v: real)
    requires m.stride > 0 && m.source != [] && |m.graphs| == 1
    requires m.HandedBy(answers, 0, a)(0) == v && m.RowAdjoints(answers, 0)(a) == 0.0
    ensures m.UndividedAdjoint(answers, 0, a) == v
  {
    SumSingle(1, 0, m.HandedBy(answers, 0, a));
  }

  lemma HandedBySingle(m: Machine, answers: seq<LocalAdjoints>, p: int, o: int, v: real)
    requires m.source != [] && |m.graphs| == |answers| == 1
    requires m.Sched().Undivided(m.StageOf(0, p)).Scattered(Entries(answers[0].messages))(o) == v
    ensures m.HandedBy(answers, p, o)(0) == v
  {
  }

  lemma ZeroRows(m: Machine, answers: seq<LocalAdjoints>, s: int)
    requires m.stride > 0
    requires forall r, k :: 0 <= r < |answers| && 0 <= k < |answers[r].rows| ==> answers[r].rows[k] == 0.0
    ensures m.RowAdjoints(answers, 0)(s) == 0.0
  {
  }

  lemma SwappedAdjoint(m: Machine, answers: seq<LocalAdjoints>, a: int)
    requires m == SwappedMachine() && answers == [LocalAdjoints([1.0, 1.0], [0.0, 0.0])] && 0 <= a < 2
    ensures m.UndividedAdjoint(answers, 0, a) == if a == 0 then 1.0 else 0.0
  {
    SwappedHands(m, answers, a, if a == 0 then 1.0 else 0.0);
    ZeroRows(m, answers, a);
    OneRankAdjoint(m, answers, a, if a == 0 then 1.0 else 0.0);
  }

  lemma SwappedHands(m: Machine, answers: seq<LocalAdjoints>, a: int, v: real)
    requires m == SwappedMachine() && |answers| == 1 && Entries(answers[0].messages)(0) == 1.0
    requires v == if a == 0 then 1.0 else 0.0
    ensures m.HandedBy(answers, 0, a)(0) == v
  {
    SwappedEdge(m, Entries(answers[0].messages), a);
    HandedBySingle(m, answers, 0, a, v);
  }

  /** What is left of the answers and of the rows of the one rank. */
  lemma SwappedAnswer(messages: seq<real>, rows: seq<real>)
    requires |messages| == 2 && |rows| == 2
    ensures UnitStages()(0, messages, rows) == LocalAdjoints([1.0, 1.0], [0.0, 0.0])
  {
    assert UnitStages()(0, messages, rows).messages == [1.0, 1.0];
    assert UnitStages()(0, messages, rows).rows == [0.0, 0.0];
  }

  lemma TwoHanded(m: Machine, answers: seq<LocalAdjoints>, handed: seq<real>)
    requires m.stride == 3 && m.source != [] && m.width == 1 && HandedRight(m, answers, 0, handed) && |handed| == 2
    ensures handed == [m.UndividedAdjoint(answers, 0, 0), m.UndividedAdjoint(answers, 0, 1)]
  {
    assert Entry(handed, 1, 0, 0) == m.UndividedAdjoint(answers, 0, Offset(0, 3, 0));
    assert Entry(handed, 1, 1, 0) == m.UndividedAdjoint(answers, 0, Offset(0, 3, 1));
  }

  lemma SwappedHanded(m: Machine, answers: seq<LocalAdjoints>, handed: seq<real>)
    requires m == SwappedMachine() && answers == [LocalAdjoints([1.0, 1.0], [0.0, 0.0])]
    requires HandedRight(m, answers, 0, handed)
    ensures handed == [1.0, 0.0]
  {
    SwappedAdjoint(m, answers, 0);
    SwappedAdjoint(m, answers, 1);
    TwoHanded(m, answers, handed);
  }

  method OneRank() returns (rank: PairRank)
    ensures rank.Valid() && rank.width == 1 && rank.atoms == 3 && rank.h1 != rank.h1Adj
    ensures fresh(rank.h1) && fresh(rank.h1Adj)
  {
    var h1 := new real[3](_ => 0.0);
    var h1Adj := new real[3](_ => 0.0);
    rank := new PairRank(1, 3, h1, h1Adj);
  }

  /** What the round hands back there: node 1 stands for atom 0, whose adjoint is 1, but it is node 0 that gets it;
      and each node reads the other one's features. */
  method SwappedRound() returns (rows: seq<seq<real>>, handed: seq<seq<real>>)
    ensures rows == [[20.0, 10.0]] && handed == [[1.0, 0.0]]
  {
    var rank := OneRank();
    rows, handed := SwappedRoundOn(SwappedMachine(), rank);
  }

  method SwappedRoundOn(m: Machine, rank: PairRank) returns (rows: seq<seq<real>>, handed: seq<seq<real>>)
    requires m == SwappedMachine()
    requires rank.Valid() && rank.width == 1 && rank.atoms == 3 && rank.h1 != rank.h1Adj
    modifies rank.h1, rank.h1Adj
    ensures rows == [[20.0, 10.0]] && handed == [[1.0, 0.0]]
  {
    SwappedIsValid(m, rank);
    var messages, answers, row, mine;
    messages, row, answers, mine := SingleRankRound(m, rank, UnitStages());
    SwappedRows(m, row, mine);
    SwappedAnswer(messages, row);
    SwappedHanded(m, answers, mine);
    rows, handed := [row], [mine];
  }

  /** A round on a single rank. */
  method SingleRankRound(m: Machine, rank: PairRank, local: LocalStages)
    returns (messages: seq<real>, row: seq<real>, answers: seq<LocalAdjoints>, mine: seq<real>)
    requires m.Valid([rank]) && SizesKept(local)
    modifies rank.h1, rank.h1Adj
    ensures m.MessagesRight(0, messages) && m.RowsRight(0, row) && answers == [local(0, messages, row)]
    ensures HandedRight(m, answers, 0, mine)
  {
    var allMessages, allRows, allHanded;
    allMessages, allRows, answers, allHanded := MessageRound(m, [rank], local);
    messages, row, mine := allMessages[0], allRows[0], allHanded[0];
    assert RankRight(m, local, 0, messages, row, answers[0]);
  }
}
