/** Distributed message passing (pair_symmetrix/pair_symmetrix_mace.cpp:261-305, 535-583): an arbitrary schedule of
    copies from owners to ghosts, replayed backwards for the adjoints. A slot is one atom of one rank, numbered across
    all ranks; one component of the features is a function of the slot. */
module HaloExchange {
  import opened FiniteSums

  function Product(a: real, b: real): real { a * b }

  lemma ProductOfSum(a: real, b: real, c: real)
    ensures Product(a + b, c) == Product(a, c) + Product(b, c)
  {
  }

  /** One swap: the slots that are sent, and where the contiguous range that receives them starts. */
  datatype Swap = Swap(list: seq<int>, first: int) {
    predicate Receives(s: int) { first <= s < first + |list| }

    /** Copies the sent slots into the received range. */
    ghost function Forward(x: int -> real): int -> real {
      s => if Receives(s) then x(list[s - first]) else x(s)
    }

    /** What the received range adds to slot s. */
    ghost function Returned(g: int -> real, s: int): real {
      Sum(|list|, i => if 0 <= i < |list| && list[i] == s then g(first + i) else 0.0)
    }

    /** What the received slots pair with after the copy, slot by slot; the same collected at the senders; and the
        same position by position of the list. */
    ghost function Copied(g: int -> real, y: int -> real): int -> real {
      s => if Receives(s) then Product(g(s), y(list[s - first])) else 0.0
    }

    ghost function Collected(g: int -> real, y: int -> real): int -> real {
      s => Product(Returned(g, s), y(s))
    }

    ghost function Sent(g: int -> real, y: int -> real): int -> real {
      i => if 0 <= i < |list| then Product(g(first + i), y(list[i])) else 0.0
    }

    /** Adds the received range back to the sent slots. Nothing is cleared. */
    ghost function Reverse(g: int -> real): int -> real {
      s => g(s) + Returned(g, s)
    }
  }

  /** A schedule over `slots` slots; `owned` slots hold features of their own. */
  datatype Schedule = Schedule(swaps: seq<Swap>, slots: nat, owned: set<int>) {
    /** Slots that hold a value after the first t swaps. */
    predicate Live(t: nat, s: int)
      requires t <= |swaps|
    {
      if t == 0 then s in owned else Live(t - 1, s) || swaps[t - 1].Receives(s)
    }

    /** Swap t fills slots that hold nothing yet, and sends only slots that do. */
    predicate Orderly(t: nat)
      requires t < |swaps|
    {
      var w := swaps[t];
      && 0 <= w.first && w.first + |w.list| <= slots
      && (forall s :: w.first <= s < w.first + |w.list| ==> !Live(t, s))
      && (forall i :: 0 <= i < |w.list| ==> 0 <= w.list[i] < slots && Live(t, w.list[i]))
    }

    /** Every ghost is received exactly once, and before it is forwarded. */
    predicate Valid() {
      && (forall s :: s in owned ==> 0 <= s < slots)
      && (forall t: nat :: t < |swaps| ==> Orderly(t))
    }

    /** The features after the first t swaps. */
    ghost function Forward(t: nat, x: int -> real): int -> real
      requires t <= |swaps|
    {
      if t == 0 then x else swaps[t - 1].Forward(Forward(t - 1, x))
    }

    /** The adjoints after the first t swaps have been replayed, last one first. */
    ghost function Reverse(t: nat, g: int -> real): int -> real
      requires t <= |swaps|
    {
      if t == 0 then g else Reverse(t - 1, swaps[t - 1].Reverse(g))
    }

    /** The slot whose value slot s holds after the first t swaps. */
    function Origin(t: nat, s: int): int
      requires t <= |swaps|
    {
      if t == 0 then s
      else if swaps[t - 1].Receives(s) then Origin(t - 1, swaps[t - 1].list[s - swaps[t - 1].first])
      else Origin(t - 1, s)
    }

    /** Owner of slot s once the exchange is done. */
    function Owner(s: int): int { Origin(|swaps|, s) }

    // ---------------------------------------------------------------- forward

    lemma {:induction false} ForwardByOrigin(t: nat, x: int -> real, s: int)
      requires t <= |swaps|
      ensures Forward(t, x)(s) == x(Origin(t, s))
    {
      if t == 0 {
      } else {
        var w := swaps[t - 1];
        ForwardByOrigin(t - 1, x, if w.Receives(s) then w.list[s - w.first] else s);
      }
    }

    lemma {:induction false} OriginIsOwned(t: nat, s: int)
      requires Valid() && t <= |swaps| && Live(t, s)
      ensures Origin(t, s) in owned && (s in owned ==> Origin(t, s) == s)
    {
      if t == 0 {
      } else {
        var w := swaps[t - 1];
        assert Orderly(t - 1);
        if w.Receives(s) {
          OwnedStaysLive(t - 1, s);
          OriginIsOwned(t - 1, w.list[s - w.first]);
        } else {
          OriginIsOwned(t - 1, s);
        }
      }
    }

    lemma {:induction false} OwnedStaysLive(t: nat, s: int)
      requires t <= |swaps|
      ensures s in owned ==> Live(t, s)
    {
      if t == 0 {
      } else {
        OwnedStaysLive(t - 1, s);
      }
    }

    /** After the exchange every live slot holds its owner's features, and owners keep their own. */
    lemma EveryCopyHoldsItsOwner(x: int -> real, s: int)
      requires Valid() && Live(|swaps|, s)
      ensures Forward(|swaps|, x)(s) == x(Owner(s)) && Owner(s) in owned && (s in owned ==> Owner(s) == s)
    {
      ForwardByOrigin(|swaps|, x, s);
      OriginIsOwned(|swaps|, s);
    }

    // ---------------------------------------------------------------- reverse

    /** Pairing over the slots that are live after t swaps. */
    ghost function Pairing(t: nat, g: int -> real, x: int -> real): real
      requires t <= |swaps|
    {
      Sum(slots, LivePart(t, g, x))
    }

    ghost function LivePart(t: nat, g: int -> real, x: int -> real): int -> real
      requires t <= |swaps|
    {
      s => if Live(t, s) then Product(g(s), x(s)) else 0.0
    }

    lemma CopyPart(t: nat, g: int -> real, y: int -> real, s: int)
      requires Valid() && t < |swaps|
      ensures LivePart(t + 1, g, swaps[t].Forward(y))(s) == LivePart(t, g, y)(s) + swaps[t].Copied(g, y)(s)
    {
      var w := swaps[t];
      var after := w.Forward(y);
      assert Orderly(t);
      assert Live(t + 1, s) <==> Live(t, s) || w.Receives(s);
      if w.Receives(s) {
        assert !Live(t, s) && after(s) == y(w.list[s - w.first]);
      } else {
        assert after(s) == y(s);
      }
    }

    lemma CollectPart(t: nat, g: int -> real, y: int -> real, s: int)
      requires Valid() && t < |swaps|
      ensures LivePart(t, swaps[t].Reverse(g), y)(s) == LivePart(t, g, y)(s) + swaps[t].Collected(g, y)(s)
    {
      var w := swaps[t];
      assert Orderly(t);
      assert w.Collected(g, y)(s) == Product(w.Returned(g, s), y(s));
      if Live(t, s) {
        ProductOfSum(g(s), w.Returned(g, s), y(s));
      } else {
        NothingReturned(w, g, s);
      }
    }

    /** One swap backwards is the transpose of the swap. */
    lemma SwapTransposed(t: nat, g: int -> real, y: int -> real)
      requires Valid() && t < |swaps|
      ensures Pairing(t + 1, g, swaps[t].Forward(y)) == Pairing(t, swaps[t].Reverse(g), y)
    {
      var w := swaps[t];
      assert Orderly(t);
      forall s | 0 <= s < slots
        ensures LivePart(t + 1, g, w.Forward(y))(s) == LivePart(t, g, y)(s) + w.Copied(g, y)(s)
        ensures LivePart(t, w.Reverse(g), y)(s) == LivePart(t, g, y)(s) + w.Collected(g, y)(s)
      {
        CopyPart(t, g, y, s);
        CollectPart(t, g, y, s);
      }
      SumAdded(slots, LivePart(t, g, y), w.Copied(g, y), LivePart(t + 1, g, w.Forward(y)));
      SumAdded(slots, LivePart(t, g, y), w.Collected(g, y), LivePart(t, w.Reverse(g), y));
      CopiedIsSent(w, slots, g, y);
      CollectedIsSent(w, slots, g, y);
    }

    /** The reverse exchange is the transpose of the forward exchange. */
    lemma {:induction false} ExchangeTransposed(t: nat, g: int -> real, x: int -> real)
      requires Valid() && t <= |swaps|
      ensures Pairing(t, g, Forward(t, x)) == Pairing(0, Reverse(t, g), x)
      decreases t
    {
      if t == 0 {
      } else {
        SwapTransposed(t - 1, g, Forward(t - 1, x));
        ExchangeTransposed(t - 1, swaps[t - 1].Reverse(g), x);
      }
    }

    /** The adjoints of all live copies of o. */
    ghost function CopiesOf(o: int, g: int -> real): int -> real {
      s => if Live(|swaps|, s) && Owner(s) == o then g(s) else 0.0
    }

    /** Each owner ends with the sum of the adjoints on all its copies, on every rank. */
    lemma OwnersCollect(g: int -> real, o: int)
      requires Valid() && o in owned
      ensures Reverse(|swaps|, g)(o) == Sum(slots, CopiesOf(o, g))
    {
      var unit := s => if s == o then 1.0 else 0.0;
      var t := |swaps|;
      ExchangeTransposed(t, g, unit);
      forall s | 0 <= s < slots ensures LivePart(t, g, Forward(t, unit))(s) == CopiesOf(o, g)(s) {
        ForwardByOrigin(t, unit, s);
      }
      SumCong(slots, LivePart(t, g, Forward(t, unit)), CopiesOf(o, g));
      var parts := LivePart(0, Reverse(t, g), unit);
      forall s ensures parts(s) == if s == o then Reverse(t, g)(o) else 0.0 {
        assert unit(s) == if s == o then 1.0 else 0.0;
      }
      SumSingle(slots, o, parts);
    }

    // ---------------------------------------------------------------- an edge-linear stage

    /** The same edges on the undivided graph: every copy is replaced by its owner. */
    ghost function Undivided(edges: Edges): Edges {
      edges.At(s => Owner(s))
    }

    /** The divided graph gives every receiver what the undivided graph gives it. */
    lemma SameFeatures(edges: Edges, x: int -> real, i: int)
      requires Valid() && edges.Within(this)
      ensures edges.Gathered(Forward(|swaps|, x), i) == Undivided(edges).Gathered(x, i)
    {
      var y, undivided := Forward(|swaps|, x), Undivided(edges);
      forall e | 0 <= e < edges.count
        ensures edges.Term(y, i)(e) == undivided.Term(x, i)(e)
      {
        EveryCopyHoldsItsOwner(x, edges.neighbour(e));
      }
      SumCong(edges.count, edges.Term(y, i), undivided.Term(x, i));
    }

    /** And the reverse exchange gives every owner the adjoint the undivided graph gives it. */
    lemma SameAdjoints(edges: Edges, w: int -> real, o: int)
      requires Valid() && edges.Within(this) && o in owned
      ensures Reverse(|swaps|, edges.Scattered(w))(o) == Undivided(edges).Scattered(w)(o)
    {
      var scattered, undivided := edges.Scattered(w), Undivided(edges);
      OwnersCollect(scattered, o);
      var term := (s, e) => if Live(|swaps|, s) && Owner(s) == o then edges.Share(w, s)(e) else 0.0;
      forall s | 0 <= s < slots ensures CopiesOf(o, scattered)(s) == Sum(edges.count, e => term(s, e)) {
        if Live(|swaps|, s) && Owner(s) == o {
          SumCong(edges.count, edges.Share(w, s), e => term(s, e));
        } else {
          SumZero(edges.count, e => term(s, e));
        }
      }
      SumCong(slots, CopiesOf(o, scattered), s => Sum(edges.count, e => term(s, e)));
      SumSwap(slots, edges.count, term);
      forall e | 0 <= e < edges.count
        ensures Sum(slots, s => term(s, e)) == undivided.Share(w, o)(e)
      {
        SumSingle(slots, edges.neighbour(e), s => term(s, e));
      }
      SumCong(edges.count, e => Sum(slots, s => term(s, e)), undivided.Share(w, o));
    }

    // ---------------------------------------------------------------- positions and atoms

    /** A rank whose slots start at `first` lists its owned atoms: node ii is atom list[ii], nobody is listed twice,
        and every position is an owned atom too. */
    predicate Lists(first: int, list: seq<nat>) {
      && (forall ii :: 0 <= ii < |list| ==> first + ii in owned && first + list[ii] in owned)
      && (forall ii, jj :: 0 <= ii < |list| && 0 <= jj < |list| && list[ii] == list[jj] ==> ii == jj)
    }

    /** Node ii is handed what the reverse exchange leaves at position ii (lines 576-585). Here that is the adjoint of
        its own features, those of atom list[ii], on the undivided graph. */
    ghost predicate HandedOwn(first: int, list: seq<nat>, edges: Edges, w: int -> real, ii: int)
      requires 0 <= ii < |list|
    {
      Reverse(|swaps|, edges.Scattered(w))(first + ii) == Undivided(edges).Scattered(w)(first + list[ii])
    }

    /** Every node is handed its own, for all edge-linear stages and all message adjoints. */
    ghost predicate AllHandedOwn(first: int, list: seq<nat>) {
      forall edges: Edges, w: int -> real, ii ::
        edges.Within(this) && 0 <= ii < |list| ==> HandedOwn(first, list, edges, w, ii)
    }

    /** The adjoints are not sorted back: that is right exactly when the list is the identity. */
    lemma PositionsMustBeAtoms(first: int, list: seq<nat>)
      requires Valid() && Lists(first, list)
      ensures AllHandedOwn(first, list) <==> forall ii :: 0 <= ii < |list| ==> list[ii] == ii
    {
      if ii :| 0 <= ii < |list| && list[ii] != ii {
        WrongNodeHanded(first, list, ii);
      } else {
        IdentityHandsBack(first, list);
      }
    }

    lemma IdentityHandsBack(first: int, list: seq<nat>)
      requires Valid() && Lists(first, list) && forall ii :: 0 <= ii < |list| ==> list[ii] == ii
      ensures AllHandedOwn(first, list)
    {
      forall edges: Edges, w: int -> real, ii | edges.Within(this) && 0 <= ii < |list|
        ensures HandedOwn(first, list, edges, w, ii)
      {
        assert list[ii] == ii;
        OwnHandedBack(first, list, edges, w, ii);
      }
    }

    lemma OwnHandedBack(first: int, list: seq<nat>, edges: Edges, w: int -> real, ii: int)
      requires Valid() && 0 <= ii < |list| && list[ii] == ii && first + ii in owned && edges.Within(this)
      ensures HandedOwn(first, list, edges, w, ii)
    {
      var o := first + ii;
      SameAdjoints(edges, w, o);
      assert first + list[ii] == o;
    }

    /** The stage that shows it: one edge, ending at the atom the node stands for. */
    lemma WrongNodeHanded(first: int, list: seq<nat>, ii: int)
      requires Valid() && Lists(first, list) && 0 <= ii < |list| && list[ii] != ii
      ensures !AllHandedOwn(first, list)
    {
      var atom := first + list[ii];
      var edges, w: int -> real := Edges(1, _ => 0, _ => atom, _ => 1.0), _ => 1.0;
      OwnedStaysLive(|swaps|, atom);
      OriginIsOwned(|swaps|, atom);
      SameAdjoints(edges, w, first + ii);
      var undivided := Undivided(edges);
      OneEdge(undivided, w, atom);
      OneEdge(undivided, w, first + ii);
      assert !HandedOwn(first, list, edges, w, ii);
    }

    /** On the way out the features x of the nodes are placed by atom. */
    ghost predicate PlacedByAtom(first: int, list: seq<nat>, x: int -> real, y: int -> real) {
      forall ii :: 0 <= ii < |list| ==> y(first + list[ii]) == x(ii)
    }

    /** The stages after the exchange read position ii again for node ii. Those are its own features. */
    ghost predicate ReadsOwn(first: int, list: seq<nat>, x: int -> real, y: int -> real, ii: int) {
      Forward(|swaps|, y)(first + ii) == x(ii)
    }

    ghost predicate AllReadOwn(first: int, list: seq<nat>) {
      forall x: int -> real, y: int -> real, ii ::
        PlacedByAtom(first, list, x, y) && 0 <= ii < |list| ==> ReadsOwn(first, list, x, y, ii)
    }

    /** That, too, is right exactly when the list is the identity. */
    lemma PositionsReadAtoms(first: int, list: seq<nat>)
      requires Valid() && Lists(first, list)
      ensures AllReadOwn(first, list) <==> forall ii :: 0 <= ii < |list| ==> list[ii] == ii
    {
      if ii :| 0 <= ii < |list| && list[ii] != ii {
        WrongFeaturesRead(first, list, ii);
      } else {
        forall x: int -> real, y: int -> real, ii | PlacedByAtom(first, list, x, y) && 0 <= ii < |list|
          ensures ReadsOwn(first, list, x, y, ii)
        {
          assert list[ii] == ii;
          OwnKept(y, first + ii);
        }
      }
    }

    lemma WrongFeaturesRead(first: int, list: seq<nat>, ii: int)
      requires Valid() && Lists(first, list) && 0 <= ii < |list| && list[ii] != ii
      ensures !AllReadOwn(first, list)
    {
      var x: int -> real := s => if s == ii then 1.0 else 0.0;
      var y: int -> real := s => if s == first + list[ii] then 1.0 else 0.0;
      OwnKept(y, first + ii);
      assert PlacedByAtom(first, list, x, y) && !ReadsOwn(first, list, x, y, ii);
    }

    lemma OwnKept(y: int -> real, s: int)
      requires Valid() && s in owned
      ensures Forward(|swaps|, y)(s) == y(s)
    {
      OwnedStaysLive(|swaps|, s);
      EveryCopyHoldsItsOwner(y, s);
    }
  }

  /** A stage of one edge of weight 1 hands its message adjoint to its neighbour and to nobody else. */
  lemma OneEdge(edges: Edges, w: int -> real, s: int)
    requires edges.count == 1 && edges.kernel(0) == 1.0
    ensures edges.Scattered(w)(s) == if edges.neighbour(0) == s then w(edges.receiver(0)) else 0.0
  {
    SumSingle(1, 0, edges.Share(w, s));
  }

  /** Atoms 0 and 1 are owned and listed as [1, 0], slot 2 is a ghost of atom 0, and one edge ends at the ghost. Node
      1 stands for atom 0, but its adjoint is handed to node 0. */
  lemma SwappedPair()
    ensures var sched := Schedule([Swap([0], 2)], 3, {0, 1});
            var edges, w: int -> real := Edges(1, _ => 0, _ => 2, _ => 1.0), _ => 1.0;
            && sched.Valid() && sched.Lists(0, [1, 0]) && edges.Within(sched)
            && sched.Reverse(1, edges.Scattered(w))(0) == 1.0 && sched.Reverse(1, edges.Scattered(w))(1) == 0.0
            && sched.Undivided(edges).Scattered(w)([1, 0][0]) == 0.0
            && sched.Undivided(edges).Scattered(w)([1, 0][1]) == 1.0
  {
    var sched := Schedule([Swap([0], 2)], 3, {0, 1});
    var edges, w: int -> real := Edges(1, _ => 0, _ => 2, _ => 1.0), _ => 1.0;
    assert sched.Orderly(0);
    assert sched.Live(1, 2) && sched.Owner(2) == 0;
    var undivided := sched.Undivided(edges);
    OneEdge(undivided, w, 0);
    OneEdge(undivided, w, 1);
    sched.SameAdjoints(edges, w, 0);
    sched.SameAdjoints(edges, w, 1);
  }

  lemma NothingReturned(w: Swap, g: int -> real, s: int)
    requires forall i :: 0 <= i < |w.list| ==> w.list[i] != s
    ensures w.Returned(g, s) == 0.0
  {
    SumZero(|w.list|, i => if 0 <= i < |w.list| && w.list[i] == s then g(w.first + i) else 0.0);
  }

  /** A sum whose terms vanish outside a window. */
  lemma SumWindow(m: nat, first: nat, n: nat, f: int -> real, c: int -> real)
    requires first + n <= m
    requires forall s :: 0 <= s < m && !(first <= s < first + n) ==> f(s) == 0.0
    requires forall i :: 0 <= i < n ==> f(first + i) == c(i)
    ensures Sum(m, f) == Sum(n, c)
  {
    SumSplit(first + n, m - first - n, f);
    SumZero(m - first - n, i => f(first + n + i));
    SumSplit(first, n, f);
    SumZero(first, f);
    SumCong(n, i => f(first + i), c);
  }

  lemma CopiedIsSent(w: Swap, slots: nat, g: int -> real, y: int -> real)
    requires 0 <= w.first && w.first + |w.list| <= slots
    ensures Sum(slots, w.Copied(g, y)) == Sum(|w.list|, w.Sent(g, y))
  {
    var copied := w.Copied(g, y);
    forall s ensures !w.Receives(s) ==> copied(s) == 0.0 {
    }
    SumWindow(slots, w.first, |w.list|, copied, w.Sent(g, y));
  }

  /** Position i of the list, seen from slot s. */
  ghost function SentFrom(w: Swap, g: int -> real, y: int -> real): (int, int) -> real {
    (s, i) => if 0 <= i < |w.list| && w.list[i] == s then Product(g(w.first + i), y(s)) else 0.0
  }

  lemma CollectedBySlot(w: Swap, g: int -> real, y: int -> real, s: int)
    ensures w.Collected(g, y)(s) == Sum(|w.list|, i => SentFrom(w, g, y)(s, i))
  {
    var term := SentFrom(w, g, y);
    var n, part := |w.list|, i => if 0 <= i < |w.list| && w.list[i] == s then g(w.first + i) else 0.0;
    forall i | 0 <= i < n ensures term(s, i) == y(s) * part(i) {
      if w.list[i] == s {
        assert term(s, i) == Product(part(i), y(s));
      } else {
        assert term(s, i) == 0.0 == part(i);
      }
    }
    SumScaled(n, y(s), part, i => term(s, i));
  }

  /** Summed over the sending slots or over the list, the copies pair the same. */
  lemma CollectedIsSent(w: Swap, slots: nat, g: int -> real, y: int -> real)
    requires forall i :: 0 <= i < |w.list| ==> 0 <= w.list[i] < slots
    ensures Sum(slots, w.Collected(g, y)) == Sum(|w.list|, w.Sent(g, y))
  {
    var n, term := |w.list|, SentFrom(w, g, y);
    forall s | 0 <= s < slots ensures w.Collected(g, y)(s) == Sum(n, i => term(s, i)) {
      CollectedBySlot(w, g, y, s);
    }
    SumCong(slots, w.Collected(g, y), s => Sum(n, i => term(s, i)));
    SumSwap(slots, n, term);
    forall i | 0 <= i < n ensures Sum(slots, s => term(s, i)) == w.Sent(g, y)(i) {
      SumSingle(slots, w.list[i], s => term(s, i));
    }
    SumCong(n, i => Sum(slots, s => term(s, i)), w.Sent(g, y));
  }

  /** An edge-linear stage: edge e adds kernel(e) times the value of its neighbour to its receiver. */
  datatype Edges = Edges(count: nat, receiver: int -> int, neighbour: int -> int, kernel: int -> real) {
    ghost predicate Within(s: Schedule) {
      forall e :: 0 <= e < count ==> 0 <= neighbour(e) < s.slots && s.Live(|s.swaps|, neighbour(e))
    }

    /** The same edges with every neighbour slot replaced. */
    function At(f: int -> int): Edges {
      Edges(count, receiver, e => f(neighbour(e)), kernel)
    }

    ghost function Term(x: int -> real, i: int): int -> real {
      e => if receiver(e) == i then Product(kernel(e), x(neighbour(e))) else 0.0
    }

    ghost function Gathered(x: int -> real, i: int): real {
      Sum(count, Term(x, i))
    }

    /** What edge e hands back to slot s. */
    ghost function Share(w: int -> real, s: int): int -> real {
      e => if neighbour(e) == s then Product(kernel(e), w(receiver(e))) else 0.0
    }

    /** The adjoints the stage accumulates on the slots its edges point at. */
    ghost function Scattered(w: int -> real): int -> real {
      s => Sum(count, Share(w, s))
    }
  }
}
