/** The packing and unpacking of one rank's features and adjoints, and the exchange over all ranks
    (pair_symmetrix/pair_symmetrix_mace.cpp:261-305, 535-583). */
module HaloBuffers {
  import opened FiniteSums
  import opened FlatIndex
  import opened HaloExchange

  /** Component k of atom a in a buffer with `width` components per atom. */
  ghost function Entry(h: seq<real>, width: nat, a: int, k: int): real {
    At(h, Offset(a, width, k))
  }

  /** h' is h with component k of atom a replaced by v. */
  ghost predicate EntryWritten(h: seq<real>, h': seq<real>, width: nat, a: int, k: int, v: real) {
    && |h'| == |h|
    && forall b, l :: 0 <= l < width ==> Entry(h', width, b, l) == if b == a && l == k then v else Entry(h, width, b, l)
  }

  /** Writes one component; no other entry moves. */
  method WriteEntry(h: array<real>, width: nat, a: nat, k: nat, v: real)
    requires k < width && Offset(a, width, k) < h.Length
    modifies h
    ensures EntryWritten(old(h[..]), h[..], width, a, k, v)
    ensures forall t :: 0 <= t < h.Length ==> h[t] == if t == a * width + k then v else old(h[t])
  {
    ProductNonNegative(a, width);
    ghost var before := h[..];
    h[a * width + k] := v;
    forall b, l | 0 <= l < width
      ensures Entry(h[..], width, b, l) == if b == a && l == k then v else Entry(before, width, b, l)
    {
      if Offset(b, width, l) == Offset(a, width, k) {
        OffsetInjective(width, b, l, a, k);
      }
    }
  }

  method ReadEntry(h: array<real>, width: nat, a: nat, k: nat) returns (v: real)
    requires k < width && Offset(a, width, k) < h.Length
    ensures v == Entry(h[..], width, a, k) && v == At(h[..], a * width + k)
  {
    ProductNonNegative(a, width);
    v := h[a * width + k];
  }

  lemma EntryInside(length: nat, count: nat, width: nat, a: nat, k: nat)
    requires length >= count * width && a < count && k < width
    ensures 0 <= Offset(a, width, k) < length
  {
    OffsetBound(a, count, width, k);
  }

  /** What one rank keeps for the exchange: features and adjoints of all its atoms, owned and ghost. */
  class PairRank {
    const width: nat
    const atoms: nat
    var h1: array<real>
    var h1Adj: array<real>

    ghost predicate Valid()
      reads this
    {
      h1.Length == atoms * width && h1Adj.Length == atoms * width
    }

    constructor (width: nat, atoms: nat, h1: array<real>, h1Adj: array<real>)
      requires h1.Length == atoms * width && h1Adj.Length == atoms * width
      ensures Valid() && this.width == width && this.atoms == atoms && this.h1 == h1 && this.h1Adj == h1Adj
    {
      this.width, this.atoms, this.h1, this.h1Adj := width, atoms, h1, h1Adj;
    }

    /** Position i of the buffer gets the features of atom list[i]. */
    method PackForwardComm(list: seq<nat>, buf: array<real>) returns (size: nat)
      requires Valid() && buf != h1 && buf.Length >= |list| * width && forall i :: 0 <= i < |list| ==> list[i] < atoms
      modifies buf
      ensures size == |list| * width
      ensures forall i, k :: 0 <= i < |list| && 0 <= k < width ==>
                Entry(buf[..], width, i, k) == Entry(h1[..], width, list[i], k)
    {
      for ii := 0 to |list|
        invariant forall i, k :: 0 <= i < ii && 0 <= k < width ==>
                    Entry(buf[..], width, i, k) == Entry(h1[..], width, list[i], k)
      {
        for k := 0 to width
          invariant forall i, l :: 0 <= l < width && (0 <= i < ii || (i == ii && l < k)) ==>
                      Entry(buf[..], width, i, l) == Entry(h1[..], width, list[i], l)
        {
          EntryInside(h1.Length, atoms, width, list[ii], k);
          EntryInside(buf.Length, |list|, width, ii, k);
          var v := ReadEntry(h1, width, list[ii], k);
          WriteEntry(buf, width, ii, k, v);
        }
      }
      ProductNonNegative(|list|, width);
      size := |list| * width;
    }

    /** Atoms first, first + 1, ... get the buffer's features; no other atom changes. */
    method UnpackForwardComm(n: nat, first: nat, buf: array<real>)
      requires Valid() && buf != h1 && first + n <= atoms && buf.Length >= n * width
      modifies h1
      ensures forall a, k :: 0 <= k < width ==>
                (Entry(h1[..], width, a, k)
              == if first <= a < first + n then Entry(buf[..], width, a - first, k)
                 else old(Entry(h1[..], width, a, k)))
    {
      ghost var before := h1[..];
      for i := 0 to n
        invariant forall a, k :: 0 <= k < width ==>
                    (Entry(h1[..], width, a, k)
                  == if first <= a < first + i then Entry(buf[..], width, a - first, k) else Entry(before, width, a, k))
      {
        for k := 0 to width
          invariant forall a, l :: 0 <= l < width ==>
                      (Entry(h1[..], width, a, l)
                    == if first <= a < first + i || (a == first + i && l < k) then Entry(buf[..], width, a - first, l)
                       else Entry(before, width, a, l))
        {
          EntryInside(h1.Length, atoms, width, first + i, k);
          EntryInside(buf.Length, n, width, i, k);
          var v := ReadEntry(buf, width, i, k);
          WriteEntry(h1, width, first + i, k, v);
        }
      }
    }

    /** Position i of the buffer gets the adjoints of atom first + i. */
    method PackReverseComm(n: nat, first: nat, buf: array<real>) returns (size: nat)
      requires Valid() && buf != h1Adj && first + n <= atoms && buf.Length >= n * width
      modifies buf
      ensures size == n * width
      ensures forall i, k :: 0 <= i < n && 0 <= k < width ==>
                Entry(buf[..], width, i, k) == Entry(h1Adj[..], width, first + i, k)
    {
      for i := 0 to n
        invariant forall j, k :: 0 <= j < i && 0 <= k < width ==>
                    Entry(buf[..], width, j, k) == Entry(h1Adj[..], width, first + j, k)
      {
        for k := 0 to width
          invariant forall j, l :: 0 <= l < width && (0 <= j < i || (j == i && l < k)) ==>
                      Entry(buf[..], width, j, l) == Entry(h1Adj[..], width, first + j, l)
        {
          EntryInside(h1Adj.Length, atoms, width, first + i, k);
          EntryInside(buf.Length, n, width, i, k);
          var v := ReadEntry(h1Adj, width, first + i, k);
          WriteEntry(buf, width, i, k, v);
        }
      }
      ProductNonNegative(n, width);
      size := n * width;
    }

    /** Every atom of the list collects its positions' adjoints; an atom may be listed more than once. */
    method UnpackReverseComm(list: seq<nat>, buf: array<real>)
      requires Valid() && buf != h1Adj && buf.Length >= |list| * width
      requires forall i :: 0 <= i < |list| ==> list[i] < atoms
      modifies h1Adj
      ensures forall a, k :: 0 <= k < width ==>
                (Entry(h1Adj[..], width, a, k)
              == old(Entry(h1Adj[..], width, a, k)) + Sum(|list|, FromBuffer(list, buf[..], width, a, k)))
    {
      ghost var before := h1Adj[..];
      for ii := 0 to |list|
        invariant forall a, k :: 0 <= k < width ==>
                    (Entry(h1Adj[..], width, a, k)
                  == Entry(before, width, a, k) + Sum(ii, FromBuffer(list, buf[..], width, a, k)))
      {
        for k := 0 to width
          invariant forall a, l :: 0 <= l < width ==>
                      (Entry(h1Adj[..], width, a, l)
                    == Entry(before, width, a, l)
                       + Sum(if l < k then ii + 1 else ii, FromBuffer(list, buf[..], width, a, l)))
        {
          EntryInside(h1Adj.Length, atoms, width, list[ii], k);
          EntryInside(buf.Length, |list|, width, ii, k);
          var v := ReadEntry(buf, width, ii, k);
          var w := ReadEntry(h1Adj, width, list[ii], k);
          WriteEntry(h1Adj, width, list[ii], k, w + v);
        }
      }
    }
  }

  /** What position i of a buffer holds for component k of atom a. */
  ghost function FromBuffer(list: seq<nat>, buf: seq<real>, width: nat, a: int, k: int): int -> real {
    i => if 0 <= i < |list| && list[i] == a then Entry(buf, width, i, k) else 0.0
  }

  // ---------------------------------------------------------------- all ranks

  /** A swap between two ranks: atoms of the source, and where the target receives them. */
  datatype RankSwap = RankSwap(source: nat, target: nat, list: seq<nat>, first: nat) {
    predicate Within(ranks: seq<PairRank>) {
      && source < |ranks| && target < |ranks| && first + |list| <= ranks[target].atoms
      && forall i :: 0 <= i < |list| ==> list[i] < ranks[source].atoms
    }

    /** The swap in slot numbers, `stride` slots per rank. */
    function Flat(stride: nat): Swap {
      Swap(seq(|list|, i requires 0 <= i < |list| => Offset(source, stride, list[i])), Offset(target, stride, first))
    }
  }

  /** The ranks have arrays of their own, one width, and at most `stride` atoms each. */
  ghost predicate Separate(ranks: seq<PairRank>, width: nat, stride: nat)
    reads ranks
  {
    && (forall r: nat :: r < |ranks| ==> RankFits(ranks, r, width, stride))
    && (forall r, q :: 0 <= r < |ranks| && 0 <= q < |ranks| ==> ranks[r].h1 != ranks[q].h1Adj)
    && (forall r, q :: 0 <= r < |ranks| && 0 <= q < |ranks| && r != q ==>
         ranks[r].h1 != ranks[q].h1 && ranks[r].h1Adj != ranks[q].h1Adj)
  }

  ghost predicate RankFits(ranks: seq<PairRank>, r: nat, width: nat, stride: nat)
    requires r < |ranks|
    reads ranks
  {
    ranks[r].Valid() && ranks[r].width == width && ranks[r].atoms <= stride
  }

  ghost function Features(ranks: seq<PairRank>): (c: seq<seq<real>>)
    reads ranks, set r | 0 <= r < |ranks| :: ranks[r].h1
    ensures |c| == |ranks|
  {
    seq(|ranks|, r requires 0 <= r < |ranks| reads ranks, (set q | 0 <= q < |ranks| :: ranks[q].h1) => ranks[r].h1[..])
  }

  ghost function Adjoints(ranks: seq<PairRank>): (c: seq<seq<real>>)
    reads ranks, set r | 0 <= r < |ranks| :: ranks[r].h1Adj
    ensures |c| == |ranks|
  {
    seq(|ranks|, r requires 0 <= r < |ranks| reads ranks,
        (set q | 0 <= q < |ranks| :: ranks[q].h1Adj) => ranks[r].h1Adj[..])
  }

  /** Component k as a function of the slot. */
  ghost function Component(c: seq<seq<real>>, width: nat, stride: nat, k: int): int -> real
    requires stride > 0
  {
    s => ComponentAt(c, width, k, s / stride, s % stride)
  }

  ghost function ComponentAt(c: seq<seq<real>>, width: nat, k: int, r: int, a: int): real {
    if 0 <= r < |c| then Entry(c[r], width, a, k) else 0.0
  }

  lemma ComponentOfSlot(c: seq<seq<real>>, width: nat, stride: nat, k: int, r: int, a: int)
    requires 0 <= a < stride
    ensures Component(c, width, stride, k)(Offset(r, stride, a)) == ComponentAt(c, width, k, r, a)
  {
    OffsetDecoded(r, stride, a);
  }

  /** Which slots a swap receives. */
  lemma ReceivesAtoms(w: RankSwap, stride: nat, s: int)
    requires stride > 0 && w.first + |w.list| <= stride
    ensures w.Flat(stride).Receives(s) <==> s / stride == w.target && w.first <= s % stride < w.first + |w.list|
    ensures w.Flat(stride).Receives(s) ==> s - w.Flat(stride).first == s % stride - w.first
  {
    assert s == Offset(s / stride, stride, s % stride);
    if w.Flat(stride).Receives(s) {
      var a := s - Offset(w.target, stride, 0);
      OffsetDecoded(w.target, stride, a);
    }
  }

  /** What a swap did to the features, rank by rank. */
  ghost predicate Copied(c: seq<seq<real>>, c': seq<seq<real>>, width: nat, w: RankSwap) {
    && |c'| == |c| && w.source < |c| && w.target < |c| && (forall r :: 0 <= r < |c| && r != w.target ==> c'[r] == c[r])
    && forall a, k :: 0 <= k < width ==>
         (Entry(c'[w.target], width, a, k)
       == if w.first <= a < w.first + |w.list| then Entry(c[w.source], width, w.list[a - w.first], k)
          else Entry(c[w.target], width, a, k))
  }

  /** Rank by rank or slot by slot, it is the same copy. */
  lemma CopiedIsForward(c: seq<seq<real>>, c': seq<seq<real>>, width: nat, stride: nat, w: RankSwap, k: nat, s: int)
    requires stride > 0 && k < width && Copied(c, c', width, w) && w.first + |w.list| <= stride
    requires forall i :: 0 <= i < |w.list| ==> w.list[i] < stride
    ensures Component(c', width, stride, k)(s) == w.Flat(stride).Forward(Component(c, width, stride, k))(s)
  {
    ReceivesAtoms(w, stride, s);
    if w.Flat(stride).Receives(s) {
      ComponentOfSlot(c, width, stride, k, w.source, w.list[s % stride - w.first]);
    }
  }

  lemma SwapFits(ranks: seq<PairRank>, w: RankSwap, width: nat, stride: nat)
    requires Separate(ranks, width, stride) && w.Within(ranks)
    ensures w.first + |w.list| <= stride && forall i :: 0 <= i < |w.list| ==> w.list[i] < stride
  {
    assert RankFits(ranks, w.source, width, stride) && RankFits(ranks, w.target, width, stride);
  }

  /** Packing on one rank and unpacking on another, which may be the same, through a buffer. */
  method CopyThrough(source: PairRank, target: PairRank, list: seq<nat>, first: nat)
    requires source.Valid() && target.Valid() && source.width == target.width && first + |list| <= target.atoms
    requires forall i :: 0 <= i < |list| ==> list[i] < source.atoms
    modifies target.h1
    ensures forall a, k :: 0 <= k < target.width ==>
              (Entry(target.h1[..], target.width, a, k)
            == if first <= a < first + |list| then old(Entry(source.h1[..], source.width, list[a - first], k))
               else old(Entry(target.h1[..], target.width, a, k)))
  {
    ProductNonNegative(|list|, source.width);
    var buf := new real[|list| * source.width];
    var size := source.PackForwardComm(list, buf);
    target.UnpackForwardComm(|list|, first, buf);
  }

  /** One swap forward. */
  method SwapForward(ranks: seq<PairRank>, w: RankSwap, ghost width: nat, ghost stride: nat)
    requires Separate(ranks, width, stride) && w.Within(ranks)
    modifies ranks[w.target].h1
    ensures Copied(old(Features(ranks)), Features(ranks), width, w)
  {
    assert RankFits(ranks, w.source, width, stride) && RankFits(ranks, w.target, width, stride);
    CopyThrough(ranks[w.source], ranks[w.target], w.list, w.first);
    assert forall r :: 0 <= r < |ranks| && r != w.target ==> Features(ranks)[r] == old(Features(ranks))[r];
  }

  /** What a swap did to the adjoints, rank by rank. */
  ghost predicate Returned(c: seq<seq<real>>, c': seq<seq<real>>, width: nat, w: RankSwap) {
    && |c'| == |c| && w.source < |c| && w.target < |c| && (forall r :: 0 <= r < |c| && r != w.source ==> c'[r] == c[r])
    && forall a, k :: 0 <= k < width ==>
         (Entry(c'[w.source], width, a, k)
       == Entry(c[w.source], width, a, k) + Sum(|w.list|, FromTarget(w, c[w.target], width, a, k)))
  }

  ghost function FromTarget(w: RankSwap, h: seq<real>, width: nat, a: int, k: int): int -> real {
    i => if 0 <= i < |w.list| && w.list[i] == a then Entry(h, width, w.first + i, k) else 0.0
  }

  lemma ReturnedIsReverse(c: seq<seq<real>>, c': seq<seq<real>>, width: nat, stride: nat, w: RankSwap, k: nat, s: int)
    requires stride > 0 && k < width && Returned(c, c', width, w) && w.first + |w.list| <= stride
    requires forall i :: 0 <= i < |w.list| ==> w.list[i] < stride
    ensures Component(c', width, stride, k)(s) == w.Flat(stride).Reverse(Component(c, width, stride, k))(s)
  {
    var flat, g := w.Flat(stride), Component(c, width, stride, k);
    var n, r, a := |w.list|, s / stride, s % stride;
    var back := i => if 0 <= i < |flat.list| && flat.list[i] == s then g(flat.first + i) else 0.0;
    forall i | 0 <= i < n
      ensures back(i) == if r == w.source then FromTarget(w, c[w.target], width, a, k)(i) else 0.0
    {
      OffsetDecoded(w.source, stride, w.list[i]);
      assert s == Offset(r, stride, a);
      ComponentOfSlot(c, width, stride, k, w.target, w.first + i);
      assert Offset(w.target, stride, w.first + i) == flat.first + i;
    }
    if r == w.source {
      SumCong(n, back, FromTarget(w, c[w.target], width, a, k));
    } else {
      SumZero(n, back);
    }
  }

  /** One swap backwards. */
  method SwapReverse(ranks: seq<PairRank>, w: RankSwap, ghost width: nat, ghost stride: nat)
    requires Separate(ranks, width, stride) && w.Within(ranks)
    modifies ranks[w.source].h1Adj
    ensures Returned(old(Adjoints(ranks)), Adjoints(ranks), width, w)
  {
    assert RankFits(ranks, w.source, width, stride) && RankFits(ranks, w.target, width, stride);
    var source, target := ranks[w.source], ranks[w.target];
    ProductNonNegative(|w.list|, source.width);
    var buf := new real[|w.list| * source.width];
    var size := target.PackReverseComm(|w.list|, w.first, buf);
    source.UnpackReverseComm(w.list, buf);
    forall a, k | 0 <= k < width
      ensures (Entry(source.h1Adj[..], width, a, k)
            == old(Entry(source.h1Adj[..], width, a, k))
               + Sum(|w.list|, FromTarget(w, old(target.h1Adj[..]), width, a, k)))
    {
      SumCong(|w.list|, FromBuffer(w.list, buf[..], width, a, k), FromTarget(w, old(target.h1Adj[..]), width, a, k));
    }
  }

  function FlatSchedule(swaps: seq<RankSwap>, stride: nat, slots: nat, owned: set<int>): Schedule {
    Schedule(seq(|swaps|, t requires 0 <= t < |swaps| => swaps[t].Flat(stride)), slots, owned)
  }

  /** The features after t swaps are those of the schedule. */
  ghost predicate Forwarded(sched: Schedule, c0: seq<seq<real>>, c: seq<seq<real>>, width: nat, stride: nat, t: nat)
    requires stride > 0 && t <= |sched.swaps|
  {
    forall k: nat, s :: k < width ==>
      Component(c, width, stride, k)(s) == sched.Forward(t, Component(c0, width, stride, k))(s)
  }

  lemma ForwardStep(sched: Schedule, c0: seq<seq<real>>, c: seq<seq<real>>, c': seq<seq<real>>, width: nat, stride: nat,
                    w: RankSwap, t: nat)
    requires stride > 0 && t < |sched.swaps| && sched.swaps[t] == w.Flat(stride)
    requires Forwarded(sched, c0, c, width, stride, t) && Copied(c, c', width, w)
    requires w.first + |w.list| <= stride && forall i :: 0 <= i < |w.list| ==> w.list[i] < stride
    ensures Forwarded(sched, c0, c', width, stride, t + 1)
  {
    forall k: nat, s | k < width
      ensures Component(c', width, stride, k)(s) == sched.Forward(t + 1, Component(c0, width, stride, k))(s)
    {
      CopiedIsForward(c, c', width, stride, w, k, s);
    }
  }

  lemma ForwardDone(sched: Schedule, c0: seq<seq<real>>, c: seq<seq<real>>, width: nat, stride: nat)
    requires stride > 0 && sched.Valid() && Forwarded(sched, c0, c, width, stride, |sched.swaps|)
    ensures forall k: nat, s :: k < width && sched.Live(|sched.swaps|, s) ==>
              Component(c, width, stride, k)(s) == Component(c0, width, stride, k)(sched.Owner(s))
  {
    forall k: nat, s | k < width && sched.Live(|sched.swaps|, s)
      ensures Component(c, width, stride, k)(s) == Component(c0, width, stride, k)(sched.Owner(s))
    {
      sched.EveryCopyHoldsItsOwner(Component(c0, width, stride, k), s);
    }
  }

  /** The forward exchange: afterwards every live slot holds its owner's features. */
  method ForwardComm(ranks: seq<PairRank>, swaps: seq<RankSwap>, ghost width: nat, ghost stride: nat,
                     ghost slots: nat, ghost owned: set<int>)
    requires Separate(ranks, width, stride) && stride > 0 && forall w <- swaps :: w.Within(ranks)
    requires FlatSchedule(swaps, stride, slots, owned).Valid()
    modifies set r | 0 <= r < |ranks| :: ranks[r].h1
    ensures var sched := FlatSchedule(swaps, stride, slots, owned);
            forall k: nat, s :: k < width && sched.Live(|swaps|, s) ==>
              (Component(Features(ranks), width, stride, k)(s)
            == Component(old(Features(ranks)), width, stride, k)(sched.Owner(s)))
  {
    ghost var sched, c0 := FlatSchedule(swaps, stride, slots, owned), Features(ranks);
    RunSwaps(ranks, swaps, width, stride, sched);
    ForwardDone(sched, c0, Features(ranks), width, stride);
  }

  /** All swaps, in order. */
  method RunSwaps(ranks: seq<PairRank>, swaps: seq<RankSwap>, ghost width: nat, ghost stride: nat,
                  ghost sched: Schedule)
    requires Separate(ranks, width, stride) && stride > 0 && forall w <- swaps :: w.Within(ranks)
    requires |sched.swaps| == |swaps| && forall t :: 0 <= t < |swaps| ==> sched.swaps[t] == swaps[t].Flat(stride)
    modifies set r | 0 <= r < |ranks| :: ranks[r].h1
    ensures Forwarded(sched, old(Features(ranks)), Features(ranks), width, stride, |swaps|)
  {
    ghost var c0 := Features(ranks);
    for t := 0 to |swaps|
      invariant Forwarded(sched, c0, Features(ranks), width, stride, t)
    {
      ghost var c := Features(ranks);
      assert swaps[t].Within(ranks) by { assert swaps[t] in swaps; }
      assert ranks[swaps[t].target].h1 in set r | 0 <= r < |ranks| :: ranks[r].h1;
      SwapFits(ranks, swaps[t], width, stride);
      SwapForward(ranks, swaps[t], width, stride);
      ForwardStep(sched, c0, c, Features(ranks), width, stride, swaps[t], t);
    }
  }

  /** Pointwise equal adjoints stay so under the replay. */
  lemma {:induction false} ReverseCong(sched: Schedule, t: nat, g: int -> real, g': int -> real, s: int)
    requires t <= |sched.swaps| && forall s :: g(s) == g'(s)
    ensures sched.Reverse(t, g)(s) == sched.Reverse(t, g')(s)
    decreases t
  {
    if t == 0 {
    } else {
      var w := sched.swaps[t - 1];
      var h, h' := w.Reverse(g), w.Reverse(g');
      forall s ensures h(s) == h'(s) {
        SumCong(|w.list|, i => if 0 <= i < |w.list| && w.list[i] == s then g(w.first + i) else 0.0,
                i => if 0 <= i < |w.list| && w.list[i] == s then g'(w.first + i) else 0.0);
      }
      ReverseCong(sched, t - 1, h, h', s);
    }
  }

  /** Replaying the remaining t swaps on c gives what replaying all swaps on c0 gives. */
  ghost predicate Replayed(sched: Schedule, c0: seq<seq<real>>, c: seq<seq<real>>, width: nat, stride: nat, t: nat)
    requires stride > 0 && t <= |sched.swaps|
  {
    forall k: nat, s :: k < width ==>
      (sched.Reverse(t, Component(c, width, stride, k))(s)
    == sched.Reverse(|sched.swaps|, Component(c0, width, stride, k))(s))
  }

  lemma ReplayStep(sched: Schedule, c0: seq<seq<real>>, c: seq<seq<real>>, c': seq<seq<real>>, width: nat, stride: nat,
                   w: RankSwap, t: nat)
    requires stride > 0 && t < |sched.swaps| && sched.swaps[t] == w.Flat(stride)
    requires Replayed(sched, c0, c, width, stride, t + 1) && Returned(c, c', width, w)
    requires w.first + |w.list| <= stride && forall i :: 0 <= i < |w.list| ==> w.list[i] < stride
    ensures Replayed(sched, c0, c', width, stride, t)
  {
    forall k: nat, s | k < width
      ensures (sched.Reverse(t, Component(c', width, stride, k))(s)
            == sched.Reverse(|sched.swaps|, Component(c0, width, stride, k))(s))
    {
      var g, g' := sched.swaps[t].Reverse(Component(c, width, stride, k)), Component(c', width, stride, k);
      forall p ensures g'(p) == g(p) {
        ReturnedIsReverse(c, c', width, stride, w, k, p);
      }
      ReverseCong(sched, t, g', g, s);
      assert sched.Reverse(t + 1, Component(c, width, stride, k))(s)
          == sched.Reverse(|sched.swaps|, Component(c0, width, stride, k))(s);
    }
  }

  lemma ReplayDone(sched: Schedule, c0: seq<seq<real>>, c: seq<seq<real>>, width: nat, stride: nat)
    requires stride > 0 && sched.Valid() && Replayed(sched, c0, c, width, stride, 0)
    ensures forall k: nat, o :: k < width && o in sched.owned ==>
              (Component(c, width, stride, k)(o)
            == Sum(sched.slots, sched.CopiesOf(o, Component(c0, width, stride, k))))
  {
    forall k: nat, o | k < width && o in sched.owned
      ensures Component(c, width, stride, k)(o) == Sum(sched.slots, sched.CopiesOf(o, Component(c0, width, stride, k)))
    {
      sched.OwnersCollect(Component(c0, width, stride, k), o);
      assert sched.Reverse(0, Component(c, width, stride, k))(o)
          == sched.Reverse(|sched.swaps|, Component(c0, width, stride, k))(o);
    }
  }

  /** The reverse exchange: the same swaps, last one first. Every owner ends with the sum over all its copies. */
  method ReverseComm(ranks: seq<PairRank>, swaps: seq<RankSwap>, ghost width: nat, ghost stride: nat,
                     ghost slots: nat, ghost owned: set<int>)
    requires Separate(ranks, width, stride) && stride > 0 && forall w <- swaps :: w.Within(ranks)
    requires FlatSchedule(swaps, stride, slots, owned).Valid()
    modifies set r | 0 <= r < |ranks| :: ranks[r].h1Adj
    ensures var sched := FlatSchedule(swaps, stride, slots, owned);
            forall k: nat, o :: k < width && o in owned ==>
              (Component(Adjoints(ranks), width, stride, k)(o)
            == Sum(slots, sched.CopiesOf(o, Component(old(Adjoints(ranks)), width, stride, k))))
  {
    ghost var sched, c0 := FlatSchedule(swaps, stride, slots, owned), Adjoints(ranks);
    ReplaySwaps(ranks, swaps, width, stride, sched);
    ReplayDone(sched, c0, Adjoints(ranks), width, stride);
  }

  /** All swaps backwards, last one first. */
  method ReplaySwaps(ranks: seq<PairRank>, swaps: seq<RankSwap>, ghost width: nat, ghost stride: nat,
                     ghost sched: Schedule)
    requires Separate(ranks, width, stride) && stride > 0 && forall w <- swaps :: w.Within(ranks)
    requires |sched.swaps| == |swaps| && forall t :: 0 <= t < |swaps| ==> sched.swaps[t] == swaps[t].Flat(stride)
    modifies set r | 0 <= r < |ranks| :: ranks[r].h1Adj
    ensures Replayed(sched, old(Adjoints(ranks)), Adjoints(ranks), width, stride, 0)
  {
    ghost var c0 := Adjoints(ranks);
    for t := |swaps| downto 0
      invariant Replayed(sched, c0, Adjoints(ranks), width, stride, t)
    {
      ghost var c := Adjoints(ranks);
      assert swaps[t].Within(ranks) by { assert swaps[t] in swaps; }
      assert ranks[swaps[t].source].h1Adj in set r | 0 <= r < |ranks| :: ranks[r].h1Adj;
      SwapFits(ranks, swaps[t], width, stride);
      SwapReverse(ranks, swaps[t], width, stride);
      ReplayStep(sched, c0, c, Adjoints(ranks), width, stride, swaps[t], t);
    }
  }

  // ---------------------------------------------------------------- positions and atoms

  /** Sorting the owned features by atom rather than by list position (lines 535-541). */
  method SortByAtom(rank: PairRank, ilist: seq<nat>, h1: seq<real>)
    requires rank.Valid() && |h1| == |ilist| * rank.width
    requires forall ii :: 0 <= ii < |ilist| ==> ilist[ii] < rank.atoms
    requires forall ii, jj :: 0 <= ii < jj < |ilist| ==> ilist[ii] != ilist[jj]
    modifies rank.h1
    ensures forall ii, k :: 0 <= ii < |ilist| && 0 <= k < rank.width ==>
              Entry(rank.h1[..], rank.width, ilist[ii], k) == Entry(h1, rank.width, ii, k)
    ensures forall a, k :: 0 <= k < rank.width && a !in ilist ==>
              Entry(rank.h1[..], rank.width, a, k) == old(Entry(rank.h1[..], rank.width, a, k))
  {
    var width := rank.width;
    ghost var before := rank.h1[..];
    for ii := 0 to |ilist|
      invariant forall i, k :: 0 <= i < ii && 0 <= k < width ==>
                  Entry(rank.h1[..], width, ilist[i], k) == Entry(h1, width, i, k)
      invariant forall a, k :: 0 <= k < width && a !in ilist ==>
                  Entry(rank.h1[..], width, a, k) == Entry(before, width, a, k)
    {
      for k := 0 to width
        invariant forall i, l :: 0 <= l < width && (0 <= i < ii || (i == ii && l < k)) ==>
                    Entry(rank.h1[..], width, ilist[i], l) == Entry(h1, width, i, l)
        invariant forall a, l :: 0 <= l < width && a !in ilist ==>
                    Entry(rank.h1[..], width, a, l) == Entry(before, width, a, l)
      {
        EntryInside(rank.h1.Length, rank.atoms, width, ilist[ii], k);
        EntryInside(|h1|, |ilist|, width, ii, k);
        ProductNonNegative(ii, width);
        var v := h1[ii * width + k];
        WriteEntry(rank.h1, width, ilist[ii], k, v);
      }
    }
  }
}
