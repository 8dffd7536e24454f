/** Why one check of the largest ghost count covers every packet of the exchange
    (pair_symmetrix/pair_symmetrix_mace_kokkos.cpp:1328-1339). */
module SwapBounds {
  import opened FlatIndex
  import opened HaloExchange
  import opened HaloBuffers
  import opened CommPackets

  /** How many atoms each rank holds and how many of them are its own; ghosts come behind the owned atoms. */
  datatype RankCounts = RankCounts(atoms: seq<nat>, owned: seq<nat>, stride: nat) {
    predicate Valid() {
      && stride > 0 && |owned| == |atoms|
      && forall r :: 0 <= r < |atoms| ==> owned[r] <= atoms[r] <= stride
    }

    function Ghosts(r: nat): nat
      requires Valid() && r < |atoms|
    {
      atoms[r] - owned[r]
    }

    /** The slots of owned atoms hold features of their own. */
    ghost predicate OwnedIn(slots: set<int>)
      requires Valid()
    {
      forall r, a :: 0 <= r < |atoms| && 0 <= a < owned[r] ==> Offset(r, stride, a) in slots
    }

    /** The swap receives atoms of its target only. */
    predicate Holds(w: RankSwap)
      requires Valid()
    {
      w.target < |atoms| && w.first + |w.list| <= atoms[w.target]
    }

    ghost predicate Runs(swaps: seq<RankSwap>, slots: nat, owners: set<int>)
      requires Valid()
    {
      && FlatSchedule(swaps, stride, slots, owners).Valid() && OwnedIn(owners)
      && forall t: nat :: t < |swaps| ==> Holds(swaps[t])
    }

    /** The atoms rank r receives in the first t swaps, and how many. */
    ghost function Received(swaps: seq<RankSwap>, r: nat, t: nat): set<int>
      requires t <= |swaps|
    {
      if t == 0 then {} else Received(swaps, r, t - 1) + ReceivedIn(swaps[t - 1], r)
    }

    ghost function ReceivedIn(w: RankSwap, r: nat): set<int> {
      if w.target == r then Range(w.first, w.first + |w.list|) else {}
    }

    ghost function TotalTo(swaps: seq<RankSwap>, r: nat, t: nat): nat
      requires t <= |swaps|
    {
      if t == 0 then 0 else TotalTo(swaps, r, t - 1) + (if swaps[t - 1].target == r then |swaps[t - 1].list| else 0)
    }

    /** An atom of rank r that is a ghost and holds a value by now. */
    predicate LiveGhost(sched: Schedule, r: nat, t: nat, a: int)
      requires Valid() && r < |atoms| && t <= |sched.swaps|
    {
      owned[r] <= a < atoms[r] && sched.Live(t, Offset(r, stride, a))
    }

    /** What a rank has received is live, is no atom of its own, and no atom was received twice. */
    lemma {:induction false} ReceivedOnce(swaps: seq<RankSwap>, slots: nat, owners: set<int>, r: nat, t: nat)
      requires Valid() && Runs(swaps, slots, owners) && r < |atoms| && t <= |swaps|
      ensures forall a <- Received(swaps, r, t) :: LiveGhost(FlatSchedule(swaps, stride, slots, owners), r, t, a)
      ensures |Received(swaps, r, t)| == TotalTo(swaps, r, t)
    {
      if t == 0 {
      } else {
        var last := t - 1;
        var sched, before := FlatSchedule(swaps, stride, slots, owners), Received(swaps, r, last);
        ReceivedOnce(swaps, slots, owners, r, last);
        forall a <- ReceivedIn(swaps[last], r) ensures LiveGhost(sched, r, t, a) && a !in before {
          SlotReceived(swaps, slots, owners, last, a);
          assert a in before ==> LiveGhost(sched, r, last, a);
        }
        forall a <- before ensures LiveGhost(sched, r, t, a) {
          assert LiveGhost(sched, r, last, a);
        }
        assert before !! ReceivedIn(swaps[last], r);
      }
    }

    /** A slot about to be received holds nothing yet, so it is no owned atom's. */
    lemma SlotReceived(swaps: seq<RankSwap>, slots: nat, owners: set<int>, t: nat, a: int)
      requires Valid() && Runs(swaps, slots, owners) && t < |swaps|
      requires swaps[t].first <= a < swaps[t].first + |swaps[t].list|
      ensures var sched, s := FlatSchedule(swaps, stride, slots, owners), Offset(swaps[t].target, stride, a);
              !sched.Live(t, s) && sched.swaps[t].Receives(s)
      ensures owned[swaps[t].target] <= a < atoms[swaps[t].target]
    {
      var sched, w := FlatSchedule(swaps, stride, slots, owners), swaps[t];
      var s := Offset(w.target, stride, a);
      assert sched.Orderly(t) && Holds(w);
      assert w.Flat(stride).first == Offset(w.target, stride, w.first);
      sched.OwnedStaysLive(t, s);
      assert a < owned[w.target] ==> s in owners;
    }

    /** All swaps together send a rank no more atoms than it has ghosts. */
    lemma ReceivesAtMostGhosts(swaps: seq<RankSwap>, slots: nat, owners: set<int>, r: nat)
      requires Valid() && Runs(swaps, slots, owners) && r < |atoms|
      ensures TotalTo(swaps, r, |swaps|) <= Ghosts(r)
    {
      ReceivedOnce(swaps, slots, owners, r, |swaps|);
      forall a <- Received(swaps, r, |swaps|) ensures a in Range(owned[r], atoms[r]) {
        assert LiveGhost(FlatSchedule(swaps, stride, slots, owners), r, |swaps|, a);
      }
      SubsetSize(Received(swaps, r, |swaps|), Range(owned[r], atoms[r]));
    }

    lemma {:induction false} OneOfTotal(swaps: seq<RankSwap>, r: nat, t: nat, n: nat)
      requires t < n <= |swaps| && swaps[t].target == r
      ensures |swaps[t].list| <= TotalTo(swaps, r, n)
      decreases n
    {
      if n == t + 1 {
      } else {
        OneOfTotal(swaps, r, t, n - 1);
      }
    }

    /** If a packet of the largest ghost count of any rank fits, so does the packet of every swap, on the rank that
        sends it and on the rank that receives it. */
    lemma OneCheckCoversAllSwaps(swaps: seq<RankSwap>, slots: nat, owners: set<int>, maxGhosts: nat, numLM: int,
                                 numChannels: int)
      requires Valid() && Runs(swaps, slots, owners) && Fits(maxGhosts, numLM, numChannels)
      requires forall r :: 0 <= r < |atoms| ==> Ghosts(r) <= maxGhosts
      ensures forall t :: 0 <= t < |swaps| ==>
                |swaps[t].list| <= maxGhosts && Fits(|swaps[t].list|, numLM, numChannels)
    {
      forall t | 0 <= t < |swaps|
        ensures |swaps[t].list| <= maxGhosts && Fits(|swaps[t].list|, numLM, numChannels)
      {
        var r := swaps[t].target;
        assert Holds(swaps[t]);
        ReceivesAtMostGhosts(swaps, slots, owners, r);
        OneOfTotal(swaps, r, t, |swaps|);
        ProductNonNegative(numLM, numChannels);
        ProductMonotone(|swaps[t].list|, maxGhosts, numLM * numChannels);
      }
    }
  }

  // ---------------------------------------------------------------- sizes of sets

  ghost function Range(a: int, b: int): (r: set<int>)
    ensures forall x :: x in r <==> a <= x < b
    ensures |r| == if a <= b then b - a else 0
    decreases b - a
  {
    if b <= a then {} else Range(a, b - 1) + {b - 1}
  }

  lemma SubsetSize(x: set<int>, y: set<int>)
    requires x <= y
    ensures |x| <= |y|
  {
    var rest := y - x;
    assert y == x + rest && x !! rest;
  }
}
