/** Packet arithmetic of the Kokkos pair style (pair_symmetrix/pair_symmetrix_mace_kokkos.cpp:694-860, 1328-1339):
    64-bit unsigned sizes made from 32-bit counts, flat packet offsets, and the staged and the contiguous unpacking.
    */
module CommPackets {
  import opened Results
  import opened FlatIndex

  const SIZE_RANGE: int := 0x1_0000_0000_0000_0000
  const INT_MAX: int := 0x7fff_ffff
  const INT_MIN: int := -0x8000_0000

  datatype CommError = WidthTooLarge | PacketTooLarge

  predicate IsInt(x: int) { INT_MIN <= x <= INT_MAX }

  predicate IsSize(x: int) { 0 <= x < SIZE_RANGE }

  /** Conversion of a signed count to the unsigned size type. */
  function ToSize(x: int): (r: int)
    ensures IsSize(r)
  {
    x % SIZE_RANGE
  }

  /** Multiplication of unsigned sizes, which wraps around. */
  function TimesSize(x: int, y: int): (r: int)
    ensures IsSize(r)
  {
    x * y % SIZE_RANGE
  }

  /** The widths and the packet fit a signed 32-bit count. */
  predicate Fits(atoms: int, numLM: int, numChannels: int) {
    numLM > 0 && numChannels > 0 && numLM * numChannels <= INT_MAX && atoms * (numLM * numChannels) <= INT_MAX
  }

  /** Testing x > limit / y instead of multiplying. */
  lemma DivisionTest(x: int, y: int, limit: int)
    requires x >= 0 && y > 0 && limit >= 0
    ensures x > limit / y <==> x * y > limit
  {
    var q := limit / y;
    assert limit == q * y + limit % y;
    if x > q {
      ProductMonotone(q + 1, x, y);
      assert (q + 1) * y == q * y + y;
    } else {
      ProductMonotone(x, q, y);
    }
  }

  lemma SizeOfCount(x: int)
    requires IsInt(x)
    ensures ToSize(x) == if x >= 0 then x else x + SIZE_RANGE
  {
  }

  /** The number of values in a packet. It is exact, it never wraps on the way, and it is refused exactly when it does
      not fit the signed count of the host. */
  method CheckedCommValueCount(numAtoms: int, numLM: int, numChannels: int) returns (count: Result<int, CommError>)
    requires IsSize(numAtoms) && IsInt(numLM) && IsInt(numChannels)
    ensures count.Ok? <==> Fits(numAtoms, numLM, numChannels)
    ensures count.Ok? ==> count.value == numAtoms * (numLM * numChannels) && 0 <= count.value <= INT_MAX
    ensures count == Err(WidthTooLarge) <==> numLM <= 0 || numChannels <= 0 || numLM * numChannels > INT_MAX
  {
    SizeOfCount(numLM);
    SizeOfCount(numChannels);
    var lm, channels, intMax := ToSize(numLM), ToSize(numChannels), ToSize(INT_MAX);
    if lm == 0 || channels == 0 || lm > intMax / channels {
      WidthRefused(numLM, numChannels);
      return Err(WidthTooLarge);
    }
    WidthAccepted(numLM, numChannels);
    var valuesPerAtom := TimesSize(lm, channels);
    DivisionTest(numAtoms, valuesPerAtom, intMax);
    if numAtoms > intMax / valuesPerAtom {
      return Err(PacketTooLarge);
    }
    ProductNonNegative(numAtoms, valuesPerAtom);
    count := Ok(TimesSize(numAtoms, valuesPerAtom));
  }

  predicate PassesWidthTest(numLM: int, numChannels: int) {
    var lm, channels := ToSize(numLM), ToSize(numChannels);
    lm != 0 && channels != 0 && lm <= ToSize(INT_MAX) / channels
  }

  /** A negative count turns into a huge size and fails the width test, on either side of the product. */
  lemma WidthRefused(numLM: int, numChannels: int)
    requires IsInt(numLM) && IsInt(numChannels) && !PassesWidthTest(numLM, numChannels)
    ensures numLM <= 0 || numChannels <= 0 || numLM * numChannels > INT_MAX
  {
    if numLM > 0 && numChannels > 0 {
      assert ToSize(numLM) == numLM && ToSize(numChannels) == numChannels && ToSize(INT_MAX) == INT_MAX;
      DivisionTest(numLM, numChannels, INT_MAX);
    }
  }

  lemma WidthAccepted(numLM: int, numChannels: int)
    requires IsInt(numLM) && IsInt(numChannels) && PassesWidthTest(numLM, numChannels)
    ensures numLM > 0 && numChannels > 0 && 0 < numLM * numChannels <= INT_MAX
    ensures TimesSize(ToSize(numLM), ToSize(numChannels)) == numLM * numChannels
  {
    SizeOfCount(numLM);
    SizeOfCount(numChannels);
    var lm, channels := ToSize(numLM), ToSize(numChannels);
    DivisionTest(lm, channels, INT_MAX);
    Scaled(lm, channels);
    ProductMonotone(1, lm, channels);
    ProductMonotone(1, channels, lm);
  }

  // ---------------------------------------------------------------- flat offsets

  /** Where component (lm, k) of position i goes in a packet. */
  function PacketOffset(i: int, numLM: int, lm: int, numChannels: int, k: int): int {
    Offset(Offset(i, numLM, lm), numChannels, k)
  }

  predicate InPacket(n: nat, numLM: nat, numChannels: nat, i: int, lm: int, k: int) {
    0 <= i < n && 0 <= lm < numLM && 0 <= k < numChannels
  }

  /** Offsets stay inside the packet, */
  lemma OffsetInPacket(n: nat, numLM: nat, numChannels: nat, i: int, lm: int, k: int)
    requires InPacket(n, numLM, numChannels, i, lm, k)
    ensures 0 <= PacketOffset(i, numLM, lm, numChannels, k) < n * numLM * numChannels
  {
    OffsetBound(i, n, numLM, lm);
    OffsetBound(Offset(i, numLM, lm), n * numLM, numChannels, k);
  }

  /** no two components share one, */
  lemma OffsetsDiffer(numLM: nat, numChannels: nat, i: int, lm: int, k: int, i': int, lm': int, k': int)
    requires 0 <= lm < numLM && 0 <= k < numChannels && 0 <= lm' < numLM && 0 <= k' < numChannels
    requires PacketOffset(i, numLM, lm, numChannels, k) == PacketOffset(i', numLM, lm', numChannels, k')
    ensures i == i' && lm == lm' && k == k'
  {
    OffsetInjective(numChannels, Offset(i, numLM, lm), k, Offset(i', numLM, lm'), k');
    OffsetInjective(numLM, i, lm, i', lm');
  }

  /** and every place of the packet is one. */
  lemma EveryOffsetIsUsed(n: nat, numLM: nat, numChannels: nat, t: int)
    requires 0 <= t < n * numLM * numChannels && numLM > 0 && numChannels > 0
    ensures var row := t / numChannels;
            && InPacket(n, numLM, numChannels, row / numLM, row % numLM, t % numChannels)
            && t == PacketOffset(row / numLM, numLM, row % numLM, numChannels, t % numChannels)
  {
    FlatDecoded(t, n * numLM, numChannels);
    FlatDecoded(t / numChannels, n, numLM);
  }

  /** The block of `first` starts first * numLM * numChannels further on, so a packet can be copied in one piece. */
  lemma BlockOffset(first: int, i: int, numLM: int, lm: int, numChannels: int, k: int)
    ensures PacketOffset(first + i, numLM, lm, numChannels, k)
         == first * (numLM * numChannels) + PacketOffset(i, numLM, lm, numChannels, k)
  {
    var row := i * numLM + lm;
    assert (first + i) * numLM + lm == first * numLM + row;
    assert (first * numLM + row) * numChannels == first * numLM * numChannels + row * numChannels;
    assert first * numLM * numChannels == first * (numLM * numChannels);
  }

  // ---------------------------------------------------------------- packing and unpacking

  /** Every place of the packet holds its component of the listed atoms. */
  ghost predicate Holds(packet: seq<real>, h1: array3<real>, list: seq<nat>)
    reads h1
    requires forall i :: 0 <= i < |list| ==> list[i] < h1.Length0
    requires |packet| == |list| * h1.Length1 * h1.Length2
  {
    forall i, lm, k :: InPacket(|list|, h1.Length1, h1.Length2, i, lm, k) ==> PlaceHolds(packet, h1, list, i, lm, k)
  }

  ghost predicate PlaceHolds(packet: seq<real>, h1: array3<real>, list: seq<nat>, i: int, lm: int, k: int)
    reads h1
    requires InPacket(|list|, h1.Length1, h1.Length2, i, lm, k) && list[i] < h1.Length0
    requires |packet| == |list| * h1.Length1 * h1.Length2
  {
    EntryOf(packet, |list|, h1.Length1, h1.Length2, i, lm, k) == h1[list[i], lm, k]
  }

  /** Gathers the listed atoms' features; the places may be filled in any order. */
  method PackForwardComm(h1: array3<real>, list: seq<nat>) returns (packet: seq<real>)
    requires h1.Length1 > 0 && h1.Length2 > 0 && forall i :: 0 <= i < |list| ==> list[i] < h1.Length0
    ensures |packet| == |list| * h1.Length1 * h1.Length2 && Holds(packet, h1, list)
  {
    var n, numLM, numChannels := |list|, h1.Length1, h1.Length2;
    ProductNonNegative(n, numLM);
    ProductNonNegative(n * numLM, numChannels);
    packet := [];
    for t := 0 to n * numLM * numChannels
      invariant |packet| == t
      invariant forall i, lm, k ::
                  InPacket(n, numLM, numChannels, i, lm, k) && PacketOffset(i, numLM, lm, numChannels, k) < t
                  ==> packet[PacketOffset(i, numLM, lm, numChannels, k)] == h1[list[i], lm, k]
    {
      EveryOffsetIsUsed(n, numLM, numChannels, t);
      var row := t / numChannels;
      packet := packet + [h1[list[row / numLM], row % numLM, t % numChannels]];
      forall i, lm, k | InPacket(n, numLM, numChannels, i, lm, k) && PacketOffset(i, numLM, lm, numChannels, k) == t
        ensures packet[t] == h1[list[i], lm, k]
      {
        OffsetsDiffer(numLM, numChannels, i, lm, k, row / numLM, row % numLM, t % numChannels);
      }
    }
    forall i, lm, k | InPacket(n, numLM, numChannels, i, lm, k) ensures PlaceHolds(packet, h1, list, i, lm, k) {
      OffsetInPacket(n, numLM, numChannels, i, lm, k);
    }
  }

  /** The packet's places as a function of position and component. */
  ghost function Places(packet: seq<real>, n: nat, numLM: nat, numChannels: nat): (int, int, int) -> real
    requires |packet| == n * numLM * numChannels
  {
    (i, lm, k) =>
      if InPacket(n, numLM, numChannels, i, lm, k) then EntryOf(packet, n, numLM, numChannels, i, lm, k) else 0.0
  }

  method ReadPlace(packet: seq<real>, n: nat, numLM: nat, numChannels: nat, i: nat, lm: nat, k: nat,
                   ghost places: (int, int, int) -> real)
    returns (v: real)
    requires IsPlaces(packet, n, numLM, numChannels, places) && InPacket(n, numLM, numChannels, i, lm, k)
    ensures v == places(i, lm, k)
  {
    OffsetInPacket(n, numLM, numChannels, i, lm, k);
    v := packet[PacketOffset(i, numLM, lm, numChannels, k)];
  }

  ghost predicate IsPlaces(packet: seq<real>, n: nat, numLM: nat, numChannels: nat, places: (int, int, int) -> real) {
    |packet| == n * numLM * numChannels && places == Places(packet, n, numLM, numChannels)
  }

  /** Atoms first, first + 1, ... get the packet's components; nothing else changes. */
  method UnpackForwardComm(h1: array3<real>, n: nat, first: nat, packet: seq<real>)
    requires first + n <= h1.Length0 && |packet| == n * h1.Length1 * h1.Length2
    modifies h1
    ensures forall i, lm, k :: InPacket(n, h1.Length1, h1.Length2, i, lm, k) ==>
              h1[first + i, lm, k] == EntryOf(packet, n, h1.Length1, h1.Length2, i, lm, k)
    ensures forall a, lm, k :: InPacket(h1.Length0, h1.Length1, h1.Length2, a, lm, k) && !(first <= a < first + n) ==>
              h1[a, lm, k] == old(h1[a, lm, k])
  {
    ghost var places := Places(packet, n, h1.Length1, h1.Length2);
    UnpackAtoms(h1, n, first, packet, places);
    forall i, lm, k | InPacket(n, h1.Length1, h1.Length2, i, lm, k)
      ensures h1[first + i, lm, k] == EntryOf(packet, n, h1.Length1, h1.Length2, i, lm, k)
    {
      assert places(i, lm, k) == EntryOf(packet, n, h1.Length1, h1.Length2, i, lm, k);
    }
  }

  /** The three loops. */
  method UnpackAtoms(h1: array3<real>, n: nat, first: nat, packet: seq<real>, ghost places: (int, int, int) -> real)
    requires first + n <= h1.Length0 && IsPlaces(packet, n, h1.Length1, h1.Length2, places)
    modifies h1
    ensures forall i, lm, k :: 0 <= i < n && 0 <= lm < h1.Length1 && 0 <= k < h1.Length2 ==>
              h1[first + i, lm, k] == places(i, lm, k)
    ensures forall a, lm, k :: InPacket(h1.Length0, h1.Length1, h1.Length2, a, lm, k) && !(first <= a < first + n) ==>
              h1[a, lm, k] == old(h1[a, lm, k])
  {
    for i := 0 to n
      invariant forall j, lm, k :: 0 <= j < i && 0 <= lm < h1.Length1 && 0 <= k < h1.Length2 ==>
                  h1[first + j, lm, k] == places(j, lm, k)
      invariant forall a, lm, k ::
                  InPacket(h1.Length0, h1.Length1, h1.Length2, a, lm, k) && !(first <= a < first + i) ==>
                  h1[a, lm, k] == old(h1[a, lm, k])
    {
      UnpackAtom(h1, n, first, packet, i, places);
    }
  }

  /** The components of one atom. */
  method UnpackAtom(h1: array3<real>, n: nat, first: nat, packet: seq<real>, i: nat,
                    ghost places: (int, int, int) -> real)
    requires i < n && first + n <= h1.Length0 && IsPlaces(packet, n, h1.Length1, h1.Length2, places)
    modifies h1
    ensures forall lm, k :: 0 <= lm < h1.Length1 && 0 <= k < h1.Length2 ==> h1[first + i, lm, k] == places(i, lm, k)
    ensures forall a, lm, k :: InPacket(h1.Length0, h1.Length1, h1.Length2, a, lm, k) && a != first + i ==>
              h1[a, lm, k] == old(h1[a, lm, k])
  {
    var atom := first + i;
    for lm := 0 to h1.Length1
      invariant forall l, k :: 0 <= l < lm && 0 <= k < h1.Length2 ==> h1[atom, l, k] == places(i, l, k)
      invariant forall a, l, k :: InPacket(h1.Length0, h1.Length1, h1.Length2, a, l, k) && a != atom ==>
                  h1[a, l, k] == old(h1[a, l, k])
    {
      for k := 0 to h1.Length2
        invariant forall l, c :: 0 <= c < h1.Length2 && (0 <= l < lm || (l == lm && c < k)) ==>
                    h1[atom, l, c] == places(i, l, c)
        invariant forall a, l, c :: InPacket(h1.Length0, h1.Length1, h1.Length2, a, l, c) && a != atom ==>
                    h1[a, l, c] == old(h1[a, l, c])
      {
        var v := ReadPlace(packet, n, h1.Length1, h1.Length2, i, lm, k, places);
        h1[atom, lm, k] := v;
      }
    }
  }

  /** Staged packing on one rank and unpacking on another copies the listed atoms' components, one by one. */
  method StagedExchange(source: array3<real>, list: seq<nat>, target: array3<real>, first: nat)
    requires source != target && source.Length1 == target.Length1 > 0 && source.Length2 == target.Length2 > 0
    requires (forall i :: 0 <= i < |list| ==> list[i] < source.Length0) && first + |list| <= target.Length0
    modifies target
    ensures forall i, lm, k :: InPacket(|list|, target.Length1, target.Length2, i, lm, k) ==>
              target[first + i, lm, k] == source[list[i], lm, k]
    ensures forall a, lm, k ::
              InPacket(target.Length0, target.Length1, target.Length2, a, lm, k) && !(first <= a < first + |list|) ==>
                target[a, lm, k] == old(target[a, lm, k])
  {
    var packet := PackForwardComm(source, list);
    UnpackForwardComm(target, |list|, first, packet);
    forall i, lm, k | InPacket(|list|, target.Length1, target.Length2, i, lm, k)
      ensures target[first + i, lm, k] == source[list[i], lm, k]
    {
      assert PlaceHolds(packet, source, list, i, lm, k);
    }
  }

  /** The direct path copies the packet in one piece into row-major storage. It puts every component where the indexed
      path puts it. */
  method UnpackForwardCommDirect(h1: array<real>, atoms: nat, numLM: nat, numChannels: nat, n: nat, first: nat,
                                 packet: seq<real>)
    requires h1.Length == atoms * numLM * numChannels && first + n <= atoms && |packet| == n * numLM * numChannels
    modifies h1
    ensures forall a, lm, k :: InPacket(atoms, numLM, numChannels, a, lm, k) ==>
              (EntryOf(h1[..], atoms, numLM, numChannels, a, lm, k)
            == if first <= a < first + n then EntryOf(packet, n, numLM, numChannels, a - first, lm, k)
               else EntryOf(old(h1[..]), atoms, numLM, numChannels, a, lm, k))
  {
    var base := first * (numLM * numChannels);
    BlockInside(atoms, numLM, numChannels, n, first);
    for t := 0 to |packet|
      invariant h1[base..base + t] == packet[..t]
      invariant forall u :: 0 <= u < h1.Length && !(base <= u < base + t) ==> h1[u] == old(h1[u])
    {
      h1[base + t] := packet[t];
    }
    forall a, lm, k | InPacket(atoms, numLM, numChannels, a, lm, k)
      ensures (EntryOf(h1[..], atoms, numLM, numChannels, a, lm, k)
            == if first <= a < first + n then EntryOf(packet, n, numLM, numChannels, a - first, lm, k)
               else EntryOf(old(h1[..]), atoms, numLM, numChannels, a, lm, k))
    {
      OffsetInPacket(atoms, numLM, numChannels, a, lm, k);
      InBlockIff(atoms, numLM, numChannels, n, first, a, lm, k);
    }
  }

  /** The value a packet, or row-major storage, holds for component (lm, k) of position i. */
  function EntryOf(packet: seq<real>, n: nat, numLM: nat, numChannels: nat, i: int, lm: int, k: int): (r: real)
    requires |packet| == n * numLM * numChannels && InPacket(n, numLM, numChannels, i, lm, k)
    ensures 0 <= (i * numLM + lm) * numChannels + k < |packet| && r == packet[(i * numLM + lm) * numChannels + k]
  {
    OffsetInPacket(n, numLM, numChannels, i, lm, k);
    packet[PacketOffset(i, numLM, lm, numChannels, k)]
  }

  lemma BlockInside(atoms: nat, numLM: nat, numChannels: nat, n: nat, first: nat)
    requires first + n <= atoms
    ensures 0 <= first * (numLM * numChannels)
    ensures first * (numLM * numChannels) + n * numLM * numChannels <= atoms * numLM * numChannels
  {
    var width := numLM * numChannels;
    ProductNonNegative(numLM, numChannels);
    ProductNonNegative(first, width);
    ProductMonotone(first + n, atoms, width);
    assert (first + n) * width == first * width + n * width;
    assert n * numLM * numChannels == n * width && atoms * numLM * numChannels == atoms * width;
  }

  /** A component lies in the copied block exactly when its atom does, at the packet's own offset. */
  lemma InBlockIff(atoms: nat, numLM: nat, numChannels: nat, n: nat, first: nat, a: int, lm: int, k: int)
    requires first + n <= atoms && InPacket(atoms, numLM, numChannels, a, lm, k)
    ensures var t := PacketOffset(a, numLM, lm, numChannels, k) - first * (numLM * numChannels);
            && (first <= a < first + n <==> 0 <= t < n * numLM * numChannels)
            && t == PacketOffset(a - first, numLM, lm, numChannels, k)
  {
    BlockOffset(first, a - first, numLM, lm, numChannels, k);
    if first <= a < first + n {
      OffsetInPacket(n, numLM, numChannels, a - first, lm, k);
    } else if a < first {
      BelowPacket(first - a, numLM, numChannels, lm, k);
    } else {
      AbovePacket(a - first, n, numLM, numChannels, lm, k);
    }
  }

  lemma BelowPacket(m: int, numLM: nat, numChannels: nat, lm: int, k: int)
    requires m >= 1 && 0 <= lm < numLM && 0 <= k < numChannels
    ensures PacketOffset(-m, numLM, lm, numChannels, k) < 0
  {
    Scaled(m, numLM);
    var row := -m * numLM + lm;
    assert row <= -1;
    ProductMonotone(row, -1, numChannels);
  }

  lemma AbovePacket(i: int, n: nat, numLM: nat, numChannels: nat, lm: int, k: int)
    requires i >= n && 0 <= lm < numLM && 0 <= k < numChannels
    ensures PacketOffset(i, numLM, lm, numChannels, k) >= n * numLM * numChannels
  {
    ProductMonotone(n, i, numLM);
    ProductMonotone(n * numLM, i * numLM + lm, numChannels);
  }
}
