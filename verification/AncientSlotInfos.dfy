/**
 Choosing which ancient storages to combine: sort them, and keep a prefix so that combining it brings
 the number of storages down far enough without combining more than needed.
 */
module AncientSlots {
  import opened Common
  import opened NextFit
  import opened AncientPacking
  import opened Sorting

  datatype SlotInfo = SlotInfo(slot: Slot, capacity: nat, aliveBytes: nat, shouldShrink: bool)

  function SaturatingAdd(a: nat, b: nat): nat {
    Min(a + b, U64_MAX)
  }

  /** The saturating sum of the alive bytes. */
  function AliveBytes(infos: seq<SlotInfo>): nat {
    if infos == [] then 0 else SaturatingAdd(AliveBytes(infos[..|infos| - 1]), infos[|infos| - 1].aliveBytes)
  }

  function BytesOf(infos: seq<SlotInfo>): (bytes: seq<nat>)
    ensures |bytes| == |infos| && forall i {:trigger bytes[i]} :: 0 <= i < |infos| ==> bytes[i] == infos[i].aliveBytes
  {
    seq(|infos|, i requires 0 <= i < |infos| => infos[i].aliveBytes)
  }

  /** Saturating at every addition is saturating once. */
  lemma {:induction false} AliveBytesIsSum(infos: seq<SlotInfo>)
    ensures AliveBytes(infos) == if Sum(BytesOf(infos)) <= U64_MAX then Sum(BytesOf(infos)) else U64_MAX
  {
    if infos != [] {
      var n := |infos| - 1;
      AliveBytesIsSum(infos[..n]);
      assert BytesOf(infos) == BytesOf(infos[..n]) + [infos[n].aliveBytes];
      SumAppend(BytesOf(infos[..n]), [infos[n].aliveBytes]);
    }
  }

  /** Storages the combined entries are taken to need. */
  function RequiredFor(infos: seq<SlotInfo>, ideal: nat): (r: nat)
    requires ideal > 0
    ensures r > 0 && (r - 1) * ideal <= AliveBytes(infos) < r * ideal
  {
    AliveBytes(infos) / ideal + 1
  }

  /** Storages there are after combining the first `n` entries, as far as alive bytes tell. */
  function Resulting(infos: seq<SlotInfo>, n: nat, ideal: nat): nat
    requires n <= |infos| && ideal > 0
  {
    |infos| - n + RequiredFor(infos[..n], ideal)
  }

  lemma {:induction false} RequiredGrows(infos: seq<SlotInfo>, n: nat, ideal: nat)
    requires n < |infos| && ideal > 0
    ensures RequiredFor(infos[..n], ideal) <= RequiredFor(infos[..n + 1], ideal)
    ensures infos[..n + 1][..n] == infos[..n]
    ensures AliveBytes(infos[..n + 1]) == SaturatingAdd(AliveBytes(infos[..n]), infos[n].aliveBytes)
  {
    assert infos[..n + 1][..n] == infos[..n];
    Bounded(infos[..n]);
    MulCancel(RequiredFor(infos[..n], ideal) - 1, RequiredFor(infos[..n + 1], ideal), ideal);
  }

  lemma {:induction false} Bounded(infos: seq<SlotInfo>)
    ensures AliveBytes(infos) <= U64_MAX
  {
    if infos != [] { Bounded(infos[..|infos| - 1]); }
  }

  function LowThreshold(max: nat): (low: nat)
    ensures 2 * low <= max <= 2 * low + 1
  {
    max * 50 / 100
  }

  /** The entries kept of `infos`: all of them, or the first `n`, where combining one more goes below the threshold. */
  ghost predicate Truncated(infos: seq<SlotInfo>, n: nat, max: nat, ideal: nat)
    requires ideal > 0
  {
    && n <= |infos|
    && (forall k :: 0 < k <= n ==> Resulting(infos, k, ideal) >= LowThreshold(max))
    && (n < |infos| ==> Resulting(infos, n + 1, ideal) < LowThreshold(max))
  }

  class AncientSlotInfos {
    var allInfos: seq<SlotInfo>
    var shrinkIndexes: seq<nat>

    method TruncateToMaxStorages(max: nat, ideal: nat) returns (n: nat)
      requires ideal > 0
      modifies this
      ensures Truncated(old(allInfos), n, max, ideal)
      ensures allInfos == old(allInfos)[..n] && shrinkIndexes == []
    {
      shrinkIndexes := [];
      var cumulative := 0;
      n := 0;
      while n < |allInfos|
        invariant allInfos == old(allInfos) && shrinkIndexes == []
        invariant n <= |allInfos| && cumulative == AliveBytes(allInfos[..n])
        invariant forall k :: 0 < k <= n ==> Resulting(allInfos, k, ideal) >= LowThreshold(max)
      {
        RequiredGrows(allInfos, n, ideal);
        cumulative := SaturatingAdd(cumulative, allInfos[n].aliveBytes);
        var required := cumulative / ideal + 1;
        var remaining := |allInfos| - n - 1;
        if remaining + required < LowThreshold(max) {
          allInfos := allInfos[..n];
          return;
        }
        n := n + 1;
      }
      assert allInfos[..n] == allInfos;
    }

    /** Nothing to combine up to `max` storages; else the kept prefix of some order by shrink flag and capacity. */
    method FilterBySmallestCapacity(max: nat, ideal: nat) returns (ghost sorted: seq<SlotInfo>)
      requires ideal > 0 && forall i :: 0 <= i < |allInfos| ==> allInfos[i].capacity <= U64_MAX
      modifies this
      ensures shrinkIndexes == []
      ensures |old(allInfos)| <= max ==> allInfos == []
      ensures |old(allInfos)| > max ==>
                && multiset(sorted) == multiset(old(allInfos))
                && (forall i, j :: 0 <= i < j < |sorted| ==>
                      || (sorted[i].shouldShrink && !sorted[j].shouldShrink)
                      || (sorted[i].shouldShrink == sorted[j].shouldShrink && sorted[i].capacity <= sorted[j].capacity))
                && |allInfos| > 0 && Truncated(sorted, |allInfos|, max, ideal) && allInfos == sorted[..|allInfos|]
    {
      sorted := [];
      if |allInfos| <= max {
        shrinkIndexes, allInfos := [], [];
        return;
      }
      SortedInfos(allInfos);
      allInfos := StableSort(allInfos, Rank);
      sorted := allInfos;
      var n := TruncateToMaxStorages(max, ideal);
      KeepsSome(sorted, n, max, ideal);
    }
  }

  /** Storages to shrink come first, then smaller capacities. */
  predicate Before(l: SlotInfo, r: SlotInfo) {
    (l.shouldShrink && !r.shouldShrink) || (l.shouldShrink == r.shouldShrink && l.capacity <= r.capacity)
  }

  function Rank(info: SlotInfo): nat {
    (if info.shouldShrink then 0 else U64_MAX + 1) + info.capacity
  }

  lemma {:induction false} SortedInfos(infos: seq<SlotInfo>)
    requires forall i :: 0 <= i < |infos| ==> infos[i].capacity <= U64_MAX
    ensures var s := StableSort(infos, Rank);
            multiset(s) == multiset(infos) && forall i, j :: 0 <= i < j < |s| ==> Before(s[i], s[j])
  {
    StableSortSorts(infos, Rank);
    var s := StableSort(infos, Rank);
    forall i, j | 0 <= i < j < |s| ensures Before(s[i], s[j]) {
      assert s[i] in multiset(infos) && s[j] in multiset(infos);
    }
  }

  lemma {:induction false} KeepsSome(infos: seq<SlotInfo>, n: nat, max: nat, ideal: nat)
    requires ideal > 0 && |infos| > max && Truncated(infos, n, max, ideal)
    ensures n > 0
  {
    assert Resulting(infos, 1, ideal) >= |infos|;
  }

  /**
   A truncation that drops entries stops exactly at the threshold: the storages left alone and those
   needed for the kept entries number half of `max`.
   */
  lemma {:induction false} TruncationIsExact(infos: seq<SlotInfo>, n: nat, max: nat, ideal: nat)
    requires ideal > 0 && |infos| > max && Truncated(infos, n, max, ideal) && n < |infos|
    ensures Resulting(infos, n, ideal) == LowThreshold(max)
  {
    KeepsSome(infos, n, max, ideal);
    RequiredGrows(infos, n, ideal);
    assert Resulting(infos, n, ideal) >= LowThreshold(max);
  }

  /** Combining some of the entries, at least one and in order, goes below the threshold. */
  ghost predicate GoesBelow(infos: seq<SlotInfo>, max: nat, ideal: nat)
    requires ideal > 0
  {
    exists k :: 0 < k <= |infos| && Resulting(infos, k, ideal) < LowThreshold(max)
  }

  /** Entries are dropped exactly if combining some of them goes below the threshold. */
  lemma {:induction false} DropsIfGoesBelow(infos: seq<SlotInfo>, n: nat, max: nat, ideal: nat)
    requires ideal > 0 && Truncated(infos, n, max, ideal)
    ensures n < |infos| <==> GoesBelow(infos, max, ideal)
  {
    if n < |infos| { assert Resulting(infos, n + 1, ideal) < LowThreshold(max); }
  }

  /**
   The number of storages is promised to come within `max`. By the estimate it does exactly if all
   entries together need no more than `max`, or combining some of them goes below the threshold.
   */
  lemma {:induction false} EstimateWithinMax(infos: seq<SlotInfo>, n: nat, max: nat, ideal: nat)
    requires ideal > 0 && |infos| > max && Truncated(infos, n, max, ideal)
    ensures Resulting(infos, n, ideal) <= max <==> RequiredFor(infos, ideal) <= max || GoesBelow(infos, max, ideal)
  {
    DropsIfGoesBelow(infos, n, max, ideal);
    if n < |infos| {
      TruncationIsExact(infos, n, max, ideal);
    } else {
      assert infos[..n] == infos;
    }
  }

  /** Two full storages and a maximum of one: nothing is dropped, and three storages are estimated. */
  lemma {:induction false} EstimateOverMax()
    ensures var infos := [SlotInfo(1, 100, 100, true), SlotInfo(2, 100, 100, true)];
            Truncated(infos, 2, 1, 100) && Resulting(infos, 2, 100) == 3
  {
    var infos := [SlotInfo(1, 100, 100, true), SlotInfo(2, 100, 100, true)];
    assert infos[..2] == infos && infos[..1] == [infos[0]] && [infos[0]][..0] == [];
    assert AliveBytes(infos[..1]) == 100 && AliveBytes(infos) == 200;
  }

  /**
   Half of `max` leaves room for next-fit: once the kept entries are packed, all storages together
   are at most `max`, although packing may need more than the estimate.
   */
  lemma {:induction false} PackedWithinMax(infos: seq<SlotInfo>, n: nat, max: nat, ideal: nat,
                                           groups: seq<AliveAccounts>)
    requires ideal > 0 && |infos| > max && Truncated(infos, n, max, ideal) && n < |infos|
    requires Sum(SizesOf(ItemsOf(groups))) == AliveBytes(infos[..n])
    ensures |infos| - n + |Cut(SizesOf(ItemsOf(groups)), ideal)| <= max
  {
    TruncationIsExact(infos, n, max, ideal);
    var sizes := SizesOf(ItemsOf(groups));
    if sizes != [] {
      CutBound(sizes, ideal);
      PackBound(|Cut(sizes, ideal)|, Sum(sizes), RequiredFor(infos[..n], ideal), ideal);
    }
  }

  lemma {:induction false} PackBound(packs: nat, bytes: nat, required: nat, ideal: nat)
    requires (packs - 1) * ideal < 2 * bytes && bytes < required * ideal
    ensures packs <= 2 * required
  {
    assert 2 * (required * ideal) == (2 * required) * ideal;
    MulCancel(packs - 1, 2 * required, ideal);
  }
}
