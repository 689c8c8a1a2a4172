/**
 Where packed accounts are written. An account with other references may only move to a slot at or
 above its own, since an older version of it may be alive in between. Accounts with many references
 are packed first and packs are written from the highest target slot down, and one check on the
 total bytes stands in for this requirement. The check is enough exactly if next-fit needs no more
 storages for these accounts than the check allots.
 */
module ManyRefs {
  import opened Common
  import opened NextFit
  import opened AncientPacking

  function TotalBytes(groups: seq<AliveAccounts>): nat {
    if groups == [] then 0 else groups[0].bytes + TotalBytes(groups[1..])
  }

  /** The number of storages the check allots to the accounts with many references. */
  function Required(many: seq<AliveAccounts>, ideal: nat): (r: nat)
    requires ideal > 0
    ensures r > 0 && (r - 1) * ideal <= TotalBytes(many) < r * ideal
  {
    TotalBytes(many) / ideal + 1
  }

  predicate CanBeMoved(many: seq<AliveAccounts>, targets: seq<Slot>, ideal: nat)
    requires ideal > 0
  {
    TotalBytes(many) == 0 ||
    (|targets| >= Required(many, ideal) &&
     forall g :: 0 <= g < |many| ==> many[g].slot <= targets[|targets| - Required(many, ideal)])
  }

  ghost predicate Ascending(targets: seq<Slot>) {
    forall i, j :: 0 <= i < j < |targets| ==> targets[i] < targets[j]
  }

  /** The check accepts exactly if there are no bytes, or every slot is at or below each target allotted. */
  lemma {:induction false} AcceptsExactly(many: seq<AliveAccounts>, targets: seq<Slot>, ideal: nat)
    requires ideal > 0 && Ascending(targets)
    ensures var r := Required(many, ideal);
            CanBeMoved(many, targets, ideal) <==>
            || TotalBytes(many) == 0
            || (|targets| >= r &&
                forall g, j :: 0 <= g < |many| && |targets| - r <= j < |targets| ==> many[g].slot <= targets[j])
  {
    var r := Required(many, ideal);
    if |targets| >= r {
      var lowest := |targets| - r;
      forall j | lowest <= j < |targets| ensures targets[lowest] <= targets[j] { }
      assert lowest < |targets|;
    }
  }

  lemma {:induction false} BytesAreSizes(groups: seq<AliveAccounts>)
    requires TotalsOk(groups)
    ensures TotalBytes(groups) == Sum(SizesOf(ItemsOf(groups)))
  {
    if groups != [] {
      assert TotalOk(groups, 0);
      forall g | 0 <= g < |groups[1..]| ensures TotalOk(groups[1..], g) { assert TotalOk(groups, g + 1); }
      BytesAreSizes(groups[1..]);
      SizesAppend(Tag(groups[0].slot, groups[0].accounts), ItemsOf(groups[1..]));
    }
  }

  lemma {:induction false} ItemsAppend(a: seq<AliveAccounts>, b: seq<AliveAccounts>)
    ensures ItemsOf(a + b) == ItemsOf(a) + ItemsOf(b)
  {
    if a == [] {
      assert a + b == b;
    } else {
      assert (a + b)[1..] == a[1..] + b;
      ItemsAppend(a[1..], b);
      Regroup(Tag(a[0].slot, a[0].accounts), ItemsOf(a[1..]), ItemsOf(b));
    }
  }

  // ---------- which pack an account is in ----------

  /** How many storages next-fit opens for these accounts alone. */
  function StoragesFor(many: seq<AliveAccounts>, ideal: nat): nat {
    |Cut(SizesOf(ItemsOf(many)), ideal)|
  }

  lemma {:induction false} StartMonotone<T>(packs: seq<seq<T>>, i: nat, j: nat)
    requires i <= j <= |packs|
    ensures Start(packs, i) <= Start(packs, j)
    decreases j - i
  {
    if i < j {
      StartNext(packs, i);
      StartMonotone(packs, i + 1, j);
    }
  }

  lemma {:induction false} StartNext<T>(packs: seq<seq<T>>, i: nat)
    requires i < |packs|
    ensures Start(packs, i + 1) == Start(packs, i) + |packs[i]|
  {
    FlattenPush(packs[..i], packs[i]);
    assert packs[..i + 1] == packs[..i] + [packs[i]];
  }

  /** Pack `j` holds item `i` of the flat list. */
  ghost predicate Holds(cut: seq<seq<nat>>, j: int, i: int) {
    0 <= j < |cut| && Start(cut, j) <= i < Start(cut, j + 1)
  }

  ghost function CutOf(many: seq<AliveAccounts>, ones: seq<AliveAccounts>, ideal: nat): seq<seq<nat>> {
    Cut(SizesOf(ItemsOf(many + ones)), ideal)
  }

  /** No account with many references is written below its own slot. */
  ghost predicate Safe(many: seq<AliveAccounts>, ones: seq<AliveAccounts>, targets: seq<Slot>, ideal: nat)
    requires |CutOf(many, ones, ideal)| <= |targets|
  {
    forall i, j {:trigger Holds(CutOf(many, ones, ideal), j, i)} ::
      Holds(CutOf(many, ones, ideal), j, i) && 0 <= i < |ItemsOf(many)|
      ==> ItemsOf(many)[i].slot <= targets[|targets| - 1 - j]
  }

  /** Accounts packed first stay within the storages they would need alone, and reach the last of them. */
  lemma {:induction false} FirstPacks(many: seq<AliveAccounts>, ones: seq<AliveAccounts>, ideal: nat)
    ensures var cut, n, m := CutOf(many, ones, ideal), |ItemsOf(many)|, StoragesFor(many, ideal);
            && m <= |cut| && n <= Start(cut, m) && (n > 0 ==> m > 0 && Start(cut, m - 1) < n)
  {
    ItemsAppend(many, ones);
    SizesAppend(ItemsOf(many), ItemsOf(ones));
    CutPrefix(SizesOf(ItemsOf(many)), SizesOf(ItemsOf(ones)), ideal);
  }

  lemma {:induction false} SlotOfItem(groups: seq<AliveAccounts>, i: nat)
    requires i < |ItemsOf(groups)|
    ensures exists g :: 0 <= g < |groups| && groups[g].slot == ItemsOf(groups)[i].slot
  {
    var n := |groups[0].accounts|;
    if i < n {
      assert groups[0].slot == ItemsOf(groups)[i].slot;
    } else {
      SlotOfItem(groups[1..], i - n);
      var g :| 0 <= g < |groups[1..]| && groups[1..][g].slot == ItemsOf(groups[1..])[i - n].slot;
      assert groups[g + 1].slot == ItemsOf(groups)[i].slot;
    }
  }

  /** The check is sound as long as next-fit does not open more storages than it allots. */
  lemma {:induction false} AcceptedIsSafe(many: seq<AliveAccounts>, ones: seq<AliveAccounts>, targets: seq<Slot>,
                                          ideal: nat)
    requires ideal > 0 && TotalsOk(many) && Ascending(targets) && |CutOf(many, ones, ideal)| <= |targets|
    requires CanBeMoved(many, targets, ideal) && StoragesFor(many, ideal) <= Required(many, ideal)
    ensures Safe(many, ones, targets, ideal)
  {
    var cut := CutOf(many, ones, ideal);
    forall i, j | Holds(cut, j, i) && 0 <= i < |ItemsOf(many)|
      ensures ItemsOf(many)[i].slot <= targets[|targets| - 1 - j]
    {
      FirstPacks(many, ones, ideal);
      if j >= StoragesFor(many, ideal) { StartMonotone(cut, StoragesFor(many, ideal), j); }
      HasBytes(many, i);
      SlotOfItem(many, i);
    }
  }

  lemma {:induction false} HasBytes(many: seq<AliveAccounts>, i: nat)
    requires TotalsOk(many) && i < |ItemsOf(many)|
    ensures TotalBytes(many) > 0
  {
    BytesAreSizes(many);
    var sizes := SizesOf(ItemsOf(many));
    assert sizes != [] && Sum(sizes) == sizes[0] + Sum(sizes[1..]);
  }

  // ---------- the check is exact ----------

  /** The same accounts in other slots. */
  function Relabel(many: seq<AliveAccounts>, slots: seq<Slot>): (r: seq<AliveAccounts>)
    requires |slots| == |many|
    ensures |r| == |many|
    ensures forall g {:trigger r[g]} :: 0 <= g < |r| ==>
            r[g] == AliveAccounts(slots[g], many[g].accounts, many[g].bytes)
  {
    seq(|many|, g requires 0 <= g < |many| => AliveAccounts(slots[g], many[g].accounts, many[g].bytes))
  }

  lemma {:induction false} SizesIgnoreSlot(s: Slot, t: Slot, accounts: seq<StoredAccount>)
    ensures SizesOf(Tag(s, accounts)) == SizesOf(Tag(t, accounts))
  {
  }

  lemma {:induction false} RelabelSizes(many: seq<AliveAccounts>, slots: seq<Slot>)
    requires |slots| == |many|
    ensures SizesOf(ItemsOf(Relabel(many, slots))) == SizesOf(ItemsOf(many))
    ensures TotalBytes(Relabel(many, slots)) == TotalBytes(many)
  {
    if many != [] {
      var r := Relabel(many, slots);
      assert r[1..] == Relabel(many[1..], slots[1..])
             && r[0] == AliveAccounts(slots[0], many[0].accounts, many[0].bytes);
      RelabelSizes(many[1..], slots[1..]);
      SizesIgnoreSlot(slots[0], many[0].slot, many[0].accounts);
      SizesAppend(Tag(slots[0], many[0].accounts), ItemsOf(r[1..]));
      SizesAppend(Tag(many[0].slot, many[0].accounts), ItemsOf(many[1..]));
    }
  }

  lemma {:induction false} RelabelCut(many: seq<AliveAccounts>, slots: seq<Slot>, ones: seq<AliveAccounts>, ideal: nat)
    requires |slots| == |many|
    ensures CutOf(Relabel(many, slots), ones, ideal) == CutOf(many, ones, ideal)
    ensures |ItemsOf(Relabel(many, slots))| == |ItemsOf(many)|
    ensures StoragesFor(Relabel(many, slots), ideal) == StoragesFor(many, ideal)
    ensures ideal > 0 ==> Required(Relabel(many, slots), ideal) == Required(many, ideal)
  {
    var r := Relabel(many, slots);
    RelabelSizes(many, slots);
    ItemsAppend(many, ones);
    ItemsAppend(r, ones);
    SizesAppend(ItemsOf(many), ItemsOf(ones));
    SizesAppend(ItemsOf(r), ItemsOf(ones));
    assert |SizesOf(ItemsOf(r))| == |SizesOf(ItemsOf(many))|;
  }

  lemma {:induction false} RelabelTotals(many: seq<AliveAccounts>, slots: seq<Slot>)
    requires |slots| == |many| && TotalsOk(many)
    ensures TotalsOk(Relabel(many, slots))
  {
    var r := Relabel(many, slots);
    forall g | 0 <= g < |r| ensures TotalOk(r, g) {
      assert TotalOk(many, g) && r[g] == AliveAccounts(slots[g], many[g].accounts, many[g].bytes);
      SizesIgnoreSlot(slots[g], many[g].slot, many[g].accounts);
    }
  }

  /** The accounts lie in `slots`, highest first, there are enough target slots, and the check accepts. */
  ghost predicate Accepted(many: seq<AliveAccounts>, ones: seq<AliveAccounts>, ideal: nat, slots: seq<Slot>,
                           targets: seq<Slot>)
    requires ideal > 0
  {
    && |slots| == |many| && (forall g, h :: 0 <= g < h < |slots| ==> slots[g] > slots[h])
    && Ascending(targets) && |CutOf(Relabel(many, slots), ones, ideal)| <= |targets|
    && CanBeMoved(Relabel(many, slots), targets, ideal)
  }

  /** Wherever these accounts lie, acceptance means that they are written at or above their slots. */
  ghost predicate CheckSuffices(many: seq<AliveAccounts>, ones: seq<AliveAccounts>, ideal: nat)
    requires ideal > 0
  {
    forall slots, targets {:trigger Accepted(many, ones, ideal, slots, targets)} ::
      Accepted(many, ones, ideal, slots, targets) ==> Safe(Relabel(many, slots), ones, targets, ideal)
  }

  /**
   For accounts of given sizes, the check is right for all slots they may lie in exactly if next-fit
   needs no more storages for them than the check allots.
   */
  lemma {:induction false} CheckIsExact(many: seq<AliveAccounts>, ones: seq<AliveAccounts>, ideal: nat)
    requires ideal > 0 && TotalsOk(many)
    ensures CheckSuffices(many, ones, ideal) <==> StoragesFor(many, ideal) <= Required(many, ideal)
  {
    if StoragesFor(many, ideal) <= Required(many, ideal) {
      forall slots, targets | Accepted(many, ones, ideal, slots, targets)
        ensures Safe(Relabel(many, slots), ones, targets, ideal)
      {
        RelabelCut(many, slots, ones, ideal);
        RelabelTotals(many, slots);
        AcceptedIsSafe(Relabel(many, slots), ones, targets, ideal);
      }
    } else {
      var slots, targets := BadSlots(many, ones, ideal);
    }
  }

  /** All slots between the target slots the check looks at and those below them. */
  lemma {:induction false} BadSlots(many: seq<AliveAccounts>, ones: seq<AliveAccounts>, ideal: nat)
    returns (slots: seq<Slot>, targets: seq<Slot>)
    requires ideal > 0 && TotalsOk(many) && StoragesFor(many, ideal) > Required(many, ideal)
    ensures Accepted(many, ones, ideal, slots, targets) && !Safe(Relabel(many, slots), ones, targets, ideal)
  {
    var cut, m, r, g := CutOf(many, ones, ideal), StoragesFor(many, ideal), Required(many, ideal), |many|;
    FirstPacks(many, ones, ideal);
    var n := |cut|;
    slots := seq(g, k requires 0 <= k < g => n + g - 1 - k);
    targets := seq(n, k requires 0 <= k < n => if k < n - r then k else n + g + k);
    AcceptedBad(many, ones, ideal, slots, targets);
    UnsafeBad(many, ones, ideal, slots, targets);
  }

  lemma {:induction false} AcceptedBad(many: seq<AliveAccounts>, ones: seq<AliveAccounts>, ideal: nat, slots: seq<Slot>,
                                       targets: seq<Slot>)
    requires ideal > 0 && |slots| == |many| && |targets| == |CutOf(many, ones, ideal)| >= Required(many, ideal)
    requires forall k :: 0 <= k < |slots| ==> slots[k] == |targets| + |many| - 1 - k
    requires forall k :: 0 <= k < |targets| ==>
               targets[k] == if k < |targets| - Required(many, ideal) then k else |targets| + |many| + k
    ensures Accepted(many, ones, ideal, slots, targets)
  {
    RelabelCut(many, slots, ones, ideal);
    var r := Relabel(many, slots);
    forall g | 0 <= g < |r| ensures r[g].slot <= targets[|targets| - Required(r, ideal)] {
      assert r[g].slot == slots[g];
    }
  }

  lemma {:induction false} UnsafeBad(many: seq<AliveAccounts>, ones: seq<AliveAccounts>, ideal: nat, slots: seq<Slot>,
                                     targets: seq<Slot>)
    requires ideal > 0 && Accepted(many, ones, ideal, slots, targets)
    requires StoragesFor(many, ideal) > Required(many, ideal) && |targets| == |CutOf(many, ones, ideal)|
    requires forall k :: 0 <= k < |slots| ==> slots[k] >= |targets|
    requires forall k :: 0 <= k < |targets| - Required(many, ideal) ==> targets[k] == k
    ensures !Safe(Relabel(many, slots), ones, targets, ideal)
  {
    var cut, m, r := CutOf(many, ones, ideal), StoragesFor(many, ideal), Relabel(many, slots);
    FirstPacks(many, ones, ideal);
    RelabelCut(many, slots, ones, ideal);
    StartNext(cut, m - 1);
    var i := Start(cut, m - 1);
    assert Holds(CutOf(r, ones, ideal), m - 1, i);
    SlotOfItem(r, i);
    assert ItemsOf(r)[i].slot >= |targets| > targets[|targets| - 1 - (m - 1)];
  }

  /** Accounts that fit one storage are always safe. */
  lemma {:induction false} OneStorageIsEnough(many: seq<AliveAccounts>, ones: seq<AliveAccounts>, ideal: nat)
    requires ideal > 0 && TotalsOk(many) && TotalBytes(many) <= ideal
    ensures CheckSuffices(many, ones, ideal)
  {
    BytesAreSizes(many);
    OneCut(SizesOf(ItemsOf(many)), ideal);
    assert StoragesFor(many, ideal) <= 1 <= Required(many, ideal);
    CheckIsExact(many, ones, ideal);
  }

  /** Three accounts of 136 bytes, ideal size 271: 408 bytes allot two storages, next-fit opens three. */
  lemma {:induction false} FragmentationIsUnsafe(ones: seq<AliveAccounts>)
    ensures var many := [AliveAccounts(10, [StoredAccount(1, 0), StoredAccount(2, 0), StoredAccount(3, 0)], 408)];
            TotalsOk(many) && Required(many, 271) == 2 && StoragesFor(many, 271) == 3 && !CheckSuffices(many, ones, 271)
  {
    var accounts := [StoredAccount(1, 0), StoredAccount(2, 0), StoredAccount(3, 0)];
    var many := [AliveAccounts(10, accounts, 408)];
    assert many[1..] == [] && ItemsOf(many) == Tag(10, accounts);
    assert SizesOf(Tag(10, accounts)) == [136, 136, 136];
    ThreeCut();
    assert TotalOk(many, 0);
    CheckIsExact(many, ones, 271);
  }

  lemma {:induction false} ThreeCut()
    ensures Cut([136, 136, 136], 271) == [[136], [136], [136]] && Sum([136, 136, 136]) == 408
  {
    var s: seq<nat> := [136, 136, 136];
    assert s[1..] == [136, 136] && s[1..][1..] == [136] && s[2..] == [136];
    assert Fill(s, 0, 271) == 1 && s[..1] == [136];
    assert Fill(s[1..], 0, 271) == 1 && s[1..][..1] == [136];
    assert Fill(s[2..], 0, 271) == 1 && s[2..][..1] == [136] && s[2..][1..] == [];
    assert Cut(s[2..], 271) == [[136]] && Cut(s[1..], 271) == [[136], [136]];
  }

  // ---------- writing the packs ----------

  datatype Write = Write(target: Slot, pack: PackedAncientStorage)

  lemma {:induction false} AllContentsSize(packs: seq<PackedAncientStorage>)
    ensures |AllContents(packs)| == Start(PackSizes(packs), |packs|)
  {
    var sizes := PackSizes(packs);
    if packs != [] {
      var k := |packs| - 1;
      AllContentsSize(packs[..k]);
      assert PackSizes(packs[..k]) == sizes[..k] && sizes[..k][..k] == sizes[..k];
      StartNext(sizes, k);
    } else {
      assert sizes == [];
    }
  }

  /** Item `k` of pack `j` in the flat list. */
  lemma {:induction false} InPack(packs: seq<PackedAncientStorage>, j: nat, k: nat)
    requires j < |packs| && k < |Contents(packs[j].parts)|
    ensures Holds(PackSizes(packs), j, Start(PackSizes(packs), j) + k)
    ensures var i := Start(PackSizes(packs), j) + k;
            i < |AllContents(packs)| && AllContents(packs)[i] == Contents(packs[j].parts)[k]
  {
    var sizes, last := PackSizes(packs), |packs| - 1;
    StartNext(sizes, j);
    AllContentsSize(packs[..last]);
    assert PackSizes(packs[..last]) == sizes[..last] && sizes[..last][..last] == sizes[..last];
    if j < last {
      InPack(packs[..last], j, k);
      assert sizes[..last][..j] == sizes[..j];
    }
  }

  /** All accounts written, in order. */
  ghost function WrittenItems(writes: seq<Write>): seq<Placed> {
    if writes == [] then []
    else WrittenItems(writes[..|writes| - 1]) + Contents(writes[|writes| - 1].pack.parts)
  }

  lemma {:induction false} PacksAreWritten(writes: seq<Write>, packs: seq<PackedAncientStorage>)
    requires |writes| == |packs| && forall j :: 0 <= j < |packs| ==> writes[j].pack == packs[j]
    ensures WrittenItems(writes) == AllContents(packs)
  {
    if packs != [] { PacksAreWritten(writes[..|writes| - 1], packs[..|packs| - 1]); }
  }

  /** Packs are written from the highest target slot down. */
  method AssignTargets(packs: seq<PackedAncientStorage>, targets: seq<Slot>) returns (writes: seq<Write>)
    requires |packs| <= |targets|
    ensures |writes| == |packs|
    ensures forall j :: 0 <= j < |writes| ==>
              writes[j].pack == packs[j] && writes[j].target == targets[|targets| - 1 - j]
  {
    writes := [];
    for j := 0 to |packs|
      invariant |writes| == j
      invariant forall i :: 0 <= i < j ==> writes[i].pack == packs[i] && writes[i].target == targets[|targets| - 1 - i]
    {
      writes := writes + [Write(targets[|targets| - 1 - j], packs[j])];
    }
  }

  ghost predicate InWrites(writes: seq<Write>, j: int, k: int) {
    0 <= j < |writes| && 0 <= k < |Contents(writes[j].pack.parts)|
  }

  /** Of all accounts written, the first `n` go to a slot not below their own. */
  ghost predicate NoneMovedDown(n: nat, writes: seq<Write>) {
    forall j, k {:trigger InWrites(writes, j, k)} :: InWrites(writes, j, k) && |WrittenItems(writes[..j])| + k < n ==>
      Contents(writes[j].pack.parts)[k].slot <= writes[j].target
  }

  /**
   Checks, packs, and hands out target slots from the highest down. Nothing is written exactly if the
   check fails or there are too few target slots; otherwise every account is written once, in order.
   */
  method CombineAncient(many: seq<AliveAccounts>, ones: seq<AliveAccounts>, targets: seq<Slot>, ideal: nat)
    returns (writes: Option<seq<Write>>, packs: seq<PackedAncientStorage>)
    requires ideal > 0 && Ascending(targets)
    ensures writes.None? <==> !CanBeMoved(many, targets, ideal) || |packs| > |targets|
    ensures CanBeMoved(many, targets, ideal) && TotalsOk(many + ones) ==> PackSizes(packs) == CutOf(many, ones, ideal)
    ensures writes.Some? ==> WrittenItems(writes.value) == ItemsOf(many) + ItemsOf(ones)
    ensures writes.Some? ==>
              && |writes.value| == |packs| <= |targets|
              && (forall j :: 0 <= j < |packs| ==>
                    writes.value[j].pack == packs[j] && writes.value[j].target == targets[|targets| - 1 - j])
              && forall i, j :: 0 <= i < j < |packs| ==> writes.value[i].target > writes.value[j].target
    ensures writes.Some? && TotalsOk(many + ones) && StoragesFor(many, ideal) <= Required(many, ideal) ==>
              NoneMovedDown(|ItemsOf(many)|, writes.value)
  {
    packs := [];
    if !CanBeMoved(many, targets, ideal) {
      return None, packs;
    }
    packs := Pack(many + ones, ideal);
    ItemsAppend(many, ones);
    if |packs| > |targets| {
      return None, packs;
    }
    var zipped := AssignTargets(packs, targets);
    PacksAreWritten(zipped, packs);
    writes := Some(zipped);
    if TotalsOk(many + ones) && StoragesFor(many, ideal) <= Required(many, ideal) {
      AcceptedWrites(many, ones, targets, ideal, packs, zipped);
    }
  }

  ghost predicate Assigned(packs: seq<PackedAncientStorage>, targets: seq<Slot>, writes: seq<Write>) {
    && |writes| == |packs| <= |targets|
    && forall j :: 0 <= j < |packs| ==> writes[j].pack == packs[j] && writes[j].target == targets[|targets| - 1 - j]
  }

  lemma {:induction false} AcceptedWrites(many: seq<AliveAccounts>, ones: seq<AliveAccounts>, targets: seq<Slot>,
                                          ideal: nat, packs: seq<PackedAncientStorage>, writes: seq<Write>)
    requires ideal > 0 && TotalsOk(many + ones) && Ascending(targets) && CanBeMoved(many, targets, ideal)
    requires PackSizes(packs) == CutOf(many, ones, ideal) && Assigned(packs, targets, writes)
    requires AllContents(packs) == ItemsOf(many) + ItemsOf(ones) && StoragesFor(many, ideal) <= Required(many, ideal)
    ensures NoneMovedDown(|ItemsOf(many)|, writes)
  {
    TotalsPrefix(many, ones);
    AcceptedIsSafe(many, ones, targets, ideal);
    forall j, k | InWrites(writes, j, k) && |WrittenItems(writes[..j])| + k < |ItemsOf(many)|
      ensures Contents(writes[j].pack.parts)[k].slot <= writes[j].target
    {
      SafeWrite(many, ones, targets, ideal, packs, writes, j, k);
    }
  }

  /** Where the accounts of pack `j` begin among those written. */
  lemma {:induction false} WrittenBefore(packs: seq<PackedAncientStorage>, targets: seq<Slot>, writes: seq<Write>,
                                         j: nat)
    requires Assigned(packs, targets, writes) && j <= |packs|
    ensures |WrittenItems(writes[..j])| == Start(PackSizes(packs), j)
  {
    PacksAreWritten(writes[..j], packs[..j]);
    AllContentsSize(packs[..j]);
    assert PackSizes(packs[..j]) == PackSizes(packs)[..j] && PackSizes(packs)[..j][..j] == PackSizes(packs)[..j];
  }

  lemma {:induction false} SafeWrite(many: seq<AliveAccounts>, ones: seq<AliveAccounts>, targets: seq<Slot>, ideal: nat,
                                     packs: seq<PackedAncientStorage>, writes: seq<Write>, j: nat, k: nat)
    requires AllContents(packs) == ItemsOf(many) + ItemsOf(ones) && PackSizes(packs) == CutOf(many, ones, ideal)
    requires Assigned(packs, targets, writes) && Safe(many, ones, targets, ideal)
    requires InWrites(writes, j, k) && |WrittenItems(writes[..j])| + k < |ItemsOf(many)|
    ensures Contents(writes[j].pack.parts)[k].slot <= writes[j].target
  {
    InPack(packs, j, k);
    WrittenBefore(packs, targets, writes, j);
    var i := Start(PackSizes(packs), j) + k;
    assert Holds(CutOf(many, ones, ideal), j, i);
    assert ItemsOf(many)[i].slot <= targets[|targets| - 1 - j];
    assert Contents(packs[j].parts)[k] == ItemsOf(many)[i];
  }

  lemma {:induction false} TotalsPrefix(many: seq<AliveAccounts>, ones: seq<AliveAccounts>)
    requires TotalsOk(many + ones)
    ensures TotalsOk(many)
  {
    forall g | 0 <= g < |many| ensures TotalOk(many, g) { assert TotalOk(many + ones, g); }
  }
}
