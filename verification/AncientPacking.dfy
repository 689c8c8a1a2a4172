/**
 Packing the accounts of ancient slots into new storages of about an ideal size. The source walks
 groups of accounts, takes the rest of a group at once when its recorded bytes fit, and splits a
 group in the middle when they do not. `Pack` is that walk; next-fit over the flat list of accounts
 is what it amounts to.
 */
module AncientPacking {
  import opened Common
  import opened NextFit

  const STORE_META_OVERHEAD: nat := 136

  datatype StoredAccount = StoredAccount(pubkey: Pubkey, dataLen: nat)

  /** The bytes an account takes in a storage: fixed part and data, aligned to eight. */
  function AlignedStoredSize(a: StoredAccount): (size: nat)
    ensures size % 8 == 0 && 136 + a.dataLen <= size < 136 + a.dataLen + 8
  {
    (STORE_META_OVERHEAD + a.dataLen + 7) / 8 * 8
  }

  /** The alive accounts of one slot, with their total size as recorded when they were collected. */
  datatype AliveAccounts = AliveAccounts(slot: Slot, accounts: seq<StoredAccount>, bytes: nat)

  /** Part of a new storage: some accounts, and the slot they are in now. */
  datatype Part = Part(slot: Slot, accounts: seq<StoredAccount>)

  datatype PackedAncientStorage = PackedAncientStorage(parts: seq<Part>, bytes: nat)

  datatype Placed = Placed(slot: Slot, account: StoredAccount)

  // ---------- the flat list ----------

  function Tag(slot: Slot, accounts: seq<StoredAccount>): (items: seq<Placed>)
    ensures |items| == |accounts|
    ensures forall i {:trigger items[i]} :: 0 <= i < |items| ==> items[i] == Placed(slot, accounts[i])
  {
    seq(|accounts|, i requires 0 <= i < |accounts| => Placed(slot, accounts[i]))
  }

  lemma {:induction false} TagSplit(slot: Slot, a: seq<StoredAccount>, from: nat, to: nat)
    requires from <= to <= |a|
    ensures Tag(slot, a[from..]) == Tag(slot, a[from..to]) + Tag(slot, a[to..])
  {
  }

  function ItemsOf(groups: seq<AliveAccounts>): seq<Placed> {
    if groups == [] then [] else Tag(groups[0].slot, groups[0].accounts) + ItemsOf(groups[1..])
  }

  function Contents(parts: seq<Part>): seq<Placed> {
    if parts == [] then []
    else Contents(parts[..|parts| - 1]) + Tag(parts[|parts| - 1].slot, parts[|parts| - 1].accounts)
  }

  lemma {:induction false} ContentsAppend(parts: seq<Part>, part: Part)
    ensures Contents(parts + [part]) == Contents(parts) + Tag(part.slot, part.accounts)
  {
    assert (parts + [part])[..|parts|] == parts;
  }

  function AllContents(packs: seq<PackedAncientStorage>): seq<Placed> {
    if packs == [] then [] else AllContents(packs[..|packs| - 1]) + Contents(packs[|packs| - 1].parts)
  }

  function SizesOf(items: seq<Placed>): (sizes: seq<nat>)
    ensures |sizes| == |items|
    ensures forall i {:trigger sizes[i]} :: 0 <= i < |items| ==> sizes[i] == AlignedStoredSize(items[i].account)
  {
    seq(|items|, i requires 0 <= i < |items| => AlignedStoredSize(items[i].account))
  }

  lemma {:induction false} SizesAppend(a: seq<Placed>, b: seq<Placed>)
    ensures SizesOf(a + b) == SizesOf(a) + SizesOf(b)
    ensures Sum(SizesOf(a + b)) == Sum(SizesOf(a)) + Sum(SizesOf(b))
  {
    assert SizesOf(a + b) == SizesOf(a) + SizesOf(b);
    SumAppend(SizesOf(a), SizesOf(b));
  }

  /** The recorded bytes of every group are the bytes of its accounts. */
  ghost predicate TotalsOk(groups: seq<AliveAccounts>) {
    forall g {:trigger TotalOk(groups, g)} :: 0 <= g < |groups| ==> TotalOk(groups, g)
  }

  ghost predicate TotalOk(groups: seq<AliveAccounts>, g: int)
    requires 0 <= g < |groups|
  {
    groups[g].bytes == Sum(SizesOf(Tag(groups[g].slot, groups[g].accounts)))
  }

  lemma {:induction false} Regroup<T>(a: seq<T>, b: seq<T>, c: seq<T>)
    ensures a + (b + c) == (a + b) + c
  {
  }

  // ---------- where the walk is ----------

  /** The accounts from position `inner` of group `g` on. */
  function Remaining(groups: seq<AliveAccounts>, g: nat, inner: nat): seq<Placed>
    requires g <= |groups| && (g < |groups| ==> inner <= |groups[g].accounts|)
  {
    if g == |groups| then [] else Tag(groups[g].slot, groups[g].accounts[inner..]) + ItemsOf(groups[g + 1..])
  }

  lemma {:induction false} NextGroup(groups: seq<AliveAccounts>, g: nat)
    requires g < |groups|
    ensures Remaining(groups, g, |groups[g].accounts|) == Remaining(groups, g + 1, 0)
  {
    assert groups[g].accounts[|groups[g].accounts|..] == [];
    if g + 1 < |groups| {
      assert groups[g + 1..][0] == groups[g + 1] && groups[g + 1..][1..] == groups[g + 2..];
      assert groups[g + 1].accounts[0..] == groups[g + 1].accounts;
    }
  }

  lemma {:induction false} TakeSome(groups: seq<AliveAccounts>, g: nat, inner: nat, to: nat)
    requires g < |groups| && inner <= to <= |groups[g].accounts|
    ensures Remaining(groups, g, inner)
         == Tag(groups[g].slot, groups[g].accounts[inner..to]) + Remaining(groups, g, to)
  {
    var slot, a := groups[g].slot, groups[g].accounts;
    TagSplit(slot, a, inner, to);
    Regroup(Tag(slot, a[inner..to]), Tag(slot, a[to..]), ItemsOf(groups[g + 1..]));
  }

  // ---------- the walk ----------

  /** `sizes`, which begins with the account at `inner`, has the size of the account at `i`. */
  ghost predicate SizeAt(group: AliveAccounts, inner: nat, sizes: seq<nat>, i: nat)
    requires inner <= i < |group.accounts| && |sizes| == |group.accounts| - inner
  {
    sizes[i - inner] == AlignedStoredSize(group.accounts[i])
  }

  /** Takes accounts one by one until the next one would go over; an empty storage takes at least one. */
  method SplitGroup(group: AliveAccounts, inner: nat, total: nat, ideal: nat, ghost sizes: seq<nat>)
    returns (to: nat, total': nat, full: bool)
    requires inner < |group.accounts| && |sizes| == |group.accounts| - inner
    requires forall i {:trigger SizeAt(group, inner, sizes, i)} :: inner <= i < |group.accounts| ==>
               SizeAt(group, inner, sizes, i)
    ensures inner <= to <= |group.accounts| && (full <==> to < |group.accounts|)
    ensures to == inner + Fill(sizes, total, ideal) && total' == total + Sum(sizes[..to - inner])
    ensures (full ==> total' > 0) && (total == 0 ==> to > inner)
  {
    to, total', full := inner, total, false;
    FilledStart(sizes, total, ideal);
    while to < |group.accounts|
      invariant inner <= to <= |group.accounts| && !full && (to == inner ==> total' == total)
      invariant Filled(sizes, to - inner, total, total', ideal)
    {
      var size := AlignedStoredSize(group.accounts[to]);
      assert SizeAt(group, inner, sizes, to);
      FilledStep(sizes, to - inner, size, total, total', ideal);
      if total' + size > ideal && total' > 0 {
        full := true;
        break;
      }
      total' := total' + size;
      to := to + 1;
    }
    if !full { FilledEnd(sizes, total, total', ideal); }
  }

  ghost predicate At(groups: seq<AliveAccounts>, g: nat, inner: nat) {
    g <= |groups| && (g < |groups| ==> inner <= |groups[g].accounts|)
  }

  /** `partial` is what the recorded bytes of the group lose by the accounts already taken. */
  ghost predicate PartialOk(groups: seq<AliveAccounts>, g: nat, inner: nat, partial: nat)
    requires At(groups, g, inner)
  {
    g < |groups| && inner < |groups[g].accounts| ==>
      groups[g].bytes == partial + Sum(SizesOf(Tag(groups[g].slot, groups[g].accounts[inner..])))
  }

  /** `done` is what a fill takes of `all` while it still has `rest` before it. */
  ghost predicate Progress(all: seq<Placed>, done: seq<Placed>, rest: seq<Placed>, total: nat, ideal: nat) {
    && total == Sum(SizesOf(done))
    && Fill(SizesOf(all), 0, ideal) == |done| + Fill(SizesOf(rest), total, ideal)
  }

  lemma {:induction false} ProgressStep(all: seq<Placed>, done: seq<Placed>, total: nat, ideal: nat,
                     taken: seq<Placed>, left: seq<Placed>, later: seq<Placed>)
    requires Progress(all, done, (taken + left) + later, total, ideal)
    requires |taken| == Fill(SizesOf(taken + left), total, ideal)
    ensures Progress(all, done + taken, left + later, total + Sum(SizesOf(taken)), ideal)
    ensures left != [] ==> Fill(SizesOf(left + later), total + Sum(SizesOf(taken)), ideal) == 0
  {
    SizesAppend(taken, left);
    SizesAppend(taken + left, later);
    SizesAppend(left, later);
    SizesAppend(done, taken);
    var a, k := SizesOf(taken + left), |taken|;
    assert a[..k] == SizesOf(taken) && a[k..] == SizesOf(left);
    FillSplit(a, SizesOf(later), k, total, ideal);
  }

  /** Adds accounts `inner..to` of group `g` to the storage being filled. */
  method PushPart(parts: seq<Part>, group: AliveAccounts, inner: nat, to: nat) returns (parts': seq<Part>)
    requires inner <= to <= |group.accounts|
    ensures Contents(parts') == Contents(parts) + Tag(group.slot, group.accounts[inner..to])
    ensures parts' == [] <==> parts == [] && inner == to
  {
    parts' := parts;
    if inner < to {
      var part := Part(group.slot, group.accounts[inner..to]);
      parts' := parts + [part];
      ContentsAppend(parts, part);
    }
  }

  /** Accounts `inner..to` are what a fill takes of the group, and `total'` counts them. */
  ghost predicate Taken(group: AliveAccounts, ideal: nat, total: nat, inner: nat, to: nat, total': nat)
    requires inner <= to <= |group.accounts|
  {
    && to == inner + Fill(SizesOf(Tag(group.slot, group.accounts[inner..])), total, ideal)
    && total' == total + Sum(SizesOf(Tag(group.slot, group.accounts[inner..to])))
  }

  /** How much of the current group goes into the storage: all of it if its bytes fit, else what a split takes. */
  method TakeFromGroup(groups: seq<AliveAccounts>, g: nat, inner: nat, partial: nat, total: nat, ideal: nat)
    returns (to: nat, total': nat, partial': nat, full: bool)
    requires g < |groups| && inner < |groups[g].accounts|
    requires TotalsOk(groups) ==> PartialOk(groups, g, inner, partial)
    ensures inner <= to <= |groups[g].accounts| && (full <==> to < |groups[g].accounts|)
    ensures (total == 0 ==> to > inner) && (full ==> total' > 0)
    ensures TotalsOk(groups) ==> Taken(groups[g], ideal, total, inner, to, total') && PartialOk(groups, g, to, partial')
  {
    var group := groups[g];
    ghost var sizes := SizesOf(Tag(group.slot, group.accounts[inner..]));
    var bytesRemaining := if partial <= group.bytes then group.bytes - partial else 0;
    var withGroup := total + bytesRemaining;
    partial' := partial;
    if withGroup <= ideal {
      to, total', full := |group.accounts|, withGroup, false;
      assert group.accounts[inner..to] == group.accounts[inner..];
      if TotalsOk(groups) { FillWhole(sizes, total, ideal); }
    } else {
      to, total', full := SplitGroup(group, inner, total, ideal, sizes);
      assert sizes[..to - inner] == SizesOf(Tag(group.slot, group.accounts[inner..to]));
      partial' := partial + (total' - total);
      TagSplit(group.slot, group.accounts, inner, to);
      SizesAppend(Tag(group.slot, group.accounts[inner..to]), Tag(group.slot, group.accounts[to..]));
    }
  }

  /** The walk while it fills one storage: `done` so far, the rest of `all` still to come. */
  ghost predicate Filling(groups: seq<AliveAccounts>, ideal: nat, all: seq<Placed>, done: seq<Placed>, total: nat,
                          g: nat, inner: nat, partial: nat, full: bool) {
    && At(groups, g, inner)
    && done + Remaining(groups, g, inner) == all
    && (done == [] ==> total == 0 && !full)
    && (TotalsOk(groups) ==> Exact(groups, ideal, all, done, total, g, inner, partial, full))
  }

  ghost predicate Exact(groups: seq<AliveAccounts>, ideal: nat, all: seq<Placed>, done: seq<Placed>, total: nat,
                        g: nat, inner: nat, partial: nat, full: bool)
    requires At(groups, g, inner)
  {
    && PartialOk(groups, g, inner, partial)
    && Progress(all, done, Remaining(groups, g, inner), total, ideal)
    && (full ==> Fill(SizesOf(Remaining(groups, g, inner)), total, ideal) == 0)
  }

  /** Puts what fits of the current group into the storage being filled, or moves on to the next group. */
  method FillMore(groups: seq<AliveAccounts>, ideal: nat, ghost all: seq<Placed>,
                  parts: seq<Part>, total: nat, g: nat, inner: nat, partial: nat)
    returns (parts': seq<Part>, total': nat, g': nat, inner': nat, partial': nat, full: bool)
    requires Filling(groups, ideal, all, Contents(parts), total, g, inner, partial, false) && g < |groups|
    requires parts == [] <==> Contents(parts) == []
    ensures Filling(groups, ideal, all, Contents(parts'), total', g', inner', partial', full)
    ensures parts' == [] <==> Contents(parts') == []
    ensures full || g' == g + 1 || (g' == g && inner < inner')
  {
    ghost var done := Contents(parts);
    if inner >= |groups[g].accounts| {
      FillingNext(groups, ideal, all, done, total, g, inner, partial);
      parts', total', g', inner', partial', full := parts, total, g + 1, 0, 0, false;
    } else {
      g' := g;
      inner', total', partial', full := TakeFromGroup(groups, g, inner, partial, total, ideal);
      parts' := PushPart(parts, groups[g], inner, inner');
      FillingStep(groups, ideal, all, done, total, g, inner, partial, inner', total', partial', full);
    }
  }

  /** One new storage: accounts in order until it is full or the groups are used up. */
  method FillStorage(groups: seq<AliveAccounts>, ideal: nat, g0: nat, inner0: nat, partial0: nat)
    returns (parts: seq<Part>, total: nat, g: nat, inner: nat, partial: nat)
    requires At(groups, g0, inner0) && (TotalsOk(groups) ==> PartialOk(groups, g0, inner0, partial0))
    ensures At(groups, g, inner) && (TotalsOk(groups) ==> PartialOk(groups, g, inner, partial))
    ensures Contents(parts) + Remaining(groups, g, inner) == Remaining(groups, g0, inner0)
    ensures (parts == [] <==> Remaining(groups, g0, inner0) == []) && (parts == [] <==> Contents(parts) == [])
    ensures TotalsOk(groups) ==>
              && total == Sum(SizesOf(Contents(parts)))
              && |Contents(parts)| == Fill(SizesOf(Remaining(groups, g0, inner0)), 0, ideal)
  {
    parts, total, g, inner, partial := [], 0, g0, inner0, partial0;
    ghost var all := Remaining(groups, g0, inner0);
    var full := false;
    FillingStart(groups, ideal, g, inner, partial);
    while !full && g < |groups|
      invariant parts == [] <==> Contents(parts) == []
      invariant Filling(groups, ideal, all, Contents(parts), total, g, inner, partial, full)
      decreases !full, |groups| - g, if g < |groups| then |groups[g].accounts| - inner else 0
    {
      parts, total, g, inner, partial, full := FillMore(groups, ideal, all, parts, total, g, inner, partial);
    }
    FillingEnd(groups, ideal, all, Contents(parts), total, g, inner, partial, full);
  }

  lemma {:induction false} FillingStart(groups: seq<AliveAccounts>, ideal: nat, g: nat, inner: nat, partial: nat)
    requires At(groups, g, inner) && (TotalsOk(groups) ==> PartialOk(groups, g, inner, partial))
    ensures Filling(groups, ideal, Remaining(groups, g, inner), [], 0, g, inner, partial, false)
  {
    assert [] + Remaining(groups, g, inner) == Remaining(groups, g, inner);
  }

  lemma {:induction false} FillingEnd(groups: seq<AliveAccounts>, ideal: nat, all: seq<Placed>, done: seq<Placed>,
                                      total: nat, g: nat, inner: nat, partial: nat, full: bool)
    requires Filling(groups, ideal, all, done, total, g, inner, partial, full) && (full || g >= |groups|)
    ensures At(groups, g, inner) && done + Remaining(groups, g, inner) == all && (done == [] <==> all == [])
    ensures TotalsOk(groups) ==> PartialOk(groups, g, inner, partial)
    ensures TotalsOk(groups) ==> total == Sum(SizesOf(done)) && |done| == Fill(SizesOf(all), 0, ideal)
  {
  }

  lemma {:induction false} FillingNext(groups: seq<AliveAccounts>, ideal: nat, all: seq<Placed>, done: seq<Placed>,
                                       total: nat, g: nat, inner: nat, partial: nat)
    requires Filling(groups, ideal, all, done, total, g, inner, partial, false)
    requires g < |groups| && inner == |groups[g].accounts|
    ensures Filling(groups, ideal, all, done, total, g + 1, 0, 0, false)
  {
    NextGroup(groups, g);
    if TotalsOk(groups) && g + 1 < |groups| {
      assert TotalOk(groups, g + 1) && groups[g + 1].accounts[0..] == groups[g + 1].accounts;
    }
  }

  lemma {:induction false} FillingStep(groups: seq<AliveAccounts>, ideal: nat, all: seq<Placed>, done: seq<Placed>,
                                       total: nat, g: nat, inner: nat, partial: nat, to: nat, total': nat,
                                       partial': nat, full': bool)
    requires Filling(groups, ideal, all, done, total, g, inner, partial, false)
    requires g < |groups| && inner <= to <= |groups[g].accounts| && (full' <==> to < |groups[g].accounts|)
    requires (total == 0 ==> to > inner) && (full' ==> total' > 0)
    requires TotalsOk(groups) ==>
             Taken(groups[g], ideal, total, inner, to, total') && PartialOk(groups, g, to, partial')
    ensures Filling(groups, ideal, all, done + Tag(groups[g].slot, groups[g].accounts[inner..to]),
                    total', g, to, partial', full')
  {
    TakeSome(groups, g, inner, to);
    var taken := Tag(groups[g].slot, groups[g].accounts[inner..to]);
    Regroup(done, taken, Remaining(groups, g, to));
    if TotalsOk(groups) {
      ExactStep(groups, ideal, all, done, total, g, inner, to, total');
    }
  }

  lemma {:induction false} ExactStep(groups: seq<AliveAccounts>, ideal: nat, all: seq<Placed>, done: seq<Placed>,
                                     total: nat, g: nat, inner: nat, to: nat, total': nat)
    requires g < |groups| && inner <= to <= |groups[g].accounts|
    requires Progress(all, done, Remaining(groups, g, inner), total, ideal)
    requires Taken(groups[g], ideal, total, inner, to, total')
    ensures Progress(all, done + Tag(groups[g].slot, groups[g].accounts[inner..to]),
                     Remaining(groups, g, to), total', ideal)
    ensures to < |groups[g].accounts| ==> Fill(SizesOf(Remaining(groups, g, to)), total', ideal) == 0
  {
    var slot, a := groups[g].slot, groups[g].accounts;
    var taken, left, later := Tag(slot, a[inner..to]), Tag(slot, a[to..]), ItemsOf(groups[g + 1..]);
    assert Tag(slot, a[inner..]) == taken + left by { TagSplit(slot, a, inner, to); }
    assert Remaining(groups, g, inner) == (taken + left) + later && Remaining(groups, g, to) == left + later;
    ProgressStep(all, done, total, ideal, taken, left, later);
  }

  // ---------- all storages ----------

  /** The sizes in every storage. */
  function PackSizes(packs: seq<PackedAncientStorage>): (sizes: seq<seq<nat>>)
    ensures |sizes| == |packs|
    ensures forall j {:trigger sizes[j]} :: 0 <= j < |packs| ==> sizes[j] == SizesOf(Contents(packs[j].parts))
  {
    seq(|packs|, j requires 0 <= j < |packs| => SizesOf(Contents(packs[j].parts)))
  }

  /** The recorded bytes of every storage are the bytes of its accounts. */
  ghost predicate BytesOk(packs: seq<PackedAncientStorage>) {
    forall j :: 0 <= j < |packs| ==> packs[j].bytes == Sum(SizesOf(Contents(packs[j].parts)))
  }

  ghost predicate NoneEmpty(packs: seq<PackedAncientStorage>) {
    forall j :: 0 <= j < |packs| ==> Contents(packs[j].parts) != []
  }

  ghost predicate Packing(groups: seq<AliveAccounts>, ideal: nat, packs: seq<PackedAncientStorage>, rest: seq<Placed>) {
    && AllContents(packs) + rest == ItemsOf(groups) && NoneEmpty(packs)
    && (TotalsOk(groups) ==>
          BytesOk(packs) && Cut(SizesOf(ItemsOf(groups)), ideal) == PackSizes(packs) + Cut(SizesOf(rest), ideal))
  }

  lemma {:induction false} PackingStart(groups: seq<AliveAccounts>, ideal: nat)
    ensures At(groups, 0, 0) && Packing(groups, ideal, [], Remaining(groups, 0, 0))
    ensures TotalsOk(groups) ==> PartialOk(groups, 0, 0, 0)
  {
    if groups != [] {
      assert groups[0].accounts[0..] == groups[0].accounts;
      assert TotalsOk(groups) ==> TotalOk(groups, 0);
    }
    assert Remaining(groups, 0, 0) == ItemsOf(groups);
    assert [] + ItemsOf(groups) == ItemsOf(groups);
    assert PackSizes([]) + Cut(SizesOf(ItemsOf(groups)), ideal) == Cut(SizesOf(ItemsOf(groups)), ideal);
  }

  lemma {:induction false} PackingStep(groups: seq<AliveAccounts>, ideal: nat, packs: seq<PackedAncientStorage>,
                    parts: seq<Part>, total: nat, rest: seq<Placed>)
    requires Packing(groups, ideal, packs, Contents(parts) + rest) && Contents(parts) != []
    requires TotalsOk(groups) ==>
               total == Sum(SizesOf(Contents(parts))) &&
               |Contents(parts)| == Fill(SizesOf(Contents(parts) + rest), 0, ideal)
    ensures Packing(groups, ideal, packs + [PackedAncientStorage(parts, total)], rest)
  {
    var pack := PackedAncientStorage(parts, total);
    assert (packs + [pack])[..|packs|] == packs;
    Regroup(AllContents(packs), Contents(parts), rest);
    if TotalsOk(groups) {
      var a, b := SizesOf(Contents(parts)), SizesOf(rest);
      SizesAppend(Contents(parts), rest);
      CutStep(a, b, ideal);
      assert PackSizes(packs + [pack]) == PackSizes(packs) + [a];
      Regroup(PackSizes(packs), [a], Cut(b, ideal));
    }
  }

  lemma {:induction false} PackingEnd(groups: seq<AliveAccounts>, ideal: nat, packs: seq<PackedAncientStorage>)
    requires Packing(groups, ideal, packs, [])
    ensures AllContents(packs) == ItemsOf(groups) && NoneEmpty(packs)
    ensures TotalsOk(groups) ==> BytesOk(packs) && PackSizes(packs) == Cut(SizesOf(ItemsOf(groups)), ideal)
  {
    assert AllContents(packs) + [] == AllContents(packs) && PackSizes(packs) + [] == PackSizes(packs);
  }

  /**
   Packs all groups. Nothing is lost, repeated or reordered, whatever the recorded bytes are; if they
   are right, the storages are the next-fit cut of the accounts and their recorded bytes are right too.
   */
  method Pack(groups: seq<AliveAccounts>, ideal: nat) returns (packs: seq<PackedAncientStorage>)
    ensures AllContents(packs) == ItemsOf(groups) && NoneEmpty(packs)
    ensures TotalsOk(groups) ==> BytesOk(packs) && PackSizes(packs) == Cut(SizesOf(ItemsOf(groups)), ideal)
  {
    packs := [];
    var g, inner, partial := 0, 0, 0;
    PackingStart(groups, ideal);
    while true
      invariant At(groups, g, inner) && (TotalsOk(groups) ==> PartialOk(groups, g, inner, partial))
      invariant Packing(groups, ideal, packs, Remaining(groups, g, inner))
      decreases |Remaining(groups, g, inner)|
    {
      ghost var rest := Remaining(groups, g, inner);
      var parts, total;
      parts, total, g, inner, partial := FillStorage(groups, ideal, g, inner, partial);
      if parts == [] {
        PackingEnd(groups, ideal, packs);
        return;
      }
      assert |rest| == |Contents(parts)| + |Remaining(groups, g, inner)|;
      PackingStep(groups, ideal, packs, parts, total, Remaining(groups, g, inner));
      packs := packs + [PackedAncientStorage(parts, total)];
    }
  }

  /** What the next-fit cut means for the storages: how full they are, and how many there can be. */
  lemma {:induction false} PackGuarantees(groups: seq<AliveAccounts>, ideal: nat, packs: seq<PackedAncientStorage>)
    requires BytesOk(packs) && PackSizes(packs) == Cut(SizesOf(ItemsOf(groups)), ideal)
    ensures forall j :: 0 <= j < |packs| ==> packs[j].bytes <= ideal || |Contents(packs[j].parts)| == 1
    ensures forall j, k :: 0 <= j < |packs| && k == j + 1 < |packs| ==> packs[j].bytes + packs[k].bytes > ideal
    ensures ItemsOf(groups) != [] ==> (|packs| - 1) * ideal < 2 * Sum(SizesOf(ItemsOf(groups)))
  {
    forall j | 0 <= j < |packs| ensures packs[j].bytes <= ideal || |Contents(packs[j].parts)| == 1 {
      CutFits(SizesOf(ItemsOf(groups)), ideal, j);
      assert PackSizes(packs)[j] == SizesOf(Contents(packs[j].parts));
    }
    forall j, k | 0 <= j < |packs| && k == j + 1 < |packs| ensures packs[j].bytes + packs[k].bytes > ideal {
      PackIsTight(groups, ideal, packs, j);
    }
    if ItemsOf(groups) != [] { CutBound(SizesOf(ItemsOf(groups)), ideal); }
  }

  lemma {:induction false} PackIsTight(groups: seq<AliveAccounts>, ideal: nat, packs: seq<PackedAncientStorage>, j: nat)
    requires BytesOk(packs) && PackSizes(packs) == Cut(SizesOf(ItemsOf(groups)), ideal) && j + 1 < |packs|
    ensures packs[j].bytes + packs[j + 1].bytes > ideal
  {
    CutIsTight(SizesOf(ItemsOf(groups)), ideal, j);
    assert PackSizes(packs)[j] == SizesOf(Contents(packs[j].parts));
    assert PackSizes(packs)[j + 1] == SizesOf(Contents(packs[j + 1].parts));
  }
}
