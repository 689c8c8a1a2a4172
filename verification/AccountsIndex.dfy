/**
 The accounts index as an object. Its alive roots are a rolling bit field; that roots are added in
 ascending order is what makes the field behave as a set. The new states are the ones the steps of
 the scan protocol are written with.
 */
module AccountsIndexes {
  import opened Common
  import opened SlotLists
  import opened ZeroPurges
  import opened Forks
  import opened ScanProtocol
  import opened RollingBitFields

  datatype ScanError = SlotRemoved(bank: BankId)

  class AccountsIndex<V> {
    var lists: map<Pubkey, seq<Item<V>>>
    var refs: map<Pubkey, nat>
    var ongoing: map<Slot, nat>
    var removedBanks: set<BankId>
    const aliveRoots: RollingBitField

    /** No slot list has two entries at one slot, and every pubkey has a reference count. */
    ghost predicate ListsOk()
      reads this`lists, this`refs
    {
      refs.Keys == lists.Keys && forall key :: key in lists ==> UniqueSlots(lists[key])
    }

    ghost function Roots(): set<Slot>
      requires aliveRoots.maxWidth > 0 && aliveRoots.bits.Length == aliveRoots.maxWidth
      reads aliveRoots, aliveRoots.bits
    {
      aliveRoots.Contents()
    }

    /** The object holds the index part of a state of the scan protocol. */
    ghost predicate Shows(s: State<V>)
      requires aliveRoots.maxWidth > 0 && aliveRoots.bits.Length == aliveRoots.maxWidth
      reads this, aliveRoots, aliveRoots.bits
    {
      && s.lists == lists && s.ongoing == ongoing && s.roots == Roots() && s.tree.removed == removedBanks
      && s.tree.root in s.tree.banks && RootSlot(s.tree) == aliveRoots.MaxInclusive()
    }

    constructor (rootsWidth: nat)
      requires rootsWidth > 0
      ensures aliveRoots.Valid() && ListsOk() && lists == map[] && ongoing == map[] && removedBanks == {}
              && Roots() == {}
    {
      lists, refs, ongoing, removedBanks := map[], map[], map[], {};
      aliveRoots := new RollingBitField(rootsWidth);
    }

    /** Roots come in ascending order; the source asserts it. With the root of the bank tree this is a step. */
    method AddRoot(slot: Slot, ghost s: State<V>, ghost tree: Tree, ghost b: BankId)
      requires aliveRoots.Valid() && slot >= aliveRoots.MaxInclusive()
      modifies aliveRoots, aliveRoots.bits
      ensures aliveRoots.Valid() && Roots() == old(Roots()) + {slot} && aliveRoots.MaxInclusive() == slot
      ensures old(Shows(s)) && MoveRoot(s.tree, tree, b) && s.tree.banks[b].slot == slot ==>
                var s' := s.(tree := tree, roots := s.roots + {slot}); Next(s, DoAddRoot(b), s') && Shows(s')
    {
      aliveRoots.AppendingIsSafe(slot);
      aliveRoots.Insert(slot);
    }

    /** Forgets a root; the greatest root stays on record. */
    method CleanDeadSlot(slot: Slot, ghost s: State<V>) returns (wasRoot: bool)
      requires aliveRoots.Valid()
      modifies aliveRoots, aliveRoots.bits
      ensures aliveRoots.Valid() && Roots() == old(Roots()) - {slot} && (wasRoot <==> slot in old(Roots()))
      ensures aliveRoots.MaxInclusive() == old(aliveRoots.MaxInclusive())
      ensures old(Shows(s)) && !Occupied(s.lists, slot) && slot != RootSlot(s.tree) ==>
                var s' := s.(roots := s.roots - {slot}); DropRoot(s, s', slot) && Shows(s')
    {
      wasRoot := aliveRoots.Remove(slot);
    }

    /** The first part of a checked scan: it fails for a removed bank, else it registers the greatest root. */
    method BeginScan(ancestors: set<Slot>, bank: BankId, ghost s: State<V>, ghost id: ScanId)
      returns (r: Result<Scan, ScanError>)
      requires aliveRoots.maxWidth > 0 && aliveRoots.bits.Length == aliveRoots.maxWidth
      modifies this`ongoing
      ensures r.Err? <==> bank in removedBanks
      ensures r.Err? ==> r.error == SlotRemoved(bank) && ongoing == old(ongoing)
      ensures r.Ok? ==>
                var root := aliveRoots.MaxInclusive();
                && r.value == Scan(bank, if root in ancestors then ancestors else {}, root)
                && ongoing == old(ongoing)[root := if root in old(ongoing) then old(ongoing)[root] + 1 else 1]
      ensures r.Ok? && old(Shows(s)) && id !in s.scans && bank in s.tree.banks && s.tree.banks[bank].frozen
              && ancestors == s.tree.banks[bank].ancestors ==>
                var s' := s.(ongoing := ongoing, scans := s.scans[id := r.value]);
                ScanProtocol.BeginScan(s, s', id, bank) && Shows(s')
    {
      if bank in removedBanks {
        return Err(SlotRemoved(bank));
      }
      var root := aliveRoots.MaxInclusive();
      var count := if root in ongoing then ongoing[root] else 0;
      ongoing := ongoing[root := count + 1];
      r := Ok(Scan(bank, if root in ancestors then ancestors else {}, root));
    }

    /** The last part: it unregisters the root and reports a bank removed meanwhile. */
    method EndScan(scan: Scan, ghost s: State<V>, ghost id: ScanId) returns (r: Result<(), ScanError>)
      requires aliveRoots.maxWidth > 0 && aliveRoots.bits.Length == aliveRoots.maxWidth
      requires scan.root in ongoing && ongoing[scan.root] > 0
      modifies this`ongoing
      ensures ongoing - {scan.root} == old(ongoing) - {scan.root}
      ensures scan.root in ongoing <==> old(ongoing)[scan.root] > 1
      ensures scan.root in ongoing ==> ongoing[scan.root] == old(ongoing)[scan.root] - 1
      ensures r == if scan.bank in removedBanks then Err(SlotRemoved(scan.bank)) else Ok(())
      ensures old(Shows(s)) && id in s.scans && s.scans[id] == scan ==>
                var s' := s.(ongoing := ongoing, scans := s.scans - {id}); ScanProtocol.EndScan(s, s', id) && Shows(s')
    {
      var count := ongoing[scan.root] - 1;
      ongoing := ongoing[scan.root := count];
      if count == 0 {
        ongoing := ongoing - {scan.root};
      }
      r := if scan.bank in removedBanks then Err(SlotRemoved(scan.bank)) else Ok(());
    }

    method MinOngoingScanRoot() returns (least: Option<Slot>)
      ensures IsMinOngoing(ongoing, least)
      ensures least.None? <==> ongoing == map[]
      ensures least.Some? ==> least.value in ongoing && forall r :: r in ongoing ==> least.value <= r
    {
      least := None;
      var rest := ongoing.Keys;
      while rest != {}
        invariant rest <= ongoing.Keys && (least.None? <==> rest == ongoing.Keys)
        invariant least.Some? ==> least.value in ongoing && forall r :: r in ongoing && r !in rest ==> least.value <= r
        decreases rest
      {
        var r :| r in rest;
        if least.None? || r < least.value { least := Some(r); }
        rest := rest - {r};
      }
    }

    function CleanBound(maxClean: Option<Slot>): Slot
      reads aliveRoots, aliveRoots.bits
    {
      if maxClean.Some? then maxClean.value else aliveRoots.MaxInclusive()
    }

    /** Purges one pubkey. `removed` says that the pubkey has left the index or was not in it. */
    method CleanRootedEntries(key: Pubkey, reclaims: seq<Item<V>>, maxClean: Option<Slot>, ghost s: State<V>,
                              ghost clean: CleanId)
      returns (removed: bool, reclaims': seq<Item<V>>, ghost newest: Slot)
      requires ListsOk() && aliveRoots.maxWidth > 0 && aliveRoots.bits.Length == aliveRoots.maxWidth
      modifies this`lists, this`refs
      ensures ListsOk()
      ensures IsNewestRoot(Roots(), ListOf(old(lists), key), maxClean, newest) && reclaims <= reclaims'
      ensures PurgedOf(old(lists), lists, key, CleanBound(maxClean), newest, reclaims'[|reclaims|..])
      ensures removed <==> key !in lists
      ensures refs == if removed then old(refs) - {key} else old(refs)
      ensures old(Shows(s)) ==> Shows(s.(lists := lists))
      ensures old(Shows(s)) && clean in s.cleans && s.cleans[clean] == maxClean ==>
                Clean(s, s.(lists := lists), clean, key, newest)
    {
      removed, reclaims', newest := PurgeKey(key, reclaims, maxClean);
      ghost var moved := reclaims'[|reclaims|..];
      if old(Shows(s)) && clean in s.cleans && s.cleans[clean] == maxClean {
        assert BoundOf(s, clean) == CleanBound(maxClean) && s.roots == Roots() && s.lists == old(lists);
        CleanIsStep(s, lists, clean, key, newest, moved);
      }
    }

    method PurgeKey(key: Pubkey, reclaims: seq<Item<V>>, maxClean: Option<Slot>)
      returns (removed: bool, reclaims': seq<Item<V>>, ghost newest: Slot)
      requires ListsOk() && aliveRoots.maxWidth > 0 && aliveRoots.bits.Length == aliveRoots.maxWidth
      modifies this`lists, this`refs
      ensures ListsOk()
      ensures IsNewestRoot(Roots(), ListOf(old(lists), key), maxClean, newest) && reclaims <= reclaims'
      ensures PurgedOf(old(lists), lists, key, CleanBound(maxClean), newest, reclaims'[|reclaims|..])
      ensures removed <==> key !in lists
      ensures refs == if removed then old(refs) - {key} else old(refs)
    {
      if key !in lists {
        assert Store(lists, key, []) == lists && refs - {key} == refs;
        return true, reclaims, 0;
      }
      var members := aliveRoots.GetAll();
      var kept;
      kept, reclaims', newest := PurgeList(lists[key], reclaims, maxClean, members, aliveRoots.MaxInclusive());
      SetList(key, kept);
      removed := kept == [];
    }

    /** Writes back a slot list, or drops the pubkey when it has no entry left. */
    method SetList(key: Pubkey, list: seq<Item<V>>)
      requires ListsOk() && key in lists && UniqueSlots(list)
      modifies this`lists, this`refs
      ensures ListsOk() && lists == Store(old(lists), key, list)
      ensures refs == if list == [] then old(refs) - {key} else old(refs)
    {
      lists := lists[key := list];
      if list == [] {
        assert lists - {key} == old(lists) - {key};
        lists, refs := lists - {key}, refs - {key};
      }
    }

    /** What a clean reads of a pubkey: the slots to purge if its latest rooted version has zero lamports. */
    method FindZero(key: Pubkey, maxClean: Option<Slot>, ghost s: State<V>, ghost clean: CleanId)
      returns (slots: Option<set<Slot>>)
      requires aliveRoots.maxWidth > 0 && aliveRoots.bits.Length == aliveRoots.maxWidth
      ensures var list := ListOf(lists, key);
              slots == if LatestIsZero(list, maxClean, Roots())
                       then Some(RootedSlots(list, maxClean, Roots()))
                       else None
      ensures slots.Some? ==>
                forall a: Slot :: a in slots.value <==>
                  HasEntry(ListOf(lists, key), a) && a in Roots() && (maxClean.Some? ==> a <= maxClean.value)
      ensures slots.Some? && Shows(s) && clean in s.cleans && s.cleans[clean] == maxClean ==>
                var mark := Mark(slots.value, BoundOf(s, clean));
                MarkZero(s, s.(marks := s.marks[(clean, key) := mark]), clean, key)
    {
      if key !in lists {
        return None;
      }
      var roots := aliveRoots.GetAll();
      slots := ZeroSlots(lists[key], maxClean, roots);
    }

    /**
     Drops the entries at the given slots; says if the pubkey has none left. A step if the slots are
     those a clean has marked, or one of a removed bank, or one of a version that a flush passes over.
     */
    method PurgeExact(key: Pubkey, slots: set<Slot>, ghost s: State<V>, ghost slot: Slot, ghost clean: CleanId,
                      ghost i: nat, ghost j: nat)
      returns (emptied: bool, reclaims: seq<Item<V>>)
      requires ListsOk() && aliveRoots.maxWidth > 0 && aliveRoots.bits.Length == aliveRoots.maxWidth
      modifies this`lists
      ensures ListsOk()
      ensures var list := ListOf(old(lists), key);
              && ListOf(lists, key) == Outside(list, slots) && reclaims == Inside(list, slots)
              && (emptied <==> ListOf(lists, key) == [])
              && (forall x :: x in ListOf(lists, key) <==> x in list && x.slot !in slots)
              && (forall x :: x in reclaims <==> x in list && x.slot in slots)
      ensures forall k :: k != key ==> (k in lists <==> k in old(lists)) && ListOf(lists, k) == ListOf(old(lists), k)
      ensures old(Shows(s)) ==> Shows(s.(lists := lists))
      ensures old(Shows(s)) && slots == {slot} && Abandoned(s, slot) ==>
                PurgeSlot(s, s.(lists := lists), slot, key)
      ensures old(Shows(s)) && (clean, key) in s.marks && slots == s.marks[(clean, key)].slots ==>
                PurgeZero(s, s.(lists := lists, marks := s.marks - {(clean, key)}), clean, key)
      ensures old(Shows(s)) && slots == {slot} && PassedOver(s, clean, key, slot, i, j) ==>
                Supersede(s, s.(lists := lists), clean, key, i, j)
    {
      emptied, reclaims := DropSlots(key, slots);
      SplitMembers(ListOf(old(lists), key), slots);
      if old(Shows(s)) { PurgeIsStep(s, lists, key, slots, slot, clean, i, j); }
    }

    method DropSlots(key: Pubkey, slots: set<Slot>) returns (emptied: bool, reclaims: seq<Item<V>>)
      requires ListsOk()
      modifies this`lists
      ensures ListsOk()
      ensures var list := ListOf(old(lists), key);
              && ListOf(lists, key) == Outside(list, slots) && reclaims == Inside(list, slots)
              && (emptied <==> ListOf(lists, key) == [])
      ensures lists == if key in old(lists) then old(lists)[key := ListOf(lists, key)] else old(lists)
    {
      if key !in lists {
        return true, [];
      }
      var list, kept := lists[key], [];
      reclaims := [];
      for i := 0 to |list|
        invariant kept == Outside(list[..i], slots) && reclaims == Inside(list[..i], slots)
      {
        assert list[..i + 1][..i] == list[..i];
        if list[i].slot in slots { reclaims := reclaims + [list[i]]; } else { kept := kept + [list[i]]; }
      }
      assert list[..|list|] == list;
      FilterUnique(list, (x: Item<V>) => x.slot !in slots);
      lists := lists[key := kept];
      emptied := kept == [];
    }

    /**
     Stores an account: its entries at the new and the old slot give way to one, and the pubkey gains a
     reference exactly if nothing uncached gave way. At the slot of a bank this is a step.
     */
    method Upsert(key: Pubkey, slot: Slot, info: Info<V>, oldSlot: Slot, reclaim: UpsertReclaim, ghost s: State<V>,
                  ghost b: BankId)
      returns (r: Result<seq<Item<V>>, UpdatePanic>)
      requires ListsOk() && aliveRoots.maxWidth > 0 && aliveRoots.bits.Length == aliveRoots.maxWidth
      modifies this`lists, this`refs
      ensures var before := ListOf(old(lists), key);
              r.Err? <==> reclaim.PreviousSlotEntryWasCached? && (Uncached(before, slot) || Uncached(before, oldSlot))
      ensures ListsOk()
      ensures r.Ok? ==> Replaced(old(lists), lists, key, slot, info, oldSlot, reclaim, r.value)
      ensures r.Ok? ==>
                var before := if key in old(refs) then old(refs)[key] else 0;
                var gains := GainsReference(ListOf(old(lists), key), slot, oldSlot, info);
                key in refs && refs[key] == (if gains then before + 1 else before) && refs - {key} == old(refs) - {key}
      ensures r.Ok? && old(Shows(s)) && Live(s.tree, b) && !s.tree.banks[b].frozen &&
              slot == oldSlot == s.tree.banks[b].slot ==>
                var s' := s.(lists := lists); ScanProtocol.Upsert(s, s', b, key, ListOf(lists, key)) && Shows(s')
    {
      r := Replace(key, slot, info, oldSlot, reclaim);
      if r.Ok? && old(Shows(s)) && Live(s.tree, b) && !s.tree.banks[b].frozen &&
         slot == oldSlot == s.tree.banks[b].slot
      {
        UpsertIsStep(s, lists, b, key);
      }
    }

    /** A pubkey new to the index starts with no reference. */
    method CountReference(key: Pubkey, gains: bool)
      modifies this`refs
      ensures var before := if key in old(refs) then old(refs)[key] else 0;
              key in refs && refs[key] == (if gains then before + 1 else before) && refs - {key} == old(refs) - {key}
      ensures refs.Keys == old(refs).Keys + {key}
    {
      if key !in refs { refs := refs[key := 0]; }
      if gains { refs := refs[key := refs[key] + 1]; }
    }

    method Replace(key: Pubkey, slot: Slot, info: Info<V>, oldSlot: Slot, reclaim: UpsertReclaim)
      returns (r: Result<seq<Item<V>>, UpdatePanic>)
      requires ListsOk()
      modifies this`lists, this`refs
      ensures ListsOk()
      ensures var before := ListOf(old(lists), key);
              r.Err? <==> reclaim.PreviousSlotEntryWasCached? && (Uncached(before, slot) || Uncached(before, oldSlot))
      ensures r.Ok? ==> Replaced(old(lists), lists, key, slot, info, oldSlot, reclaim, r.value)
      ensures r.Ok? ==>
                var before := if key in old(refs) then old(refs)[key] else 0;
                var gains := GainsReference(ListOf(old(lists), key), slot, oldSlot, info);
                key in refs && refs[key] == (if gains then before + 1 else before) && refs - {key} == old(refs) - {key}
    {
      var updated := UpdateSlotList(ListOf(lists, key), slot, info, Some(oldSlot), reclaim);
      if updated.Err? {
        return Err(updated.error);
      }
      lists := lists[key := updated.value.list];
      CountReference(key, updated.value.addref);
      r := Ok(updated.value.reclaims);
    }
  }

  /** The slot list of `key` has one entry for those at the two slots, which are reclaimed if asked for. */
  ghost predicate Replaced<V>(lists: map<Pubkey, seq<Item<V>>>, lists': map<Pubkey, seq<Item<V>>>, key: Pubkey,
                              slot: Slot, info: Info<V>, oldSlot: Slot, reclaim: UpsertReclaim,
                              reclaims: seq<Item<V>>) {
    var before, after := ListOf(lists, key), ListOf(lists', key);
    && lists' == lists[key := after] && UniqueSlots(after)
    && Others(after, slot, oldSlot) == Others(before, slot, oldSlot)
    && Touched(after, slot, oldSlot) == [Item(slot, info)]
    && multiset(reclaims) == if reclaim.PopulateReclaims? then multiset(Touched(before, slot, oldSlot)) else multiset{}
  }

  /** The slot list is what a purge keeps of it, and `moved` is what it takes out. */
  ghost predicate PurgedOf<V>(before: map<Pubkey, seq<Item<V>>>, after: map<Pubkey, seq<Item<V>>>, key: Pubkey,
                              bound: Slot, newest: Slot, moved: seq<Item<V>>) {
    var list := ListOf(before, key);
    && IsPurge(list, bound, newest, Kept(list, bound, newest), moved)
    && after == Store(before, key, Kept(list, bound, newest))
  }

  lemma {:induction false} CleanIsStep<V>(s: State<V>, lists: map<Pubkey, seq<Item<V>>>, clean: CleanId, key: Pubkey,
                                          newest: Slot, moved: seq<Item<V>>)
    requires clean in s.cleans && s.tree.root in s.tree.banks
    requires IsNewestRoot(s.roots, ListOf(s.lists, key), s.cleans[clean], newest)
    requires PurgedOf(s.lists, lists, key, BoundOf(s, clean), newest, moved)
    ensures Clean(s, s.(lists := lists), clean, key, newest)
  {
  }

  lemma {:induction false} PurgeIsStep<V>(s: State<V>, lists: map<Pubkey, seq<Item<V>>>, key: Pubkey, slots: set<Slot>,
                                          slot: Slot, clean: CleanId, i: nat, j: nat)
    requires ListOf(lists, key) == Outside(ListOf(s.lists, key), slots)
    requires lists == if key in s.lists then s.lists[key := ListOf(lists, key)] else s.lists
    ensures slots == {slot} && Abandoned(s, slot) ==> PurgeSlot(s, s.(lists := lists), slot, key)
    ensures (clean, key) in s.marks && slots == s.marks[(clean, key)].slots ==>
              PurgeZero(s, s.(lists := lists, marks := s.marks - {(clean, key)}), clean, key)
    ensures slots == {slot} && PassedOver(s, clean, key, slot, i, j) ==>
              Supersede(s, s.(lists := lists), clean, key, i, j)
  {
    OutsideOne(ListOf(s.lists, key), slot);
    if key !in s.lists { assert Store(s.lists, key, []) == s.lists; }
  }

  /** Version `i` is cached and at `slot`, version `j` at a later root, and both within the bound of the flush. */
  ghost predicate PassedOver<V>(s: State<V>, flush: CleanId, key: Pubkey, slot: Slot, i: nat, j: nat) {
    && flush in s.cleans && s.cleans[flush].Some? && key in s.lists && i < |s.lists[key]| && j < |s.lists[key]|
    && var list := s.lists[key];
       && list[i].slot == slot && list[i].info.cached && slot in s.roots && list[j].slot in s.roots
       && slot < list[j].slot <= s.cleans[flush].value
  }

  lemma {:induction false} UpsertIsStep<V>(s: State<V>, lists: map<Pubkey, seq<Item<V>>>, b: BankId, key: Pubkey)
    requires Live(s.tree, b) && !s.tree.banks[b].frozen && lists == s.lists[key := ListOf(lists, key)]
    requires UniqueSlots(ListOf(lists, key))
    requires var slot := s.tree.banks[b].slot;
             Others(ListOf(lists, key), slot, slot) == Others(ListOf(s.lists, key), slot, slot)
    ensures ScanProtocol.Upsert(s, s.(lists := lists), b, key, ListOf(lists, key))
  {
  }

  /** A removed bank was at the slot, and no live bank is. */
  ghost predicate Abandoned<V>(s: State<V>, slot: Slot) {
    && (exists b :: b in s.tree.removed && b in s.tree.banks && s.tree.banks[b].slot == slot)
    && forall c :: Live(s.tree, c) ==> s.tree.banks[c].slot != slot
  }

  /** The rooted entries up to a bound, in order. */
  method GetRootedEntries<V>(list: seq<Item<V>>, max: Option<Slot>, roots: set<Slot>) returns (rooted: seq<Item<V>>)
    ensures rooted == Filter(list, (x: Item<V>) => Sees(Query({}, max), roots, x.slot))
  {
    rooted := [];
    for i := 0 to |list|
      invariant rooted == Filter(list[..i], (x: Item<V>) => Sees(Query({}, max), roots, x.slot))
    {
      assert list[..i + 1][..i] == list[..i];
      if (max.Some? ==> list[i].slot <= max.value) && list[i].slot in roots {
        rooted := rooted + [list[i]];
      }
    }
    assert list[..|list|] == list;
  }

  /** All rooted slots up to the bound if the latest rooted version has zero lamports. */
  method ZeroSlots<V>(list: seq<Item<V>>, max: Option<Slot>, roots: set<Slot>) returns (slots: Option<set<Slot>>)
    ensures slots == if LatestIsZero(list, max, roots) then Some(RootedSlots(list, max, roots)) else None
  {
    var latest := LatestSlot(None, list, max, roots);
    LatestIsAnswer(list, Query({}, max), roots, latest);
    if latest.None? || !IsZero(list[latest.value]) {
      return None;
    }
    var rooted := GetRootedEntries(list, max, roots);
    var found := set i | 0 <= i < |rooted| :: rooted[i].slot;
    assert found == RootedSlots(list, max, roots) by { SlotsOfRooted(list, max, roots, rooted); }
    return Some(found);
  }

  lemma {:induction false} SlotsOfRooted<V>(list: seq<Item<V>>, max: Option<Slot>, roots: set<Slot>,
                                            rooted: seq<Item<V>>)
    requires rooted == Filter(list, (x: Item<V>) => Sees(Query({}, max), roots, x.slot))
    ensures (set i | 0 <= i < |rooted| :: rooted[i].slot) == RootedSlots(list, max, roots)
  {
    var keep := (x: Item<V>) => Sees(Query({}, max), roots, x.slot);
    forall i | 0 <= i < |rooted| ensures rooted[i].slot in RootedSlots(list, max, roots) {
      FilterMembers(list, keep, rooted[i]);
      var k :| 0 <= k < |list| && list[k] == rooted[i];
    }
    forall k | 0 <= k < |list| && keep(list[k])
      ensures exists i :: 0 <= i < |rooted| && rooted[i].slot == list[k].slot
    {
      FilterMembers(list, keep, list[k]);
      var i :| 0 <= i < |rooted| && rooted[i] == list[k];
    }
  }

  method PurgeList<V>(list: seq<Item<V>>, reclaims: seq<Item<V>>, maxClean: Option<Slot>, roots: set<Slot>,
                      maxRoot: Slot)
    returns (kept: seq<Item<V>>, reclaims': seq<Item<V>>, ghost newest: Slot)
    requires UniqueSlots(list)
    ensures IsNewestRoot(roots, list, maxClean, newest) && reclaims <= reclaims' && UniqueSlots(kept)
    ensures IsPurge(list, if maxClean.Some? then maxClean.value else maxRoot, newest, kept, reclaims'[|reclaims|..])
  {
    kept, reclaims', newest := PurgeOlderRootEntries(list, reclaims, maxClean, roots, maxRoot);
    ghost var bound := if maxClean.Some? then maxClean.value else maxRoot;
    FilterUnique(list, x => Keeps(bound, newest, x));
  }
}
