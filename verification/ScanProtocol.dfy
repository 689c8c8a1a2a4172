/**
 Scans of the accounts index while banks are made, rooted and removed, accounts are stored, moved
 and cleaned. A scan registers the greatest root when it starts; a clean takes its bound from the
 registered scans and from what is proposed when it starts, and purges pubkeys one at a time
 afterwards. Without either it has no bound, and every purge goes up to the greatest root of its
 moment. Zero-lamport accounts a clean marks first and takes out later. A flush of the write cache
 has a bound like a clean. Here are the steps and the invariant they keep.
 */
module ScanProtocol {
  import opened Common
  import opened SlotLists
  import opened ZeroPurges
  import opened Forks

  type ScanId = nat
  type CleanId = nat

  datatype Scan = Scan(bank: BankId, ancestors: set<Slot>, root: Slot)

  datatype State<V> = State(
    tree: Tree,
    lists: map<Pubkey, seq<Item<V>>>,
    roots: set<Slot>,
    ongoing: map<Slot, nat>,
    scans: map<ScanId, Scan>,
    cleans: map<CleanId, Option<Slot>>,
    marks: map<(CleanId, Pubkey), Mark>)

  // ---------- pieces of the index ----------

  function ListOf<V>(lists: map<Pubkey, seq<Item<V>>>, key: Pubkey): seq<Item<V>> {
    if key in lists then lists[key] else []
  }

  /** The slot list of `key` becomes `list`; a key with no entries leaves the index. */
  function Store<V>(lists: map<Pubkey, seq<Item<V>>>, key: Pubkey, list: seq<Item<V>>): map<Pubkey, seq<Item<V>>> {
    if list == [] then lists - {key} else lists[key := list]
  }

  function Register(ongoing: map<Slot, nat>, root: Slot): map<Slot, nat> {
    ongoing[root := (if root in ongoing then ongoing[root] else 0) + 1]
  }

  function Unregister(ongoing: map<Slot, nat>, root: Slot): map<Slot, nat>
    requires root in ongoing && ongoing[root] > 0
  {
    if ongoing[root] == 1 then ongoing - {root} else ongoing[root := ongoing[root] - 1]
  }

  /** The ancestors given to a scan are used only if the greatest root is one of them. */
  function EffectiveAncestors(ancestors: set<Slot>, maxRoot: Slot): set<Slot> {
    if maxRoot in ancestors then ancestors else {}
  }

  ghost predicate IsMinOngoing(ongoing: map<Slot, nat>, least: Option<Slot>) {
    match least
    case None => ongoing == map[]
    case Some(m) => m in ongoing && forall r :: r in ongoing ==> m <= r
  }

  function MaxCleanRoot(minScanRoot: Option<Slot>, proposed: Option<Slot>): (bound: Option<Slot>)
    ensures bound.None? <==> minScanRoot.None? && proposed.None?
    ensures bound == minScanRoot || bound == proposed
    ensures minScanRoot.Some? ==> bound.value <= minScanRoot.value
    ensures proposed.Some? ==> bound.value <= proposed.value
  {
    match (minScanRoot, proposed)
    case (None, None) => None
    case (Some(m), None) => Some(m)
    case (None, Some(p)) => Some(p)
    case (Some(m), Some(p)) => Some(Min(m, p))
  }

  // ---------- what a scan sees ----------

  function QueryOf(scan: Scan): Query {
    Query(scan.ancestors, Some(scan.root))
  }

  /** The slot and the account version the scan finds for `key`; where that version is stored is not part of it. */
  function View<V>(s: State<V>, scan: Scan, key: Pubkey): Option<(Slot, Version<V>)> {
    Seen(Answer(ListOf(s.lists, key), QueryOf(scan), s.roots))
  }

  function Seen<V>(a: Option<Item<V>>): Option<(Slot, Version<V>)> {
    if a.Some? then Some((a.value.slot, a.value.info.account)) else None
  }

  /** The account version alone. */
  function Found<V>(s: State<V>, scan: Scan, key: Pubkey): Option<Version<V>> {
    var view := View(s, scan, key);
    if view.Some? then Some(view.value.1) else None
  }

  // ---------- steps ----------

  datatype Step<V> =
    | DoNewBank(b: BankId, parent: BankId, slot: Slot, ancestors: set<Slot>)
    | DoFreeze(b: BankId)
    | DoAddRoot(b: BankId)
    | DoRemoveBanks(bs: set<BankId>)
    | DoPurgeSlot(slot: Slot, key: Pubkey)
    | DoUpsert(b: BankId, key: Pubkey, list: seq<Item<V>>)
    | DoRelocate(key: Pubkey, i: nat, cached: bool)
    | DoBeginScan(id: ScanId, b: BankId)
    | DoEndScan(id: ScanId)
    | DoMove(key: Pubkey, i: nat, to: Slot)
    | DoBeginClean(clean: CleanId, least: Option<Slot>, proposed: Option<Slot>)
    | DoClean(clean: CleanId, key: Pubkey, newest: Slot)
    | DoMarkZero(clean: CleanId, key: Pubkey)
    | DoPurgeZero(clean: CleanId, key: Pubkey)
    | DoEndClean(clean: CleanId)
    | DoSupersede(flush: CleanId, key: Pubkey, i: nat, j: nat)
    | DoDropRoot(slot: Slot)

  /** A live unfrozen bank stores an account: the list changes at the bank's slot only. */
  ghost predicate Upsert<V>(s: State<V>, s': State<V>, b: BankId, key: Pubkey, list: seq<Item<V>>) {
    && Live(s.tree, b) && !s.tree.banks[b].frozen
    && var slot := s.tree.banks[b].slot;
       && UniqueSlots(list) && Others(list, slot, slot) == Others(ListOf(s.lists, key), slot, slot)
       && s' == s.(lists := s.lists[key := list])
  }

  /** Flushing the cache or shrinking a storage rewrites where an existing version is. */
  ghost predicate Relocate<V>(s: State<V>, s': State<V>, key: Pubkey, i: nat, cached: bool) {
    && key in s.lists && i < |s.lists[key]|
    && var item := s.lists[key][i];
       s' == s.(lists := s.lists[key := s.lists[key][i := item.(info := item.info.(cached := cached))]])
  }

  /** The slot list becomes `list`; a key with no entries may stay until it is found to be dead. */
  ghost predicate Writes<V>(s: State<V>, s': State<V>, key: Pubkey, list: seq<Item<V>>) {
    s'.lists == Store(s.lists, key, list) || (key in s.lists && s'.lists == s.lists[key := list])
  }

  /** A removed bank's slot is purged from a list; the slot is not in use again yet. */
  ghost predicate PurgeSlot<V>(s: State<V>, s': State<V>, slot: Slot, key: Pubkey) {
    && (exists b :: b in s.tree.removed && b in s.tree.banks && s.tree.banks[b].slot == slot)
    && (forall c :: Live(s.tree, c) ==> s.tree.banks[c].slot != slot)
    && s' == s.(lists := s'.lists) && Writes(s, s', key, Others(ListOf(s.lists, key), slot, slot))
  }

  /**
   Ancient packing writes an account to another slot. Both slots are alive roots that no scan is older
   than, and the entry passes no other entry of the pubkey. No clean is about to purge the pubkey.
   */
  ghost predicate Move<V>(s: State<V>, s': State<V>, key: Pubkey, i: nat, to: Slot) {
    && key in s.lists && i < |s.lists[key]| && (forall m :: m in s.marks ==> m.1 != key)
    && var list := s.lists[key];
       && list[i].slot in s.roots && to in s.roots && PassesNone(list, i, to)
       && (forall id :: id in s.scans ==> list[i].slot <= s.scans[id].root && to <= s.scans[id].root)
       && s' == s.(lists := s.lists[key := Moved(list, i, to)])
  }

  ghost predicate BeginScan<V>(s: State<V>, s': State<V>, id: ScanId, b: BankId) {
    && id !in s.scans && b in s.tree.banks && s.tree.banks[b].frozen && s.tree.root in s.tree.banks
    && var root := RootSlot(s.tree);
       s' == s.(ongoing := Register(s.ongoing, root),
                scans := s.scans[id := Scan(b, EffectiveAncestors(s.tree.banks[b].ancestors, root), root)])
  }

  ghost predicate EndScan<V>(s: State<V>, s': State<V>, id: ScanId) {
    && id in s.scans && s.scans[id].root in s.ongoing && s.ongoing[s.scans[id].root] > 0
    && s' == s.(ongoing := Unregister(s.ongoing, s.scans[id].root), scans := s.scans - {id})
  }

  ghost predicate BeginClean<V>(s: State<V>, s': State<V>, clean: CleanId, least: Option<Slot>,
                                proposed: Option<Slot>) {
    && clean !in s.cleans && IsMinOngoing(s.ongoing, least)
    && s.tree.root in s.tree.banks && (proposed.Some? ==> proposed.value <= RootSlot(s.tree))
    && s' == s.(cleans := s.cleans[clean := MaxCleanRoot(least, proposed)])
  }

  /** Up to where a clean purges now. */
  function BoundOf<V>(s: State<V>, clean: CleanId): Slot
    requires clean in s.cleans && s.tree.root in s.tree.banks
  {
    if s.cleans[clean].Some? then s.cleans[clean].value else RootSlot(s.tree)
  }

  ghost predicate Clean<V>(s: State<V>, s': State<V>, clean: CleanId, key: Pubkey, newest: Slot) {
    && clean in s.cleans && s.tree.root in s.tree.banks
    && var list := ListOf(s.lists, key);
       && IsNewestRoot(s.roots, list, s.cleans[clean], newest)
       && s' == s.(lists := Store(s.lists, key, Kept(list, BoundOf(s, clean), newest)))
  }

  /** A clean reads that the latest rooted version of the pubkey has zero lamports. */
  ghost predicate MarkZero<V>(s: State<V>, s': State<V>, clean: CleanId, key: Pubkey) {
    && clean in s.cleans && s.tree.root in s.tree.banks
    && var list, max := ListOf(s.lists, key), s.cleans[clean];
       && LatestIsZero(list, max, s.roots)
       && s' == s.(marks := s.marks[(clean, key) := Mark(RootedSlots(list, max, s.roots), BoundOf(s, clean))])
  }

  /** It drops what is at the marked slots. */
  ghost predicate PurgeZero<V>(s: State<V>, s': State<V>, clean: CleanId, key: Pubkey) {
    && (clean, key) in s.marks && s' == s.(lists := s'.lists, marks := s.marks - {(clean, key)})
    && Writes(s, s', key, Outside(ListOf(s.lists, key), s.marks[(clean, key)].slots))
  }

  /** A clean that ends takes its marks with it. */
  ghost predicate EndClean<V>(s: State<V>, s': State<V>, clean: CleanId) {
    && clean in s.cleans
    && s' == s.(cleans := s.cleans - {clean}, marks := map m | m in s.marks && m.0 != clean :: s.marks[m])
  }

  /** A flush drops a cached version for one at a later root, both not above its bound, instead of writing it. */
  ghost predicate Supersede<V>(s: State<V>, s': State<V>, flush: CleanId, key: Pubkey, i: nat, j: nat) {
    && flush in s.cleans && s.cleans[flush].Some? && key in s.lists && i < |s.lists[key]| && j < |s.lists[key]|
    && var list := s.lists[key];
       && list[i].info.cached && list[i].slot in s.roots && list[j].slot in s.roots
       && list[i].slot < list[j].slot <= s.cleans[flush].value
       && s' == s.(lists := s'.lists) && Writes(s, s', key, Others(list, list[i].slot, list[i].slot))
  }

  /** A root older than the greatest one is forgotten when no entry is left at its slot. */
  ghost predicate DropRoot<V>(s: State<V>, s': State<V>, slot: Slot) {
    && !Occupied(s.lists, slot) && s.tree.root in s.tree.banks && slot != RootSlot(s.tree)
    && s' == s.(roots := s.roots - {slot})
  }

  ghost predicate Occupied<V>(lists: map<Pubkey, seq<Item<V>>>, slot: Slot) {
    exists key :: key in lists && HasEntry(lists[key], slot)
  }

  ghost predicate Next<V>(s: State<V>, step: Step<V>, s': State<V>) {
    match step
    case DoNewBank(b, parent, slot, ancestors) =>
      NewBank(s.tree, s'.tree, b, parent, slot, ancestors) && s' == s.(tree := s'.tree)
    case DoFreeze(b) => Freeze(s.tree, s'.tree, b) && s' == s.(tree := s'.tree)
    case DoAddRoot(b) =>
      MoveRoot(s.tree, s'.tree, b) && s' == s.(tree := s'.tree, roots := s.roots + {s.tree.banks[b].slot})
    case DoRemoveBanks(bs) => Remove(s.tree, s'.tree, bs) && s' == s.(tree := s'.tree)
    case DoPurgeSlot(slot, key) => PurgeSlot(s, s', slot, key)
    case DoUpsert(b, key, list) => Upsert(s, s', b, key, list)
    case DoRelocate(key, i, cached) => Relocate(s, s', key, i, cached)
    case DoMove(key, i, to) => Move(s, s', key, i, to)
    case DoBeginScan(id, b) => BeginScan(s, s', id, b)
    case DoEndScan(id) => EndScan(s, s', id)
    case DoBeginClean(clean, least, proposed) => BeginClean(s, s', clean, least, proposed)
    case DoClean(clean, key, newest) => Clean(s, s', clean, key, newest)
    case DoMarkZero(clean, key) => MarkZero(s, s', clean, key)
    case DoPurgeZero(clean, key) => PurgeZero(s, s', clean, key)
    case DoEndClean(clean) => EndClean(s, s', clean)
    case DoSupersede(flush, key, i, j) => Supersede(s, s', flush, key, i, j)
    case DoDropRoot(slot) => DropRoot(s, s', slot)
  }

  /** Startup from a snapshot: one frozen bank, whose slot is the greatest of the roots. */
  ghost predicate Init<V>(s: State<V>) {
    && s.tree.root in s.tree.banks
    && s.ongoing == map[] && s.scans == map[] && s.cleans == map[] && s.marks == map[]
    && var slot := RootSlot(s.tree);
       && s.tree == Tree(map[s.tree.root := Bank(slot, true, {slot}, {s.tree.root})], {}, s.tree.root)
       && slot in s.roots && (forall r :: r in s.roots ==> r <= slot) && ListsOk(s)
  }

  /** No slot list has two entries at one slot. */
  ghost predicate ListsOk<V>(s: State<V>) {
    forall key :: key in s.lists ==> UniqueSlots(s.lists[key])
  }

  // ---------- the invariant ----------

  /** Slot `a` is an alive root or nothing is stored at it. */
  ghost predicate Settled<V>(s: State<V>, a: Slot) {
    a in s.roots || !Occupied(s.lists, a)
  }

  /** Root `r` is of the rooted lineage, or older than every bank. */
  ghost predicate Accounted(t: Tree, r: Slot)
    requires t.root in t.banks
  {
    AtSlot(t, t.banks[t.root].lineage, r) || forall b :: b in t.banks ==> r < t.banks[b].slot
  }

  ghost predicate RootsOk<V>(s: State<V>)
    requires s.tree.root in s.tree.banks
  {
    && RootSlot(s.tree) in s.roots
    && (forall a {:trigger Settled(s, a)} :: AtSlot(s.tree, s.tree.banks[s.tree.root].lineage, a) ==> Settled(s, a))
    && (forall r {:trigger Accounted(s.tree, r)} :: r in s.roots ==> Accounted(s.tree, r))
  }

  /** What a live scan sees through its ancestors up to its root is rooted. */
  ghost predicate Protected<V>(s: State<V>, scan: Scan) {
    forall a {:trigger Settled(s, a)} :: a in scan.ancestors && a <= scan.root ==> Settled(s, a)
  }

  ghost predicate ScanOk<V>(s: State<V>, scan: Scan)
    requires s.tree.root in s.tree.banks
  {
    && scan.bank in s.tree.banks && s.tree.banks[scan.bank].frozen && scan.root <= RootSlot(s.tree)
    && scan.ancestors <= s.tree.banks[scan.bank].ancestors
    && (Live(s.tree, scan.bank) ==> Protected(s, scan))
  }

  ghost function ScansAt(scans: map<ScanId, Scan>, root: Slot): set<ScanId> {
    set id | id in scans && scans[id].root == root
  }

  /** The registered count of a root is the number of scans that registered it, and never zero. */
  ghost predicate Counted(ongoing: map<Slot, nat>, scans: map<ScanId, Scan>, root: Slot) {
    if root in ongoing then ongoing[root] == |ScansAt(scans, root)| > 0 else ScansAt(scans, root) == {}
  }

  ghost predicate CountsOk(ongoing: map<Slot, nat>, scans: map<ScanId, Scan>) {
    forall root {:trigger Counted(ongoing, scans, root)} :: Counted(ongoing, scans, root)
  }

  ghost predicate CleansOk<V>(s: State<V>)
    requires s.tree.root in s.tree.banks
  {
    forall c :: c in s.cleans && s.cleans[c].Some? ==>
      s.cleans[c].value <= RootSlot(s.tree) && forall id :: id in s.scans ==> s.cleans[c].value <= s.scans[id].root
  }

  ghost predicate StateInv<V>(s: State<V>) {
    && Inv(s.tree) && RootsOk(s) && CleansOk(s) && CountsOk(s.ongoing, s.scans) && ListsOk(s)
    && (forall id {:trigger ScanOk(s, s.scans[id])} :: id in s.scans ==> ScanOk(s, s.scans[id]))
  }

  // ---------- startup ----------

  lemma {:induction false} InitInv<V>(s: State<V>)
    requires Init(s)
    ensures StateInv(s)
  {
    var t, slot := s.tree, RootSlot(s.tree);
    assert AtSlot(t, {t.root}, slot);
    assert BankOk(t, t.root) && Nested(t, t.root, t.root) && SeesSinceRoot(t, t.root) && LiveOk(t, t.root);
    forall r | r in s.roots ensures Accounted(t, r) { }
    forall root ensures Counted(s.ongoing, s.scans, root) { assert ScansAt(s.scans, root) == {}; }
  }

  // ---------- steps that change lists or forget roots ----------

  /** Slots settled before, apart from `except`, are settled after. */
  ghost predicate Carries<V>(s: State<V>, s': State<V>, except: set<Slot>) {
    forall a {:trigger Settled(s', a)} :: a !in except && Settled(s, a) ==> Settled(s', a)
  }

  /** `slot` is of no concern to the root or to any live scan. */
  ghost predicate Free<V>(s: State<V>, slot: Slot)
    requires s.tree.root in s.tree.banks
  {
    && !AtSlot(s.tree, s.tree.banks[s.tree.root].lineage, slot)
    && forall id :: id in s.scans && Live(s.tree, s.scans[id].bank) ==> slot !in s.scans[id].ancestors
  }

  lemma {:induction false} ListStepKeeps<V>(s: State<V>, s': State<V>, except: set<Slot>)
    requires StateInv(s) && s' == s.(lists := s'.lists, roots := s'.roots, marks := s'.marks)
    requires s'.roots <= s.roots && RootSlot(s.tree) in s'.roots && Carries(s, s', except)
    requires (forall a :: a in except ==> Free(s, a)) && ListsOk(s')
    ensures StateInv(s')
  {
    forall a | AtSlot(s.tree, s.tree.banks[s.tree.root].lineage, a) ensures Settled(s', a) { assert Settled(s, a); }
    forall r | r in s'.roots ensures Accounted(s.tree, r) { }
    forall id | id in s'.scans ensures ScanOk(s', s'.scans[id]) {
      var scan := s.scans[id];
      assert ScanOk(s, scan);
      if Live(s.tree, scan.bank) {
        forall a | a in scan.ancestors && a <= scan.root ensures Settled(s', a) { assert Settled(s, a); }
      }
    }
  }

  /** Every entry of the new list is at a slot of the old list or at `slot`. */
  lemma {:induction false} StoreCarries<V>(s: State<V>, s': State<V>, key: Pubkey, list: seq<Item<V>>,
                                           except: set<Slot>)
    requires s'.roots == s.roots
    requires s'.lists == s.lists[key := list] || s'.lists == Store(s.lists, key, list)
    requires forall i :: 0 <= i < |list| && list[i].slot !in except ==> HasEntry(ListOf(s.lists, key), list[i].slot)
    ensures Carries(s, s', except)
  {
    forall a | a !in except && Settled(s, a) ensures Settled(s', a) {
      if Occupied(s'.lists, a) {
        var k :| k in s'.lists && HasEntry(s'.lists[k], a);
        if k == key {
          assert HasEntry(ListOf(s.lists, key), a);
        } else {
          assert HasEntry(s.lists[k], a);
        }
        assert Occupied(s.lists, a);
      }
    }
  }

  lemma {:induction false} FilteredEntries<V>(list: seq<Item<V>>, keep: Item<V> -> bool)
    ensures forall i :: 0 <= i < |Filter(list, keep)| ==> HasEntry(list, Filter(list, keep)[i].slot)
  {
    var f := Filter(list, keep);
    forall i | 0 <= i < |f| ensures HasEntry(list, f[i].slot) {
      FilterMembers(list, keep, f[i]);
      var k :| 0 <= k < |list| && list[k] == f[i];
    }
  }

  /** Entries are taken out of one list. */
  lemma {:induction false} FilterStepKeeps<V>(s: State<V>, s': State<V>, key: Pubkey, keep: Item<V> -> bool)
    requires StateInv(s) && s' == s.(lists := s'.lists, marks := s'.marks)
    requires Writes(s, s', key, Filter(ListOf(s.lists, key), keep))
    ensures StateInv(s')
  {
    var list := ListOf(s.lists, key);
    FilteredEntries(list, keep);
    FilterUnique(list, keep);
    StoreCarries(s, s', key, Filter(list, keep), {});
    ListStepKeeps(s, s', {});
  }

  lemma {:induction false} PurgeSlotKeeps<V>(s: State<V>, s': State<V>, slot: Slot, key: Pubkey)
    requires StateInv(s) && PurgeSlot(s, s', slot, key)
    ensures StateInv(s')
  {
    FilterStepKeeps(s, s', key, (x: Item<V>) => x.slot != slot && x.slot != slot);
  }

  lemma {:induction false} CleanKeeps<V>(s: State<V>, s': State<V>, clean: CleanId, key: Pubkey, newest: Slot)
    requires StateInv(s) && Clean(s, s', clean, key, newest)
    ensures StateInv(s')
  {
    var bound := BoundOf(s, clean);
    FilterStepKeeps(s, s', key, x => Keeps(bound, newest, x));
  }

  lemma {:induction false} PurgeZeroKeeps<V>(s: State<V>, s': State<V>, clean: CleanId, key: Pubkey)
    requires StateInv(s) && PurgeZero(s, s', clean, key)
    ensures StateInv(s')
  {
    var slots := s.marks[(clean, key)].slots;
    FilterStepKeeps(s, s', key, (x: Item<V>) => x.slot !in slots);
  }

  lemma {:induction false} SupersedeKeeps<V>(s: State<V>, s': State<V>, flush: CleanId, key: Pubkey, i: nat, j: nat)
    requires StateInv(s) && Supersede(s, s', flush, key, i, j)
    ensures StateInv(s')
  {
    var slot := s.lists[key][i].slot;
    FilterStepKeeps(s, s', key, (x: Item<V>) => x.slot != slot && x.slot != slot);
  }

  lemma {:induction false} RelocateKeeps<V>(s: State<V>, s': State<V>, key: Pubkey, i: nat, cached: bool)
    requires StateInv(s) && Relocate(s, s', key, i, cached)
    ensures StateInv(s')
  {
    var list := s'.lists[key];
    forall k | 0 <= k < |list| ensures HasEntry(s.lists[key], list[k].slot) {
      assert s.lists[key][k].slot == list[k].slot;
    }
    StoreCarries(s, s', key, list, {});
    ListStepKeeps(s, s', {});
  }

  lemma {:induction false} MoveKeeps<V>(s: State<V>, s': State<V>, key: Pubkey, i: nat, to: Slot)
    requires StateInv(s) && Move(s, s', key, i, to)
    ensures StateInv(s')
  {
    forall a | Settled(s, a) ensures Settled(s', a) {
    }
    ListStepKeeps(s, s', {});
  }

  lemma {:induction false} DropRootKeeps<V>(s: State<V>, s': State<V>, slot: Slot)
    requires StateInv(s) && DropRoot(s, s', slot)
    ensures StateInv(s')
  {
    ListStepKeeps(s, s', {});
  }

  /** A bank that can still be written to is at a slot the root and the live scans do not look at. */
  lemma {:induction false} WriterIsFree<V>(s: State<V>, b: BankId)
    requires StateInv(s) && Live(s.tree, b) && !s.tree.banks[b].frozen
    ensures Free(s, s.tree.banks[b].slot) && s.tree.banks[b].slot !in s.roots
  {
    var t, slot := s.tree, s.tree.banks[b].slot;
    if AtSlot(t, t.banks[t.root].lineage, slot) {
      FrozenLineage(t, t.root, slot, b);
    }
    forall id | id in s.scans && Live(t, s.scans[id].bank) ensures slot !in s.scans[id].ancestors {
      var scan := s.scans[id];
      assert ScanOk(s, scan) && BankOk(t, scan.bank);
      if slot in scan.ancestors {
        assert AtSlot(t, t.banks[scan.bank].lineage, slot);
        FrozenLineage(t, scan.bank, slot, b);
      }
    }
    assert slot in s.roots ==> Accounted(t, slot);
  }

  lemma {:induction false} NoLiveBankAt(t: Tree, b: BankId, slot: Slot)
    requires Inv(t) && Live(t, b) && forall c :: Live(t, c) ==> t.banks[c].slot != slot
    ensures !AtSlot(t, t.banks[b].lineage, slot)
  {
    assert LiveOk(t, b);
    forall x | x in t.banks[b].lineage && x in t.banks ensures t.banks[x].slot != slot {
      assert Live(t, x);
    }
  }

  /** A slot of which only removed banks are is no root. */
  lemma {:induction false} AbandonedIsNoRoot<V>(s: State<V>, b: BankId, slot: Slot)
    requires StateInv(s) && b in s.tree.removed && b in s.tree.banks && s.tree.banks[b].slot == slot
    requires forall c :: Live(s.tree, c) ==> s.tree.banks[c].slot != slot
    ensures slot !in s.roots
  {
    NoLiveBankAt(s.tree, s.tree.root, slot);
    assert slot in s.roots ==> Accounted(s.tree, slot);
  }

  /** All alive roots are at or below the greatest root, so a purge without a bound goes over all of them. */
  lemma {:induction false} CleanHasBound<V>(s: State<V>, clean: CleanId)
    requires StateInv(s) && clean in s.cleans
    ensures IsBound(s.cleans[clean], BoundOf(s, clean), s.roots)
  {
    var t := s.tree;
    assert BankOk(t, t.root);
    forall r | r in s.roots ensures r <= RootSlot(t) {
      assert Accounted(t, r);
    }
  }

  lemma {:induction false} UpsertKeeps<V>(s: State<V>, s': State<V>, b: BankId, key: Pubkey, list: seq<Item<V>>)
    requires StateInv(s) && Upsert(s, s', b, key, list)
    ensures StateInv(s')
  {
    var slot, before := s.tree.banks[b].slot, ListOf(s.lists, key);
    WriterIsFree(s, b);
    var others := (x: Item<V>) => x.slot != slot && x.slot != slot;
    FilteredEntries(before, others);
    forall i | 0 <= i < |list| && list[i].slot != slot ensures HasEntry(before, list[i].slot) {
      FilterMembers(list, others, list[i]);
      var k :| 0 <= k < |Others(before, slot, slot)| && Others(before, slot, slot)[k] == list[i];
    }
    StoreCarries(s, s', key, list, {slot});
    ListStepKeeps(s, s', {slot});
  }

  // ---------- steps that change the tree ----------

  /** Banks are added, frozen or removed; the root stays and so do the old banks' slots and lineages. */
  ghost predicate Grows(t: Tree, t': Tree) {
    && t.root in t.banks && t'.root == t.root && t.banks.Keys <= t'.banks.Keys && t.removed <= t'.removed
    && (forall x :: x in t.banks ==> t'.banks[x] == t.banks[x] || t'.banks[x] == t.banks[x].(frozen := true))
    && (forall x :: x in t'.banks && x !in t.banks ==> t'.banks[x].slot > RootSlot(t))
  }

  lemma {:induction false} SameSlots(t: Tree, t': Tree, lineage: set<BankId>, a: Slot)
    requires t.banks.Keys <= t'.banks.Keys && lineage <= t.banks.Keys
    requires forall x :: x in t.banks ==> t'.banks[x].slot == t.banks[x].slot
    ensures AtSlot(t', lineage, a) <==> AtSlot(t, lineage, a)
  {
  }

  lemma {:induction false} TreeStepKeeps<V>(s: State<V>, s': State<V>)
    requires StateInv(s) && s' == s.(tree := s'.tree) && Inv(s'.tree) && Grows(s.tree, s'.tree)
    ensures StateInv(s')
  {
    var t, t' := s.tree, s'.tree;
    assert BankOk(t, t.root);
    var lineage := t.banks[t.root].lineage;
    forall a | AtSlot(t', lineage, a) ensures Settled(s', a) {
      SameSlots(t, t', lineage, a);
      assert Settled(s, a);
    }
    forall r | r in s'.roots ensures Accounted(t', r) {
      assert Accounted(t, r);
      SameSlots(t, t', lineage, r);
      assert AtSlot(t, lineage, r) || r < RootSlot(t);
    }
    forall id | id in s'.scans ensures ScanOk(s', s'.scans[id]) {
      var scan := s.scans[id];
      assert ScanOk(s, scan);
      if Live(t', scan.bank) {
        forall a | a in scan.ancestors && a <= scan.root ensures Settled(s', a) { assert Settled(s, a); }
      }
    }
  }

  lemma {:induction false} AddRootKeeps<V>(s: State<V>, s': State<V>, b: BankId)
    requires StateInv(s) && Next(s, DoAddRoot(b), s')
    ensures StateInv(s')
  {
    var t, t' := s.tree, s'.tree;
    MoveRootKeeps(t, t', b);
    assert BankOk(t, b) && Nested(t, b, t.root);
    forall a | AtSlot(t', t'.banks[b].lineage, a) ensures Settled(s', a) {
      var x :| x in t'.banks[b].lineage && x in t'.banks && t'.banks[x].slot == a;
      if t.banks[x].slot <= RootSlot(t) {
        assert AtSlot(t, t.banks[t.root].lineage, a);
        assert Settled(s, a);
      }
    }
    forall r | r in s'.roots ensures Accounted(t', r) {
      AccountedAfter(s, s', b, r);
    }
    forall id | id in s'.scans ensures ScanOk(s', s'.scans[id]) {
      var scan := s.scans[id];
      assert ScanOk(s, scan);
      if Live(t', scan.bank) {
        forall a | a in scan.ancestors && a <= scan.root ensures Settled(s', a) { assert Settled(s, a); }
      }
    }
  }

  lemma {:induction false} AccountedAfter<V>(s: State<V>, s': State<V>, b: BankId, r: Slot)
    requires StateInv(s) && Next(s, DoAddRoot(b), s') && r in s'.roots
    ensures Accounted(s'.tree, r)
  {
    var t, t' := s.tree, s'.tree;
    assert BankOk(t, b) && Nested(t, b, t.root);
    if r in s.roots {
      assert Accounted(t, r);
      if AtSlot(t, t.banks[t.root].lineage, r) {
        var x :| x in t.banks[t.root].lineage && x in t.banks && t.banks[x].slot == r;
        assert x in t'.banks[b].lineage && t'.banks[x].slot == r;
      }
    } else {
      assert b in t'.banks[b].lineage && t'.banks[b].slot == r;
    }
  }

  // ---------- steps of scans and cleans ----------

  lemma {:induction false} RegisterCounts(ongoing: map<Slot, nat>, scans: map<ScanId, Scan>, id: ScanId, scan: Scan)
    requires CountsOk(ongoing, scans) && id !in scans
    ensures CountsOk(Register(ongoing, scan.root), scans[id := scan])
  {
    var ongoing', scans' := Register(ongoing, scan.root), scans[id := scan];
    forall root ensures Counted(ongoing', scans', root) {
      assert Counted(ongoing, scans, root);
      assert ScansAt(scans', root) == ScansAt(scans, root) + (if root == scan.root then {id} else {});
    }
  }

  lemma {:induction false} UnregisterCounts(ongoing: map<Slot, nat>, scans: map<ScanId, Scan>, id: ScanId)
    requires CountsOk(ongoing, scans) && id in scans
    ensures scans[id].root in ongoing && ongoing[scans[id].root] > 0
    ensures CountsOk(Unregister(ongoing, scans[id].root), scans - {id})
  {
    var r := scans[id].root;
    assert Counted(ongoing, scans, r) && id in ScansAt(scans, r);
    forall root ensures Counted(Unregister(ongoing, r), scans - {id}, root) {
      assert Counted(ongoing, scans, root);
      UnregisterCount(ongoing, scans, id, root);
    }
  }

  lemma {:induction false} UnregisterCount(ongoing: map<Slot, nat>, scans: map<ScanId, Scan>, id: ScanId, root: Slot)
    requires id in scans && scans[id].root in ongoing && ongoing[scans[id].root] > 0 && Counted(ongoing, scans, root)
    ensures Counted(Unregister(ongoing, scans[id].root), scans - {id}, root)
  {
    var before, after := ScansAt(scans, root), ScansAt(scans - {id}, root);
    if root == scans[id].root {
      assert id in before && after == before - {id};
    } else {
      assert after == before;
    }
  }

  /** The registered roots bound every scan, so the least of them does. */
  lemma {:induction false} MinBoundsScans(ongoing: map<Slot, nat>, scans: map<ScanId, Scan>, least: Option<Slot>,
                                          id: ScanId)
    requires CountsOk(ongoing, scans) && IsMinOngoing(ongoing, least) && id in scans
    ensures least.Some? && least.value <= scans[id].root
  {
    assert Counted(ongoing, scans, scans[id].root) && id in ScansAt(scans, scans[id].root);
  }

  lemma {:induction false} LeastIsRooted<V>(s: State<V>, least: Slot)
    requires StateInv(s) && least in s.ongoing
    ensures least <= RootSlot(s.tree)
  {
    assert Counted(s.ongoing, s.scans, least);
    var id :| id in ScansAt(s.scans, least);
    assert ScanOk(s, s.scans[id]);
  }

  lemma {:induction false} BeginScanKeeps<V>(s: State<V>, s': State<V>, id: ScanId, b: BankId)
    requires StateInv(s) && BeginScan(s, s', id, b)
    ensures StateInv(s')
  {
    var t, root := s.tree, RootSlot(s.tree);
    var scan := s'.scans[id];
    RegisterCounts(s.ongoing, s.scans, id, scan);
    forall a | Settled(s, a) ensures Settled(s', a) { }
    forall a | AtSlot(t, t.banks[t.root].lineage, a) ensures Settled(s', a) { assert Settled(s, a); }
    forall i | i in s'.scans ensures ScanOk(s', s'.scans[i]) {
      if i != id {
        assert ScanOk(s, s.scans[i]);
        if Live(t, s.scans[i].bank) { SameProtection(s, s', s.scans[i]); }
      } else if Live(t, b) {
        forall a | a in scan.ancestors && a <= root ensures Settled(s', a) {
          OldAncestorsAreRooted(t, b, a);
          assert Settled(s, a);
        }
      }
    }
  }

  lemma {:induction false} SameProtection<V>(s: State<V>, s': State<V>, scan: Scan)
    requires s'.lists == s.lists && s'.roots == s.roots && Protected(s, scan)
    ensures Protected(s', scan)
  {
    forall a | a in scan.ancestors && a <= scan.root ensures Settled(s', a) { assert Settled(s, a); }
  }

  /** Ending scans, and beginning or ending cleans, change nothing that is stored. */
  lemma {:induction false} QuietStepKeeps<V>(s: State<V>, s': State<V>)
    requires StateInv(s) && s' == s.(ongoing := s'.ongoing, scans := s'.scans, cleans := s'.cleans, marks := s'.marks)
    requires CountsOk(s'.ongoing, s'.scans) && CleansOk(s')
    requires forall i :: i in s'.scans ==> i in s.scans && s'.scans[i] == s.scans[i]
    ensures StateInv(s')
  {
    var t := s.tree;
    forall a | AtSlot(t, t.banks[t.root].lineage, a) ensures Settled(s', a) { assert Settled(s, a); }
    forall i | i in s'.scans ensures ScanOk(s', s'.scans[i]) {
      assert ScanOk(s, s.scans[i]);
      if Live(t, s.scans[i].bank) { SameProtection(s, s', s.scans[i]); }
    }
  }

  lemma {:induction false} BeginCleanKeeps<V>(s: State<V>, s': State<V>, clean: CleanId, least: Option<Slot>,
                                              proposed: Option<Slot>)
    requires StateInv(s) && BeginClean(s, s', clean, least, proposed)
    ensures StateInv(s')
  {
    forall id | id in s.scans ensures least.Some? && least.value <= s.scans[id].root {
      MinBoundsScans(s.ongoing, s.scans, least, id);
    }
    if least.Some? { LeastIsRooted(s, least.value); }
    QuietStepKeeps(s, s');
  }

  /** A bank is made, frozen, rooted or removed. */
  predicate IsBankStep<V>(step: Step<V>) {
    step.DoNewBank? || step.DoFreeze? || step.DoAddRoot? || step.DoRemoveBanks?
  }

  /** A scan or a clean begins, ends or reads. */
  predicate IsQuietStep<V>(step: Step<V>) {
    step.DoBeginScan? || step.DoEndScan? || step.DoBeginClean? || step.DoMarkZero? || step.DoEndClean?
  }

  lemma {:induction false} BankStepKeeps<V>(s: State<V>, step: Step<V>, s': State<V>)
    requires StateInv(s) && Next(s, step, s') && IsBankStep(step)
    ensures StateInv(s')
  {
    match step
    case DoNewBank(b, parent, slot, ancestors) =>
      NewBankKeeps(s.tree, s'.tree, b, parent, slot, ancestors);
      assert BankOk(s.tree, parent);
      TreeStepKeeps(s, s');
    case DoFreeze(b) => FreezeKeeps(s.tree, s'.tree, b); TreeStepKeeps(s, s');
    case DoAddRoot(b) => AddRootKeeps(s, s', b);
    case DoRemoveBanks(bs) => RemoveKeeps(s.tree, s'.tree, bs); TreeStepKeeps(s, s');
  }

  lemma {:induction false} ScanStepKeeps<V>(s: State<V>, step: Step<V>, s': State<V>)
    requires StateInv(s) && Next(s, step, s') && IsQuietStep(step)
    ensures StateInv(s')
  {
    match step
    case DoBeginScan(id, b) => BeginScanKeeps(s, s', id, b);
    case DoEndScan(id) => UnregisterCounts(s.ongoing, s.scans, id); QuietStepKeeps(s, s');
    case DoBeginClean(clean, least, proposed) => BeginCleanKeeps(s, s', clean, least, proposed);
    case DoMarkZero(clean, key) => QuietStepKeeps(s, s');
    case DoEndClean(clean) => QuietStepKeeps(s, s');
  }

  lemma {:induction false} EntryStepKeeps<V>(s: State<V>, step: Step<V>, s': State<V>)
    requires StateInv(s) && Next(s, step, s') && !IsBankStep(step) && !IsQuietStep(step)
    ensures StateInv(s')
  {
    match step
    case DoPurgeSlot(slot, key) => PurgeSlotKeeps(s, s', slot, key);
    case DoUpsert(b, key, list) => UpsertKeeps(s, s', b, key, list);
    case DoRelocate(key, i, cached) => RelocateKeeps(s, s', key, i, cached);
    case DoMove(key, i, to) => MoveKeeps(s, s', key, i, to);
    case DoClean(clean, key, newest) => CleanKeeps(s, s', clean, key, newest);
    case DoPurgeZero(clean, key) => PurgeZeroKeeps(s, s', clean, key);
    case DoSupersede(flush, key, i, j) => SupersedeKeeps(s, s', flush, key, i, j);
    case DoDropRoot(slot) => DropRootKeeps(s, s', slot);
  }

  lemma {:induction false} NextKeeps<V>(s: State<V>, step: Step<V>, s': State<V>)
    requires StateInv(s) && Next(s, step, s')
    ensures StateInv(s')
  {
    if IsBankStep(step) {
      BankStepKeeps(s, step, s');
    } else if IsQuietStep(step) {
      ScanStepKeeps(s, step, s');
    } else {
      EntryStepKeeps(s, step, s');
    }
  }
}
