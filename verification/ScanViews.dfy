/**
 What a running scan sees of a pubkey, step by step. Main result: exactly which steps change it.
 */
module ScanViews {
  import opened Common
  import opened SlotLists
  import opened ZeroPurges
  import opened Forks
  import opened ScanProtocol
  import opened ScanMarks

  // ---------- steps that leave it as it is ----------

  lemma {:induction false} Relocated<V>(list: seq<Item<V>>, i: nat, cached: bool, q: Query, roots: set<Slot>)
    requires i < |list|
    ensures Seen(Answer(list[i := list[i].(info := list[i].info.(cached := cached))], q, roots)) ==
            Seen(Answer(list, q, roots))
  {
    var list' := list[i := list[i].(info := list[i].info.(cached := cached))];
    var n := |list| - 1;
    if i < n {
      assert list'[..n] == list[..n][i := list'[i]];
      Relocated(list[..n], i, cached, q, roots);
    } else {
      assert list'[..n] == list[..n];
    }
  }

  lemma {:induction false} AddRootView<V>(s: State<V>, s': State<V>, b: BankId, scan: Scan, key: Pubkey)
    requires StateInv(s) && Next(s, DoAddRoot(b), s') && ScanOk(s, scan)
    ensures View(s', scan, key) == View(s, scan, key)
  {
    assert BankOk(s.tree, b);
    SameSight(ListOf(s.lists, key), QueryOf(scan), s.roots, s'.roots);
  }

  lemma {:induction false} DropRootView<V>(s: State<V>, s': State<V>, slot: Slot, scan: Scan, key: Pubkey)
    requires DropRoot(s, s', slot)
    ensures View(s', scan, key) == View(s, scan, key)
  {
    var list := ListOf(s.lists, key);
    forall i | 0 <= i < |list| ensures list[i].slot != slot {
      if list[i].slot == slot { assert HasEntry(s.lists[key], slot); }
    }
    SameSight(list, QueryOf(scan), s.roots, s'.roots);
  }

  lemma {:induction false} UpsertView<V>(s: State<V>, s': State<V>, b: BankId, key: Pubkey, list: seq<Item<V>>,
                                         id: ScanId, k: Pubkey)
    requires StateInv(s) && Upsert(s, s', b, key, list) && id in s.scans && Live(s.tree, s.scans[id].bank)
    ensures View(s', s.scans[id], k) == View(s, s.scans[id], k)
  {
    WriterIsFree(s, b);
    var slot := s.tree.banks[b].slot;
    BlindToOthers(list, slot, slot, QueryOf(s.scans[id]), s.roots);
    BlindToOthers(ListOf(s.lists, key), slot, slot, QueryOf(s.scans[id]), s.roots);
  }

  lemma {:induction false} PurgeSlotView<V>(s: State<V>, s': State<V>, slot: Slot, key: Pubkey, id: ScanId, k: Pubkey)
    requires StateInv(s) && PurgeSlot(s, s', slot, key) && id in s.scans && Live(s.tree, s.scans[id].bank)
    ensures View(s', s.scans[id], k) == View(s, s.scans[id], k)
  {
    var t, scan := s.tree, s.scans[id];
    assert ScanOk(s, scan);
    assert BankOk(t, scan.bank);
    assert slot in scan.ancestors ==> AtSlot(t, t.banks[scan.bank].lineage, slot);
    assert slot in s.roots ==> Accounted(t, slot);
    NoLiveBankAt(t, scan.bank, slot);
    NoLiveBankAt(t, t.root, slot);
    BlindToOthers(ListOf(s.lists, key), slot, slot, QueryOf(scan), s.roots);
  }

  /** A version dropped for one at a later root that no scan is older than was not seen by any. */
  lemma {:induction false} SupersedeView<V>(s: State<V>, s': State<V>, flush: CleanId, k: Pubkey, i: nat, j: nat,
                                            id: ScanId, key: Pubkey)
    requires StateInv(s) && Supersede(s, s', flush, k, i, j) && id in s.scans
    ensures View(s', s.scans[id], key) == View(s, s.scans[id], key)
  {
    if k == key {
      var list, q := s.lists[key], QueryOf(s.scans[id]);
      var slot := list[i].slot;
      assert list[j] in list && Sees(q, s.roots, list[j].slot);
      AnswerIsVisible(list, q, s.roots);
      FilterAnswer(list, (x: Item<V>) => x.slot != slot && x.slot != slot, q, s.roots);
    }
  }

  // ---------- steps that may change it ----------

  /**
   The purge hides what the scan sees: it has no bound, and the entry seen is uncached, below the
   greatest root and not at the newest alive root of the pubkey.
   */
  ghost predicate Hides<V>(s: State<V>, step: Step<V>, id: ScanId, key: Pubkey) {
    && step.DoClean? && step.key == key && step.clean in s.cleans && s.cleans[step.clean].None?
    && id in s.scans && s.tree.root in s.tree.banks
    && DropsAnswer(ListOf(s.lists, key), RootSlot(s.tree), step.newest, QueryOf(s.scans[id]), s.roots)
  }

  /** The entry the scan sees moves to another slot. */
  ghost predicate Shifts<V>(s: State<V>, step: Step<V>, id: ScanId, key: Pubkey) {
    && step.DoMove? && step.key == key && key in s.lists && step.i < |s.lists[key]|
    && step.to != s.lists[key][step.i].slot
    && id in s.scans && Answer(s.lists[key], QueryOf(s.scans[id]), s.roots) == Some(s.lists[key][step.i])
  }

  /** The purge of a zero-lamport account takes out the entry the scan sees: it is at a marked slot. */
  ghost predicate Clears<V>(s: State<V>, step: Step<V>, id: ScanId, key: Pubkey) {
    && step.DoPurgeZero? && step.key == key && (step.clean, key) in s.marks && id in s.scans
    && var a := Answer(ListOf(s.lists, key), QueryOf(s.scans[id]), s.roots);
       a.Some? && a.value.slot in s.marks[(step.clean, key)].slots
  }

  /** A purge up to a root that the scan is not older than hides nothing. */
  lemma {:induction false} PurgeSpares<V>(s: State<V>, clean: CleanId, key: Pubkey, newest: Slot, id: ScanId)
    requires StateInv(s) && clean in s.cleans && id in s.scans && Live(s.tree, s.scans[id].bank)
    requires IsNewestRoot(s.roots, ListOf(s.lists, key), s.cleans[clean], newest)
             && BoundOf(s, clean) <= s.scans[id].root
    ensures !DropsAnswer(ListOf(s.lists, key), BoundOf(s, clean), newest, QueryOf(s.scans[id]), s.roots)
  {
    var scan, list := s.scans[id], ListOf(s.lists, key);
    assert ScanOk(s, scan);
    CleanHasBound(s, clean);
    PurgeChangesAnswer(list, s.cleans[clean], BoundOf(s, clean), newest, QueryOf(scan), s.roots);
    PurgeDropsAnswer(list, BoundOf(s, clean), newest, QueryOf(scan), s.roots);
    AnswerIsVisible(list, QueryOf(scan), s.roots);
    var a := Answer(list, QueryOf(scan), s.roots);
    if a.Some? {
      var i :| 0 <= i < |list| && list[i] == a.value;
      assert HasEntry(s.lists[key], a.value.slot);
      assert a.value.slot in scan.ancestors && a.value.slot <= scan.root ==> Settled(s, a.value.slot);
    }
  }

  /** A purge without a bound, while the root of the scan is the greatest root, hides nothing. */
  lemma {:induction false} CurrentRootIsSafe<V>(s: State<V>, step: Step<V>, s': State<V>, id: ScanId, key: Pubkey)
    requires StateInv(s) && Next(s, step, s') && step.DoClean? && id in s.scans && Live(s.tree, s.scans[id].bank)
    requires s.scans[id].root == RootSlot(s.tree)
    ensures !Hides(s, step, id, key)
  {
    if step.key == key && s.cleans[step.clean].None? { PurgeSpares(s, step.clean, key, step.newest, id); }
  }

  lemma {:induction false} CleanView<V>(s: State<V>, s': State<V>, clean: CleanId, k: Pubkey, newest: Slot, id: ScanId,
                                        key: Pubkey)
    requires StateInv(s) && Clean(s, s', clean, k, newest) && id in s.scans && Live(s.tree, s.scans[id].bank)
    ensures View(s', s.scans[id], key) != View(s, s.scans[id], key) <==> Hides(s, DoClean(clean, k, newest), id, key)
  {
    if k == key {
      var scan, bound, list := s.scans[id], BoundOf(s, clean), ListOf(s.lists, key);
      PurgeDropsAnswer(list, bound, newest, QueryOf(scan), s.roots);
      OtherAnswer(list, x => Keeps(bound, newest, x), QueryOf(scan), s.roots);
      if s.cleans[clean].Some? { PurgeSpares(s, clean, key, newest, id); }
    }
  }

  lemma {:induction false} MoveView<V>(s: State<V>, s': State<V>, k: Pubkey, i: nat, to: Slot, id: ScanId, key: Pubkey)
    requires Move(s, s', k, i, to) && id in s.scans
    ensures View(s', s.scans[id], key) != View(s, s.scans[id], key) <==> Shifts(s, DoMove(k, i, to), id, key)
    ensures Found(s', s.scans[id], key) == Found(s, s.scans[id], key)
  {
    if k == key { MoveKeepsAnswer(s.lists[key], i, to, QueryOf(s.scans[id]), s.roots); }
  }

  lemma {:induction false} RelocateView<V>(s: State<V>, s': State<V>, k: Pubkey, i: nat, cached: bool, scan: Scan,
                                           key: Pubkey)
    requires Relocate(s, s', k, i, cached)
    ensures View(s', scan, key) == View(s, scan, key)
  {
    if k == key { Relocated(s.lists[k], i, cached, QueryOf(scan), s.roots); }
  }

  lemma {:induction false} PurgeZeroView<V>(s: State<V>, s': State<V>, clean: CleanId, k: Pubkey, id: ScanId,
                                            key: Pubkey)
    requires StateInv(s) && PurgeZero(s, s', clean, k) && id in s.scans
    ensures View(s', s.scans[id], key) != View(s, s.scans[id], key) <==> Clears(s, DoPurgeZero(clean, k), id, key)
  {
    if k == key {
      var list, q, slots := ListOf(s.lists, key), QueryOf(s.scans[id]), s.marks[(clean, key)].slots;
      FilterAnswer(list, (x: Item<V>) => x.slot !in slots, q, s.roots);
      OtherAnswer(list, (x: Item<V>) => x.slot !in slots, q, s.roots);
    }
  }

  /** What a live scan sees through its ancestors up to its root is rooted. */
  lemma {:induction false} ScanIsSheltered<V>(s: State<V>, id: ScanId, key: Pubkey)
    requires StateInv(s) && id in s.scans && Live(s.tree, s.scans[id].bank)
    ensures Sheltered(ListOf(s.lists, key), QueryOf(s.scans[id]), s.roots)
  {
    var list, scan := ListOf(s.lists, key), s.scans[id];
    assert ScanOk(s, scan);
    forall x | x in list && x.slot in scan.ancestors && x.slot <= scan.root ensures x.slot in s.roots {
      var i :| 0 <= i < |list| && list[i] == x;
      assert Settled(s, x.slot) && HasEntry(s.lists[key], x.slot);
    }
  }

  /**
   When the mark was made up to a root that the scan is not older than, the purge changes what the scan
   sees exactly if that is at or below this root, and then the scan sees nothing any more.
   */
  lemma {:induction false} ClearsUpToBound<V>(s: State<V>, s': State<V>, clean: CleanId, id: ScanId, key: Pubkey)
    requires StateInv(s) && MarksOk(s) && PurgeZero(s, s', clean, key)
    requires id in s.scans && Live(s.tree, s.scans[id].bank) && s.marks[(clean, key)].top <= s.scans[id].root
    ensures var seen, top := View(s, s.scans[id], key), s.marks[(clean, key)].top;
            View(s', s.scans[id], key) == if seen.Some? && seen.value.0 <= top then None else seen
  {
    assert MarkOk(s, (clean, key));
    ScanIsSheltered(s, id, key);
    PurgeClearsAnswer(ListOf(s.lists, key), s.roots, s.marks[(clean, key)], QueryOf(s.scans[id]));
  }

  /** So it is for every clean with a bound. */
  lemma {:induction false} BoundedMarkIsLow<V>(s: State<V>, clean: CleanId, id: ScanId, key: Pubkey)
    requires StateInv(s) && MarksOk(s) && (clean, key) in s.marks && id in s.scans
    requires clean in s.cleans && s.cleans[clean].Some?
    ensures s.marks[(clean, key)].top == s.cleans[clean].value <= s.scans[id].root
  {
    assert MarkOk(s, (clean, key));
  }

  lemma {:induction false} RemovedStay<V>(s: State<V>, step: Step<V>, s': State<V>)
    requires Next(s, step, s')
    ensures s.tree.removed <= s'.tree.removed
  {
  }

  lemma {:induction false} ScanGoesOn<V>(s: State<V>, step: Step<V>, s': State<V>, id: ScanId)
    requires Next(s, step, s') && id in s.scans && id in s'.scans
    ensures s'.scans[id] == s.scans[id] && s.tree.removed <= s'.tree.removed
  {
  }

  lemma {:induction false} LastingView<V>(s: State<V>, step: Step<V>, s': State<V>, id: ScanId, key: Pubkey)
    requires StateInv(s) && Next(s, step, s') && id in s.scans && id in s'.scans && Live(s.tree, s.scans[id].bank)
    requires !step.DoMove? && !step.DoClean? && !step.DoPurgeZero?
    ensures View(s', s.scans[id], key) == View(s, s.scans[id], key)
  {
    match step
    case DoAddRoot(b) => assert ScanOk(s, s.scans[id]); AddRootView(s, s', b, s.scans[id], key);
    case DoPurgeSlot(slot, k) => PurgeSlotView(s, s', slot, k, id, key);
    case DoUpsert(b, k, list) => UpsertView(s, s', b, k, list, id, key);
    case DoRelocate(k, i, cached) => RelocateView(s, s', k, i, cached, s.scans[id], key);
    case DoSupersede(flush, k, i, j) => SupersedeView(s, s', flush, k, i, j, id, key);
    case DoDropRoot(slot) => DropRootView(s, s', slot, s.scans[id], key);
    case _ =>
  }

  /**
   Which steps change what a running scan of a live bank sees: exactly the purges that hide it, the
   purges of zero-lamport accounts that clear it and the moves that shift it. A move does not change
   the account version.
   */
  ghost predicate ViewRule<V>(s: State<V>, step: Step<V>, s': State<V>, id: ScanId, key: Pubkey)
    requires id in s.scans
  {
    var scan := s.scans[id];
    && (View(s', scan, key) != View(s, scan, key) <==>
        Hides(s, step, id, key) || Clears(s, step, id, key) || Shifts(s, step, id, key))
    && (!Hides(s, step, id, key) && !Clears(s, step, id, key) ==> Found(s', scan, key) == Found(s, scan, key))
  }

  lemma {:induction false} SameViewRule<V>(s: State<V>, step: Step<V>, s': State<V>, id: ScanId, key: Pubkey)
    requires id in s.scans && View(s', s.scans[id], key) == View(s, s.scans[id], key)
    requires !step.DoMove? && !step.DoClean? && !step.DoPurgeZero?
    ensures ViewRule(s, step, s', id, key)
  {
  }

  lemma {:induction false} ScanIsLive<V>(s: State<V>, id: ScanId)
    requires StateInv(s) && id in s.scans
    ensures Live(s.tree, s.scans[id].bank) <==> s.scans[id].bank !in s.tree.removed
  {
    assert ScanOk(s, s.scans[id]);
  }

  lemma {:induction false} ChangingView<V>(s: State<V>, step: Step<V>, s': State<V>, id: ScanId, key: Pubkey)
    requires StateInv(s) && Next(s, step, s') && id in s.scans && Live(s.tree, s.scans[id].bank)
    requires step.DoMove? || step.DoClean? || step.DoPurgeZero?
    ensures ViewRule(s, step, s', id, key)
  {
    match step
    case DoMove(k, i, to) => MoveView(s, s', k, i, to, id, key);
    case DoClean(clean, k, newest) => CleanView(s, s', clean, k, newest, id, key);
    case DoPurgeZero(clean, k) => PurgeZeroView(s, s', clean, k, id, key);
  }

  lemma {:induction false} StepChangesView<V>(s: State<V>, step: Step<V>, s': State<V>, id: ScanId, key: Pubkey)
    requires StateInv(s) && Next(s, step, s') && id in s.scans && id in s'.scans
    requires s.scans[id].bank !in s'.tree.removed
    ensures s'.scans[id] == s.scans[id] && ViewRule(s, step, s', id, key)
  {
    ScanGoesOn(s, step, s', id);
    ScanIsLive(s, id);
    if step.DoMove? || step.DoClean? || step.DoPurgeZero? {
      ChangingView(s, step, s', id, key);
    } else {
      LastingView(s, step, s', id, key);
      SameViewRule(s, step, s', id, key);
    }
  }

  /** A scan of a live bank uses the bank's ancestors exactly if the bank descends from the greatest root. */
  lemma {:induction false} AncestorsUsedIfDescendant<V>(s: State<V>, b: BankId)
    requires StateInv(s) && Live(s.tree, b)
    ensures EffectiveAncestors(s.tree.banks[b].ancestors, RootSlot(s.tree)) != {} <==> OnRoot(s.tree, b)
    ensures OnRoot(s.tree, b) ==>
            EffectiveAncestors(s.tree.banks[b].ancestors, RootSlot(s.tree)) == s.tree.banks[b].ancestors
  {
    if OnRoot(s.tree, b) {
      DescendantsSeeRoot(s.tree, b);
    } else if RootSlot(s.tree) in s.tree.banks[b].ancestors {
      SeesRootIsDescendant(s.tree, b);
    }
  }

  /**
   Before the first root the greatest root reads as slot 0. Then the first root changes what a scan
   sees exactly if it is slot 0, the scan does not have it among its ancestors, and it has an entry.
   */
  lemma {:induction false} FirstRootChangesAnswer<V>(list: seq<Item<V>>, ancestors: set<Slot>, root: Slot)
    ensures var q := Query(EffectiveAncestors(ancestors, 0), Some(0));
            Answer(list, q, {root}) != Answer(list, q, {}) <==> root == 0 && 0 !in ancestors && HasEntry(list, 0)
  {
    var q := Query(EffectiveAncestors(ancestors, 0), Some(0));
    RootChangesAnswer(list, q, {}, root);
    AnswerIsVisible(list, q, {});
    assert {} + {root} == {root};
  }
}
