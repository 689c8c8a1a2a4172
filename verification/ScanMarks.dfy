/**
 The marks of zero-lamport accounts over the steps of the scan protocol. Every mark goes on covering the
 rooted versions up to its bound until it is used, whatever is stored, flushed, cleaned or rooted meanwhile.
 */
module ScanMarks {
  import opened Common
  import opened SlotLists
  import opened ZeroPurges
  import opened Forks
  import opened ScanProtocol

  ghost predicate MarkOk<V>(s: State<V>, m: (CleanId, Pubkey))
    requires m in s.marks && s.tree.root in s.tree.banks
  {
    var mark := s.marks[m];
    && m.0 in s.cleans && (s.cleans[m.0].Some? ==> s.cleans[m.0].value == mark.top)
    && mark.top <= RootSlot(s.tree) && (forall a :: a in mark.slots ==> a <= mark.top)
    && MarkHolds(ListOf(s.lists, m.1), s.roots, mark)
  }

  ghost predicate MarksOk<V>(s: State<V>) {
    s.tree.root in s.tree.banks && forall m {:trigger MarkOk(s, m)} :: m in s.marks ==> MarkOk(s, m)
  }

  /** Nothing the mark speaks of changes. */
  lemma {:induction false} SameMark<V>(s: State<V>, s': State<V>, m: (CleanId, Pubkey))
    requires s.tree.root in s.tree.banks && s'.tree.root in s'.tree.banks && m in s.marks && MarkOk(s, m)
    requires m in s'.marks && s'.marks[m] == s.marks[m] && m.0 in s'.cleans && s'.cleans[m.0] == s.cleans[m.0]
    requires ListOf(s'.lists, m.1) == ListOf(s.lists, m.1) && s'.roots == s.roots
    requires RootSlot(s.tree) <= RootSlot(s'.tree)
    ensures MarkOk(s', m)
  {
  }

  /** One list changes, and what is marked of it goes on holding. */
  lemma {:induction false} ListMarks<V>(s: State<V>, s': State<V>, key: Pubkey)
    requires StateInv(s) && MarksOk(s) && s' == s.(lists := s'.lists, marks := s'.marks)
    requires forall m :: m in s'.marks ==> m in s.marks && s'.marks[m] == s.marks[m]
    requires forall k :: k != key ==> ListOf(s'.lists, k) == ListOf(s.lists, k)
    requires forall m :: m in s.marks && m.1 == key ==> MarkHolds(ListOf(s'.lists, key), s.roots, s.marks[m])
    ensures MarksOk(s')
  {
    forall m | m in s'.marks ensures MarkOk(s', m) { assert MarkOk(s, m); }
  }

  lemma {:induction false} FilterMarks<V>(s: State<V>, s': State<V>, key: Pubkey, keep: Item<V> -> bool)
    requires StateInv(s) && MarksOk(s) && s' == s.(lists := s'.lists, marks := s'.marks)
    requires forall m :: m in s'.marks ==> m in s.marks && s'.marks[m] == s.marks[m]
    requires Writes(s, s', key, Filter(ListOf(s.lists, key), keep))
    requires var list := ListOf(s.lists, key);
             forall y :: Rooted(list, s.roots, y) && !keep(y) ==> KeepsTop(list, s.roots, keep, y)
    ensures MarksOk(s')
  {
    forall m | m in s.marks && m.1 == key ensures MarkHolds(ListOf(s'.lists, key), s.roots, s.marks[m]) {
      assert MarkOk(s, m);
      HoldsWhenFiltered(ListOf(s.lists, key), s.roots, keep, s.marks[m]);
    }
    ListMarks(s, s', key);
  }

  lemma {:induction false} CleanMarks<V>(s: State<V>, s': State<V>, clean: CleanId, key: Pubkey, newest: Slot)
    requires StateInv(s) && MarksOk(s) && Clean(s, s', clean, key, newest)
    ensures MarksOk(s')
  {
    var list, bound, roots := ListOf(s.lists, key), BoundOf(s, clean), s.roots;
    var keep := (x: Item<V>) => Keeps(bound, newest, x);
    CleanHasBound(s, clean);
    assert KeptFrom(list, roots, keep, newest);
    forall y | Rooted(list, roots, y) && !keep(y) ensures KeepsTop(list, roots, keep, y) {
      var i :| 0 <= i < |list| && list[i] == y;
      assert list[i].slot < newest;
      var k :| 0 <= k < |list| && list[k].slot == newest;
      assert Rooted(list, roots, list[k]);
    }
    FilterMarks(s, s', key, keep);
  }

  lemma {:induction false} PurgeZeroMarks<V>(s: State<V>, s': State<V>, clean: CleanId, key: Pubkey)
    requires StateInv(s) && MarksOk(s) && PurgeZero(s, s', clean, key)
    ensures MarksOk(s')
  {
    var mark := s.marks[(clean, key)];
    assert MarkOk(s, (clean, key));
    FilterMarks(s, s', key, (x: Item<V>) => x.slot !in mark.slots);
  }

  lemma {:induction false} SupersedeMarks<V>(s: State<V>, s': State<V>, flush: CleanId, key: Pubkey, i: nat, j: nat)
    requires StateInv(s) && MarksOk(s) && Supersede(s, s', flush, key, i, j)
    ensures MarksOk(s')
  {
    var list := s.lists[key];
    var slot := list[i].slot;
    var keep := (x: Item<V>) => x.slot != slot && x.slot != slot;
    assert Rooted(list, s.roots, list[j]) && KeptFrom(list, s.roots, keep, list[j].slot);
    FilterMarks(s, s', key, keep);
  }

  lemma {:induction false} PurgeSlotMarks<V>(s: State<V>, s': State<V>, slot: Slot, key: Pubkey)
    requires StateInv(s) && MarksOk(s) && PurgeSlot(s, s', slot, key)
    ensures MarksOk(s')
  {
    var b :| b in s.tree.removed && b in s.tree.banks && s.tree.banks[b].slot == slot;
    AbandonedIsNoRoot(s, b, slot);
    FilterMarks(s, s', key, (x: Item<V>) => x.slot != slot && x.slot != slot);
  }

  lemma {:induction false} UpsertMarks<V>(s: State<V>, s': State<V>, b: BankId, key: Pubkey, list: seq<Item<V>>)
    requires StateInv(s) && MarksOk(s) && Upsert(s, s', b, key, list)
    ensures MarksOk(s')
  {
    WriterIsFree(s, b);
    var before, slot := ListOf(s.lists, key), s.tree.banks[b].slot;
    forall x: Item<V> ensures Rooted(list, s.roots, x) <==> Rooted(before, s.roots, x) {
      FilterMembers(list, (x: Item<V>) => x.slot != slot && x.slot != slot, x);
      FilterMembers(before, (x: Item<V>) => x.slot != slot && x.slot != slot, x);
    }
    forall m | m in s.marks && m.1 == key ensures MarkHolds(list, s.roots, s.marks[m]) {
      assert MarkOk(s, m);
      HoldsForSameRooted(before, list, s.roots, s.marks[m]);
    }
    ListMarks(s, s', key);
  }

  lemma {:induction false} RelocateMarks<V>(s: State<V>, s': State<V>, key: Pubkey, i: nat, cached: bool)
    requires StateInv(s) && MarksOk(s) && Relocate(s, s', key, i, cached)
    ensures MarksOk(s')
  {
    forall m | m in s.marks && m.1 == key ensures MarkHolds(s'.lists[key], s.roots, s.marks[m]) {
      assert MarkOk(s, m);
      HoldsWhenRelocated(s.lists[key], s'.lists[key], s.roots, s.marks[m]);
    }
    ListMarks(s, s', key);
  }

  /** The set of alive roots changes. */
  lemma {:induction false} RootMarks<V>(s: State<V>, s': State<V>)
    requires StateInv(s) && MarksOk(s) && s' == s.(tree := s'.tree, roots := s'.roots)
    requires s'.tree.root in s'.tree.banks && RootSlot(s.tree) <= RootSlot(s'.tree)
    requires forall r :: r in s'.roots && r !in s.roots ==> r > RootSlot(s.tree)
    requires forall r :: r in s.roots && r !in s'.roots ==> !Occupied(s.lists, r)
    ensures MarksOk(s')
  {
    forall m | m in s'.marks ensures MarkOk(s', m) {
      assert MarkOk(s, m);
      var list := ListOf(s.lists, m.1);
      forall x | Rooted(list, s.roots, x) ensures Rooted(list, s'.roots, x) {
        var i :| 0 <= i < |list| && list[i] == x;
        assert HasEntry(s.lists[m.1], x.slot) && Occupied(s.lists, x.slot);
      }
      HoldsForOtherRoots(list, s.roots, s'.roots, s.marks[m]);
    }
  }

  lemma {:induction false} MarkZeroMarks<V>(s: State<V>, s': State<V>, clean: CleanId, key: Pubkey)
    requires StateInv(s) && MarksOk(s) && MarkZero(s, s', clean, key)
    ensures MarksOk(s')
  {
    CleanHasBound(s, clean);
    Marking(ListOf(s.lists, key), s.cleans[clean], BoundOf(s, clean), s.roots);
    forall m | m in s'.marks ensures MarkOk(s', m) {
      if m != (clean, key) { assert MarkOk(s, m); }
    }
  }

  lemma {:induction false} QuietMarks<V>(s: State<V>, step: Step<V>, s': State<V>)
    requires StateInv(s) && MarksOk(s) && Next(s, step, s') && IsQuietStep(step)
    ensures MarksOk(s')
  {
    if step.DoMarkZero? {
      MarkZeroMarks(s, s', step.clean, step.key);
    } else {
      forall m | m in s'.marks ensures MarkOk(s', m) {
        assert MarkOk(s, m);
        SameMark(s, s', m);
      }
    }
  }

  lemma {:induction false} BankMarks<V>(s: State<V>, step: Step<V>, s': State<V>)
    requires StateInv(s) && MarksOk(s) && Next(s, step, s') && IsBankStep(step)
    ensures MarksOk(s')
  {
    if step.DoAddRoot? { assert BankOk(s.tree, step.b); }
    RootMarks(s, s');
  }

  lemma {:induction false} EntryMarks<V>(s: State<V>, step: Step<V>, s': State<V>)
    requires StateInv(s) && MarksOk(s) && Next(s, step, s') && !IsBankStep(step) && !IsQuietStep(step)
    ensures MarksOk(s')
  {
    match step
    case DoPurgeSlot(slot, key) => PurgeSlotMarks(s, s', slot, key);
    case DoUpsert(b, key, list) => UpsertMarks(s, s', b, key, list);
    case DoRelocate(key, i, cached) => RelocateMarks(s, s', key, i, cached);
    case DoMove(key, i, to) => ListMarks(s, s', key);
    case DoClean(clean, key, newest) => CleanMarks(s, s', clean, key, newest);
    case DoPurgeZero(clean, key) => PurgeZeroMarks(s, s', clean, key);
    case DoSupersede(flush, key, i, j) => SupersedeMarks(s, s', flush, key, i, j);
    case DoDropRoot(slot) => RootMarks(s, s');
  }

  /** Every step keeps the marks. */
  lemma {:induction false} NextKeepsMarks<V>(s: State<V>, step: Step<V>, s': State<V>)
    requires StateInv(s) && MarksOk(s) && Next(s, step, s')
    ensures StateInv(s') && MarksOk(s')
  {
    NextKeeps(s, step, s');
    if IsBankStep(step) {
      BankMarks(s, step, s');
    } else if IsQuietStep(step) {
      QuietMarks(s, step, s');
    } else {
      EntryMarks(s, step, s');
    }
  }
}
