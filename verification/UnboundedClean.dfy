/**
 Runs in which a clean without a bound takes away the only version a scan can see: the clean begins
 with no scan running, the scan begins at root 1, and slot 5 is written and rooted before the purge.
 The purge is one of older versions or, if the version at slot 5 has zero lamports, one of all versions.
 */
module UnboundedClean {
  import opened Common
  import opened SlotLists
  import opened ZeroPurges
  import opened Forks
  import opened ScanProtocol
  import opened ScanViews
  import opened ScanRuns

  const KEY: Pubkey := 7

  function Old<V>(x: Version<V>): Item<V> {
    Item(1, Info(x, false))
  }

  function New<V>(y: Version<V>): Item<V> {
    Item(5, Info(y, false))
  }

  const ROOT_BANK: Bank := Bank(1, true, {1}, {0})

  /** Bank 0 at slot 1 is alone. */
  const TRUNK: Tree := Tree(map[0 := ROOT_BANK], {}, 0)

  /** Bank 1 at slot 5 is on top of it, and bank `root` is the root. */
  function Forked(root: BankId, frozen: bool): Tree {
    Tree(map[0 := ROOT_BANK, 1 := Bank(5, frozen, {1, 5}, {0, 1})], {}, root)
  }

  function Snapshot<V>(x: Version<V>): State<V> {
    State(TRUNK, map[KEY := [Old(x)]], {1}, map[], map[], map[], map[])
  }

  function Cleaning<V>(x: Version<V>): State<V> {
    Snapshot(x).(cleans := map[0 := None])
  }

  function WithScan<V>(x: Version<V>): State<V> {
    Cleaning(x).(ongoing := map[1 := 1], scans := map[0 := Scan(0, {1}, 1)])
  }

  function WithFork<V>(x: Version<V>): State<V> {
    WithScan(x).(tree := Forked(0, false))
  }

  function Written<V>(x: Version<V>, y: Version<V>): State<V> {
    WithFork(x).(lists := map[KEY := [Old(x), New(y)]])
  }

  function Rooted<V>(x: Version<V>, y: Version<V>): State<V> {
    Written(x, y).(tree := Forked(1, true), roots := {1, 5})
  }

  function Purged<V>(x: Version<V>, y: Version<V>): State<V> {
    Rooted(x, y).(lists := map[KEY := [New(y)]])
  }

  function Marked<V>(x: Version<V>, y: Version<V>): State<V> {
    Rooted(x, y).(marks := map[(0, KEY) := Mark({1, 5}, 5)])
  }

  function Emptied<V>(x: Version<V>, y: Version<V>): State<V> {
    Rooted(x, y).(lists := map[])
  }

  lemma {:induction false} ScanBegins<V>(x: Version<V>)
    ensures Next(Cleaning(x), DoBeginScan(0, 0), WithScan(x))
  {
    assert EffectiveAncestors({1}, 1) == {1};
  }

  lemma {:induction false} BankIsMade<V>(x: Version<V>)
    ensures Next(WithScan(x), DoNewBank(1, 0, 5, {1, 5}), WithFork(x))
  {
    assert AtSlot(TRUNK, {0}, 1) && {0} + {1} == {0, 1};
  }

  lemma {:induction false} AccountIsWritten<V>(x: Version<V>, y: Version<V>)
    ensures Next(WithFork(x), DoUpsert(1, KEY, [Old(x), New(y)]), Written(x, y))
  {
    var others := (i: Item<V>) => i.slot != 5 && i.slot != 5;
    FilterAppend([Old(x)], [New(y)], others);
    assert [Old(x)] + [New(y)] == [Old(x), New(y)] && [New(y)][..0] == [];
  }

  lemma {:induction false} SlotIsRooted<V>(x: Version<V>, y: Version<V>)
    ensures Next(Written(x, y), DoAddRoot(1), Rooted(x, y))
  {
    assert {1} + {5} == {1, 5};
  }

  lemma {:induction false} OldIsDropped<V>(x: Version<V>, y: Version<V>)
    ensures Kept([Old(x), New(y)], 5, 5) == [New(y)]
  {
    assert [Old(x), New(y)] == [Old(x)] + [New(y)];
    KeptAppend([Old(x)], [New(y)], 5, 5);
    KeptOne(Old(x), 5, 5);
    KeptOne(New(y), 5, 5);
  }

  lemma {:induction false} KeyIsPurged<V>(x: Version<V>, y: Version<V>)
    ensures Next(Rooted(x, y), DoClean(0, KEY, 5), Purged(x, y))
  {
    OldIsDropped(x, y);
    assert [Old(x), New(y)][1].slot == 5;
  }

  lemma {:induction false} Views<V>(x: Version<V>, y: Version<V>)
    ensures View(WithScan(x), Scan(0, {1}, 1), KEY) == Some((1, x))
    ensures Answer([Old(x), New(y)], Query({1}, Some(1)), {1, 5}) == Some(Old(x))
    ensures View(Purged(x, y), Scan(0, {1}, 1), KEY) == None
  {
    LatestIsAnswer([Old(x)], Query({1}, Some(1)), {1}, Some(0));
    LatestIsAnswer([Old(x), New(y)], Query({1}, Some(1)), {1, 5}, Some(0));
    LatestIsAnswer([New(y)], Query({1}, Some(1)), {1, 5}, None);
  }

  function Steps<V>(x: Version<V>, y: Version<V>): seq<Step<V>> {
    [DoBeginClean(0, None, None), DoBeginScan(0, 0), DoNewBank(1, 0, 5, {1, 5}),
     DoUpsert(1, KEY, [Old(x), New(y)]), DoAddRoot(1)]
  }

  function States<V>(x: Version<V>, y: Version<V>): seq<State<V>> {
    [Snapshot(x), Cleaning(x), WithScan(x), WithFork(x), Written(x, y), Rooted(x, y)]
  }

  lemma {:induction false} IsStep<V>(x: Version<V>, y: Version<V>, i: nat)
    requires i < 5
    ensures Next(States(x, y)[i], Steps(x, y)[i], States(x, y)[i + 1])
  {
    if i == 1 { ScanBegins(x); }
    if i == 2 { BankIsMade(x); }
    if i == 3 { AccountIsWritten(x, y); }
    if i == 4 { SlotIsRooted(x, y); }
  }

  // ---------- older versions ----------

  lemma {:induction false} IsRun<V>(x: Version<V>, y: Version<V>)
    ensures Run(States(x, y) + [Purged(x, y)], Steps(x, y) + [DoClean(0, KEY, 5)])
  {
    var states, steps := States(x, y) + [Purged(x, y)], Steps(x, y) + [DoClean(0, KEY, 5)];
    forall i | 0 <= i < |steps| ensures StepAt(states, steps, i) {
      if i < 5 { IsStep(x, y, i); } else { KeyIsPurged(x, y); }
    }
  }

  /** The scan is under way from the second step on, its bank is never removed, and what it finds is lost. */
  lemma {:induction false} HidesVersion<V>(x: Version<V>, y: Version<V>)
    ensures var states, steps := States(x, y) + [Purged(x, y)], Steps(x, y) + [DoClean(0, KEY, 5)];
            && Run(states, steps) && steps[0] == DoBeginClean(0, None, None)
            && Scanning(states, steps, 2, 6, 0) && Hides(states[5], steps[5], 0, KEY)
            && Found(states[2], states[2].scans[0], KEY) == Some(x)
            && Found(states[6], states[6].scans[0], KEY) == None
  {
    IsRun(x, y);
    Views(x, y);
  }

  // ---------- all versions ----------

  lemma {:induction false} ZeroIsMarked<V>(x: Version<V>, y: Version<V>)
    requires y.zero
    ensures Next(Rooted(x, y), DoMarkZero(0, KEY), Marked(x, y))
  {
    var list := [Old(x), New(y)];
    LatestIsAnswer(list, Query({}, None), {1, 5}, Some(1));
    assert list[0].slot == 1 && list[1].slot == 5;
    assert RootedSlots(list, None, {1, 5}) == {1, 5};
  }

  lemma {:induction false} ZeroIsPurged<V>(x: Version<V>, y: Version<V>)
    ensures Next(Marked(x, y), DoPurgeZero(0, KEY), Emptied(x, y))
  {
    var slots: set<Slot> := {1, 5};
    var outside := (i: Item<V>) => i.slot !in slots;
    FilterAppend([Old(x)], [New(y)], outside);
    FilterOne(Old(x), outside);
    FilterOne(New(y), outside);
    assert [Old(x), New(y)] == [Old(x)] + [New(y)];
    assert Outside([Old(x), New(y)], slots) == [];
  }

  lemma {:induction false} IsZeroRun<V>(x: Version<V>, y: Version<V>)
    requires y.zero
    ensures Run(States(x, y) + [Marked(x, y), Emptied(x, y)], Steps(x, y) + [DoMarkZero(0, KEY), DoPurgeZero(0, KEY)])
  {
    var states := States(x, y) + [Marked(x, y), Emptied(x, y)];
    var steps := Steps(x, y) + [DoMarkZero(0, KEY), DoPurgeZero(0, KEY)];
    forall i | 0 <= i < |steps| ensures StepAt(states, steps, i) {
      if i < 5 { IsStep(x, y, i); }
      if i == 5 { ZeroIsMarked(x, y); }
      if i == 6 { ZeroIsPurged(x, y); }
    }
  }

  /** The version at slot 5 has zero lamports; the purge clears the older one, with lamports or without. */
  lemma {:induction false} ClearsVersion<V>(x: Version<V>, y: Version<V>)
    requires y.zero
    ensures var states := States(x, y) + [Marked(x, y), Emptied(x, y)];
            var steps := Steps(x, y) + [DoMarkZero(0, KEY), DoPurgeZero(0, KEY)];
            && Run(states, steps) && Scanning(states, steps, 2, 7, 0) && Clears(states[6], steps[6], 0, KEY)
            && Found(states[2], states[2].scans[0], KEY) == Some(x)
            && Found(states[7], states[7].scans[0], KEY) == None
  {
    IsZeroRun(x, y);
    Views(x, y);
  }
}
