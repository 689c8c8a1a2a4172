/**
 A run without any clean that lacks a bound in which a scan loses a version it found: the version has
 zero lamports, it is the only one of its pubkey, and the clean is bounded by the scan itself.
 */
module ZeroPurgeRun {
  import opened Common
  import opened SlotLists
  import opened ZeroPurges
  import opened Forks
  import opened ScanProtocol
  import opened ScanViews
  import opened ScanRuns

  const KEY: Pubkey := 7

  /** Bank 0 at slot 5 is alone. */
  const TRUNK: Tree := Tree(map[0 := Bank(5, true, {5}, {0})], {}, 0)

  function Only<V>(x: V): Item<V> {
    Item(3, Info(Version(x, true), false))
  }

  function Snapshot<V>(x: V): State<V> {
    State(TRUNK, map[KEY := [Only(x)]], {3, 5}, map[], map[], map[], map[])
  }

  function WithScan<V>(x: V): State<V> {
    Snapshot(x).(ongoing := map[5 := 1], scans := map[0 := Scan(0, {5}, 5)])
  }

  function Cleaning<V>(x: V): State<V> {
    WithScan(x).(cleans := map[0 := Some(5)])
  }

  function Marked<V>(x: V): State<V> {
    Cleaning(x).(marks := map[(0, KEY) := Mark({3}, 5)])
  }

  function Purged<V>(x: V): State<V> {
    Cleaning(x).(lists := map[])
  }

  function States<V>(x: V): seq<State<V>> {
    [Snapshot(x), WithScan(x), Cleaning(x), Marked(x), Purged(x)]
  }

  function Steps<V>(): seq<Step<V>> {
    [DoBeginScan(0, 0), DoBeginClean(0, Some(5), None), DoMarkZero(0, KEY), DoPurgeZero(0, KEY)]
  }

  lemma {:induction false} ScanBegins<V>(x: V)
    ensures Next(Snapshot(x), DoBeginScan(0, 0), WithScan(x))
  {
    assert EffectiveAncestors({5}, 5) == {5};
  }

  lemma {:induction false} KeyIsMarked<V>(x: V)
    ensures Next(Cleaning(x), DoMarkZero(0, KEY), Marked(x))
  {
    var list := [Only(x)];
    LatestIsAnswer(list, Query({}, Some(5)), {3, 5}, Some(0));
    assert list[0].slot == 3;
    assert RootedSlots(list, Some(5), {3, 5}) == {3};
  }

  lemma {:induction false} KeyIsPurged<V>(x: V)
    ensures Next(Marked(x), DoPurgeZero(0, KEY), Purged(x))
  {
    var slots: set<Slot> := {3};
    FilterOne(Only(x), (i: Item<V>) => i.slot !in slots);
    assert Outside([Only(x)], slots) == [];
  }

  lemma {:induction false} IsRun<V>(x: V)
    ensures Run(States(x), Steps<V>())
  {
    var states, steps := States(x), Steps<V>();
    forall i | 0 <= i < |steps| ensures StepAt(states, steps, i) {
      if i == 0 { ScanBegins(x); }
      if i == 2 { KeyIsMarked(x); }
      if i == 3 { KeyIsPurged(x); }
    }
  }

  /** Every step is guarded, and the scan finds the version first and nothing in the end. */
  lemma {:induction false} ClearsZero<V>(x: V)
    ensures var states, steps := States(x), Steps<V>();
            && GuardedScan(states, steps, 0, 4, 0, 0) && Clears(states[3], steps[3], 0, KEY)
            && Found(states[1], states[1].scans[0], KEY) == Some(Version(x, true))
            && Found(states[4], states[4].scans[0], KEY) == None
  {
    IsRun(x);
    LatestIsAnswer([Only(x)], Query({5}, Some(5)), {3, 5}, Some(0));
  }
}
