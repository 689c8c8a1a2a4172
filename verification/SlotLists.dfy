/**
 The slot list of one pubkey in the accounts index: which entry a query sees, how old entries are
 purged, and how an update goes in.
 */
module SlotLists {
  import opened Common

  /** An account version; the index knows of every one if it has zero lamports. */
  datatype Version<V> = Version(data: V, zero: bool)

  /** Where an account version is; a version in the write cache is not in storage yet. */
  datatype Info<V> = Info(account: Version<V>, cached: bool)

  datatype Item<V> = Item(slot: Slot, info: Info<V>)

  /** The ancestors of a bank (none for a rooted view) and the greatest root it may look at. */
  datatype Query = Query(ancestors: set<Slot>, maxRoot: Option<Slot>)

  predicate Sees(q: Query, roots: set<Slot>, slot: Slot) {
    slot in q.ancestors || (slot in roots && (q.maxRoot.Some? ==> slot <= q.maxRoot.value))
  }

  // ---------- the entry a query sees ----------

  /** The visible entry with the greatest slot; of several with that slot, the last one. */
  function Answer<V>(list: seq<Item<V>>, q: Query, roots: set<Slot>): Option<Item<V>> {
    if list == [] then None
    else
      var before, last := Answer(list[..|list| - 1], q, roots), list[|list| - 1];
      if Sees(q, roots, last.slot) && (before.Some? ==> before.value.slot <= last.slot) then Some(last) else before
  }

  ghost predicate IsLatest<V>(list: seq<Item<V>>, q: Query, roots: set<Slot>, r: Option<nat>) {
    match r
    case None => forall k :: 0 <= k < |list| ==> !Sees(q, roots, list[k].slot)
    case Some(i) =>
      && i < |list| && Sees(q, roots, list[i].slot)
      && forall k :: 0 <= k < |list| && Sees(q, roots, list[k].slot) ==>
           list[k].slot < list[i].slot || (list[k].slot == list[i].slot && k <= i)
  }

  lemma {:induction false} LatestIsAnswer<V>(list: seq<Item<V>>, q: Query, roots: set<Slot>, r: Option<nat>)
    requires IsLatest(list, q, roots, r)
    ensures Answer(list, q, roots) == if r.Some? then Some(list[r.value]) else None
  {
    if list != [] {
      var n := |list| - 1;
      var init := list[..n];
      if r == Some(n) {
        AnswerIsVisible(init, q, roots);
      } else {
        LatestIsAnswer(init, q, roots, r);
      }
    }
  }

  lemma {:induction false} AnswerIsVisible<V>(list: seq<Item<V>>, q: Query, roots: set<Slot>)
    ensures var a := Answer(list, q, roots); a.Some? ==> a.value in list && Sees(q, roots, a.value.slot)
    ensures var a := Answer(list, q, roots);
            forall x :: x in list && Sees(q, roots, x.slot) ==> a.Some? && x.slot <= a.value.slot
  {
    if list != [] {
      var init := list[..|list| - 1];
      AnswerIsVisible(init, q, roots);
      assert list == init + [list[|list| - 1]];
    }
  }

  ghost predicate HasEntry<V>(list: seq<Item<V>>, slot: Slot) {
    exists i :: 0 <= i < |list| && list[i].slot == slot
  }

  lemma {:induction false} FindLatest<V>(list: seq<Item<V>>, q: Query, roots: set<Slot>) returns (r: Option<nat>)
    ensures IsLatest(list, q, roots, r)
  {
    if list == [] {
      r := None;
    } else {
      var n := |list| - 1;
      r := FindLatest(list[..n], q, roots);
      if Sees(q, roots, list[n].slot) && (r.Some? ==> list[r.value].slot <= list[n].slot) { r := Some(n); }
    }
  }

  lemma {:induction false} SameSight<V>(list: seq<Item<V>>, q: Query, roots: set<Slot>, roots': set<Slot>)
    requires forall i :: 0 <= i < |list| ==> (Sees(q, roots', list[i].slot) <==> Sees(q, roots, list[i].slot))
    ensures Answer(list, q, roots') == Answer(list, q, roots)
  {
    if list != [] { SameSight(list[..|list| - 1], q, roots, roots'); }
  }

  /** A new root changes the answer exactly if it is seen only now, has an entry, and is above the answer so far. */
  lemma {:induction false} RootChangesAnswer<V>(list: seq<Item<V>>, q: Query, roots: set<Slot>, root: Slot)
    ensures var a := Answer(list, q, roots);
            Answer(list, q, roots + {root}) != a <==>
            && !Sees(q, roots, root) && Sees(q, roots + {root}, root) && HasEntry(list, root)
            && (a.Some? ==> a.value.slot < root)
  {
    var a, b := Answer(list, q, roots), Answer(list, q, roots + {root});
    AnswerIsVisible(list, q, roots);
    AnswerIsVisible(list, q, roots + {root});
    if !HasEntry(list, root) || Sees(q, roots, root) || !Sees(q, roots + {root}, root) {
      SameSight(list, q, roots, roots + {root});
    } else if a.Some? && a.value.slot > root {
      var r := FindLatest(list, q, roots);
      LatestIsAnswer(list, q, roots, r);
      LatestIsAnswer(list, q, roots + {root}, r);
    } else {
      var i :| 0 <= i < |list| && list[i].slot == root;
      assert list[i] in list;
    }
  }

  method LatestSlot<V>(ancestors: Option<set<Slot>>, list: seq<Item<V>>, maxRoot: Option<Slot>, roots: set<Slot>)
    returns (r: Option<nat>)
    ensures IsLatest(list, Query(if ancestors.Some? then ancestors.value else {}, maxRoot), roots, r)
  {
    var n := |list|;
    var currentMax: Slot, rv: Option<nat> := 0, None;
    ghost var anc := if ancestors.Some? then ancestors.value else {};
    if ancestors.Some? && ancestors.value != {} {
      rv, currentMax := AncestorPass(list, ancestors.value, maxRoot);
    }
    for i := 0 to n
      invariant BestSoFar(list, anc, roots, maxRoot, n, i, rv, currentMax)
    {
      var slot := list[n - 1 - i].slot;
      if (rv.None? || slot > currentMax) && (maxRoot.Some? ==> slot <= maxRoot.value) {
        if slot in roots {
          rv, currentMax := Some(i), slot;
        }
      }
    }
    r := if rv.Some? then Some(n - 1 - rv.value) else None;
  }

  method AncestorPass<V>(list: seq<Item<V>>, ancestors: set<Slot>, ghost maxRoot: Option<Slot>)
    returns (rv: Option<nat>, currentMax: Slot)
    ensures BestSoFar(list, ancestors, {}, maxRoot, |list|, 0, rv, currentMax)
  {
    rv, currentMax := None, 0;
    for i := 0 to |list|
      invariant BestSoFar(list, ancestors, {}, maxRoot, i, 0, rv, currentMax)
    {
      var slot := list[|list| - 1 - i].slot;
      if (rv.None? || slot > currentMax) && slot in ancestors {
        rv, currentMax := Some(i), slot;
      }
    }
  }

  /** `rv`, an index from the end, is the best of the last `i` entries as ancestors and the last `j` as roots. */
  ghost predicate BestSoFar<V>(list: seq<Item<V>>, ancestors: set<Slot>, roots: set<Slot>, maxRoot: Option<Slot>,
                               i: nat, j: nat, rv: Option<nat>, currentMax: Slot) {
    var n := |list|;
    && (rv.Some? ==> rv.value < n && currentMax == list[n - 1 - rv.value].slot
                     && Sees(Query(ancestors, maxRoot), roots, currentMax)
                     && ((currentMax in ancestors && rv.value < i) || rv.value < j))
    && (forall k :: 0 <= k < n && ((n - i <= k && list[k].slot in ancestors)
                                   || (n - j <= k && Sees(Query({}, maxRoot), roots, list[k].slot))) ==>
          rv.Some? && (list[k].slot < currentMax || (list[k].slot == currentMax && k <= n - 1 - rv.value)))
  }

  // ---------- filters ----------

  function Filter<T>(list: seq<T>, keep: T -> bool): seq<T> {
    if list == [] then []
    else
      var init, last := Filter(list[..|list| - 1], keep), list[|list| - 1];
      if keep(last) then init + [last] else init
  }

  lemma {:induction false} FilterMembers<T>(list: seq<T>, keep: T -> bool, x: T)
    ensures x in Filter(list, keep) <==> x in list && keep(x)
  {
    if list != [] {
      FilterMembers(list[..|list| - 1], keep, x);
      assert list == list[..|list| - 1] + [list[|list| - 1]];
    }
  }

  lemma {:induction false} FilterAppend<T>(a: seq<T>, b: seq<T>, keep: T -> bool)
    ensures Filter(a + b, keep) == Filter(a, keep) + Filter(b, keep)
  {
    if b == [] {
      assert a + b == a;
    } else {
      assert (a + b)[..|a + b| - 1] == a + b[..|b| - 1];
      FilterAppend(a, b[..|b| - 1], keep);
    }
  }

  lemma {:induction false} FilterOne<T>(x: T, keep: T -> bool)
    ensures Filter([x], keep) == if keep(x) then [x] else []
  {
    var list := [x];
    assert list[..0] == [] && Filter(list[..0], keep) == [];
  }

  lemma {:induction false} FilterConserves<T>(list: seq<T>, keep: T -> bool, drop: T -> bool)
    requires forall x :: x in list ==> drop(x) == !keep(x)
    ensures multiset(list) == multiset(Filter(list, keep)) + multiset(Filter(list, drop))
  {
    if list != [] {
      var init, last := list[..|list| - 1], list[|list| - 1];
      FilterConserves(init, keep, drop);
      assert list == init + [last];
      assert multiset(list) == multiset(init) + multiset{last};
    }
  }

  /** Dropping entries changes the answer exactly if it drops the answer. */
  lemma {:induction false} FilterAnswer<V>(list: seq<Item<V>>, keep: Item<V> -> bool, q: Query, roots: set<Slot>)
    ensures var a := Answer(list, q, roots);
            Answer(Filter(list, keep), q, roots) == a <==> (a.Some? ==> keep(a.value))
  {
    var a, b := Answer(list, q, roots), Answer(Filter(list, keep), q, roots);
    AnswerIsVisible(Filter(list, keep), q, roots);
    if b.Some? { FilterMembers(list, keep, b.value); }
    if list != [] {
      var init, last := list[..|list| - 1], list[|list| - 1];
      FilterAnswer(init, keep, q, roots);
      AnswerIsVisible(init, q, roots);
      AnswerIsVisible(Filter(init, keep), q, roots);
      var fa := Answer(Filter(init, keep), q, roots);
      if fa.Some? { FilterMembers(init, keep, fa.value); }
      if keep(last) { assert Filter(list, keep)[..|Filter(list, keep)| - 1] == Filter(init, keep); }
    }
  }

  ghost predicate UniqueSlots<V>(list: seq<Item<V>>) {
    forall i, j :: 0 <= i < j < |list| ==> list[i].slot != list[j].slot
  }

  lemma {:induction false} FilterUnique<V>(list: seq<Item<V>>, keep: Item<V> -> bool)
    requires UniqueSlots(list)
    ensures UniqueSlots(Filter(list, keep))
  {
    if list != [] {
      var init, last := list[..|list| - 1], list[|list| - 1];
      FilterUnique(init, keep);
      var f := Filter(init, keep);
      forall i | 0 <= i < |f| ensures f[i].slot != last.slot {
        FilterMembers(init, keep, f[i]);
        var k :| 0 <= k < |init| && init[k] == f[i];
        assert list[k] == f[i];
      }
    }
  }

  /** Without repeated slots, an answer that is not the same is at another slot. */
  lemma {:induction false} OtherAnswer<V>(list: seq<Item<V>>, keep: Item<V> -> bool, q: Query, roots: set<Slot>)
    requires UniqueSlots(list)
    ensures var a, b := Answer(list, q, roots), Answer(Filter(list, keep), q, roots);
            b != a ==> a.Some? && (b.Some? ==> b.value.slot != a.value.slot)
  {
    var a, b := Answer(list, q, roots), Answer(Filter(list, keep), q, roots);
    FilterAnswer(list, keep, q, roots);
    AnswerIsVisible(list, q, roots);
    AnswerIsVisible(Filter(list, keep), q, roots);
    if b.Some? { FilterMembers(list, keep, b.value); }
  }

  // ---------- purging ----------

  ghost predicate IsNewestRoot<V>(roots: set<Slot>, list: seq<Item<V>>, maxAllowed: Option<Slot>, newest: Slot) {
    && (newest != 0 ==> newest in roots && exists k :: 0 <= k < |list| && list[k].slot == newest)
    && (newest != 0 && maxAllowed.Some? ==> newest <= maxAllowed.value)
    && forall k :: 0 <= k < |list| && list[k].slot in roots &&
                   (maxAllowed.Some? ==> list[k].slot <= maxAllowed.value) ==>
         list[k].slot <= newest
  }

  /** The greatest alive root in the list up to the bound; 0 when there is none. */
  method GetNewestRootInSlotList<V>(roots: set<Slot>, list: seq<Item<V>>, maxAllowed: Option<Slot>)
    returns (newest: Slot)
    ensures IsNewestRoot(roots, list, maxAllowed, newest)
  {
    newest := 0;
    for i := 0 to |list|
      invariant IsNewestRoot(roots, list[..i], maxAllowed, newest)
    {
      var slot := list[i].slot;
      assert list[..i + 1][i] == list[i];
      if maxAllowed.Some? && slot > maxAllowed.value {
        continue;
      }
      if slot > newest && slot in roots {
        newest := slot;
      }
    }
    assert list[..|list|] == list;
  }

  predicate CanPurgeOlderEntries(maxCleanExclusive: Slot, newest: Slot, slot: Slot) {
    slot < maxCleanExclusive && slot != newest
  }

  predicate Keeps<V>(maxClean: Slot, newest: Slot, item: Item<V>) {
    !(CanPurgeOlderEntries(maxClean, newest, item.slot) && !item.info.cached)
  }

  function Kept<V>(list: seq<Item<V>>, maxClean: Slot, newest: Slot): seq<Item<V>> {
    Filter(list, x => Keeps(maxClean, newest, x))
  }

  /** A purge takes out exactly the uncached entries below the bound that are not at the newest root. */
  lemma {:induction false} KeptMembers<V>(list: seq<Item<V>>, maxClean: Slot, newest: Slot, x: Item<V>)
    ensures x in Kept(list, maxClean, newest) <==>
            x in list && (x.info.cached || x.slot >= maxClean || x.slot == newest)
  {
    FilterMembers(list, x => Keeps(maxClean, newest, x), x);
  }

  lemma {:induction false} KeptAppend<V>(a: seq<Item<V>>, b: seq<Item<V>>, maxClean: Slot, newest: Slot)
    ensures Kept(a + b, maxClean, newest) == Kept(a, maxClean, newest) + Kept(b, maxClean, newest)
  {
    FilterAppend(a, b, x => Keeps(maxClean, newest, x));
  }

  lemma {:induction false} KeptOne<V>(x: Item<V>, maxClean: Slot, newest: Slot)
    ensures Kept([x], maxClean, newest) == if Keeps(maxClean, newest, x) then [x] else []
  {
    FilterOne(x, y => Keeps(maxClean, newest, y));
  }

  /** What a purge leaves of the list, and in `moved` what it takes out, both in list order. */
  ghost predicate IsPurge<V>(list: seq<Item<V>>, maxClean: Slot, newest: Slot, kept: seq<Item<V>>,
                             moved: seq<Item<V>>) {
    kept == Kept(list, maxClean, newest) && moved == Filter(list, x => !Keeps(maxClean, newest, x))
  }

  method PurgeOlderRootEntries<V>(list: seq<Item<V>>, reclaims: seq<Item<V>>, maxClean: Option<Slot>,
                                  roots: set<Slot>, maxRoot: Slot)
    returns (kept: seq<Item<V>>, reclaims': seq<Item<V>>, ghost newest: Slot)
    ensures IsNewestRoot(roots, list, maxClean, newest)
    ensures reclaims <= reclaims'
    ensures IsPurge(list, if maxClean.Some? then maxClean.value else maxRoot, newest, kept, reclaims'[|reclaims|..])
  {
    var newestRoot := GetNewestRootInSlotList(roots, list, maxClean);
    newest := newestRoot;
    var bound := if maxClean.Some? then maxClean.value else maxRoot;
    kept, reclaims' := [], reclaims;
    for i := 0 to |list|
      invariant |reclaims'| >= |reclaims| && reclaims'[..|reclaims|] == reclaims
      invariant IsPurge(list[..i], bound, newestRoot, kept, reclaims'[|reclaims|..])
    {
      assert list[..i + 1][..i] == list[..i];
      var shouldPurge := CanPurgeOlderEntries(bound, newestRoot, list[i].slot) && !list[i].info.cached;
      if shouldPurge {
        assert (reclaims' + [list[i]])[|reclaims|..] == reclaims'[|reclaims|..] + [list[i]];
        reclaims' := reclaims' + [list[i]];
      } else {
        kept := kept + [list[i]];
      }
    }
    assert list[..|list|] == list;
  }

  /** Purged entries go to the reclaims: nothing is lost or doubled. */
  lemma {:induction false} PurgeConserves<V>(list: seq<Item<V>>, maxClean: Slot, newest: Slot, kept: seq<Item<V>>,
                                             moved: seq<Item<V>>)
    requires IsPurge(list, maxClean, newest, kept, moved)
    ensures multiset(list) == multiset(kept) + multiset(moved)
    ensures forall x :: x in moved ==> !x.info.cached && x.slot < maxClean
  {
    FilterConserves(list, x => Keeps(maxClean, newest, x), x => !Keeps(maxClean, newest, x));
    forall x | x in moved ensures !x.info.cached && x.slot < maxClean {
      FilterMembers(list, x => !Keeps(maxClean, newest, x), x);
    }
  }

  /** The answer is an uncached entry below the bound that is not at the newest root. */
  ghost predicate DropsAnswer<V>(list: seq<Item<V>>, bound: Slot, newest: Slot, q: Query, roots: set<Slot>) {
    var a := Answer(list, q, roots);
    a.Some? && a.value.slot < bound && a.value.slot != newest && !a.value.info.cached
  }

  /** Any purge changes the answer to any query exactly if it drops it. */
  lemma {:induction false} PurgeDropsAnswer<V>(list: seq<Item<V>>, bound: Slot, newest: Slot, q: Query,
                                               roots: set<Slot>)
    ensures Answer(Kept(list, bound, newest), q, roots) != Answer(list, q, roots) <==>
            DropsAnswer(list, bound, newest, q, roots)
  {
    FilterAnswer(list, x => Keeps(bound, newest, x), q, roots);
  }

  /** The bound of a purge: the clean root, or without one the greatest root. */
  ghost predicate IsBound(maxClean: Option<Slot>, bound: Slot, roots: set<Slot>) {
    if maxClean.Some? then maxClean.value == bound else forall r :: r in roots ==> r <= bound
  }

  /**
   A purge, with a clean root or without, changes what a query at or above its bound sees in one case
   only: the query was looking at an uncached entry of an ancestor that lies below the bound, is not an
   alive root, and is not slot 0 standing in for a missing root.
   */
  lemma {:induction false} PurgeChangesAnswer<V>(list: seq<Item<V>>, maxClean: Option<Slot>, bound: Slot, newest: Slot,
                                                 q: Query, roots: set<Slot>)
    requires IsNewestRoot(roots, list, maxClean, newest) && IsBound(maxClean, bound, roots)
    requires q.maxRoot.Some? ==> bound <= q.maxRoot.value
    ensures var a := Answer(list, q, roots);
            Answer(Kept(list, bound, newest), q, roots) != a <==>
            DropsAnswer(list, bound, newest, q, roots) && a.value.slot !in roots
  {
    PurgeDropsAnswer(list, bound, newest, q, roots);
    AnswerIsVisible(list, q, roots);
    var a := Answer(list, q, roots);
    if a.Some? && a.value.slot in roots && a.value.slot < bound && a.value.slot != newest {
      var i :| 0 <= i < |list| && list[i] == a.value;
      assert list[i].slot <= newest;
      var k :| 0 <= k < |list| && list[k].slot == newest;
      assert list[k] in list && Sees(q, roots, newest);
    }
  }

  // ---------- moving ----------

  /** Entry `i` at another slot. */
  function Moved<V>(list: seq<Item<V>>, i: nat, to: Slot): seq<Item<V>>
    requires i < |list|
  {
    list[i := list[i].(slot := to)]
  }

  /** No other entry lies between the slot of entry `i` and `to`, or at `to`. */
  ghost predicate PassesNone<V>(list: seq<Item<V>>, i: nat, to: Slot)
    requires i < |list|
  {
    forall k :: 0 <= k < |list| && k != i ==>
      (list[k].slot < list[i].slot && list[k].slot < to) || (list[k].slot > list[i].slot && list[k].slot > to)
  }

  /** An entry that moves between visible slots and past no other one stays the answer if it was. */
  lemma {:induction false} MoveKeepsAnswer<V>(list: seq<Item<V>>, i: nat, to: Slot, q: Query, roots: set<Slot>)
    requires i < |list| && PassesNone(list, i, to) && Sees(q, roots, list[i].slot) && Sees(q, roots, to)
    ensures Answer(Moved(list, i, to), q, roots)
         == if Answer(list, q, roots) == Some(list[i]) then Some(Moved(list, i, to)[i]) else Answer(list, q, roots)
  {
    var r := FindLatest(list, q, roots);
    LatestIsAnswer(list, q, roots, r);
    assert Moved(list, i, to)[i].slot == to;
    LatestIsAnswer(Moved(list, i, to), q, roots, r);
  }

  // ---------- updating ----------

  /** The entries at neither of two slots. */
  function Others<V>(list: seq<Item<V>>, slot: Slot, other: Slot): seq<Item<V>> {
    Filter(list, (x: Item<V>) => x.slot != slot && x.slot != other)
  }

  /** The entries outside and inside a set of slots. */
  function Outside<V>(list: seq<Item<V>>, slots: set<Slot>): seq<Item<V>> {
    Filter(list, (x: Item<V>) => x.slot !in slots)
  }

  function Inside<V>(list: seq<Item<V>>, slots: set<Slot>): seq<Item<V>> {
    Filter(list, (x: Item<V>) => x.slot in slots)
  }

  lemma {:induction false} SplitMembers<V>(list: seq<Item<V>>, slots: set<Slot>)
    ensures forall x :: x in Outside(list, slots) <==> x in list && x.slot !in slots
    ensures forall x :: x in Inside(list, slots) <==> x in list && x.slot in slots
  {
    forall x: Item<V> ensures x in Outside(list, slots) <==> x in list && x.slot !in slots {
      FilterMembers(list, (x: Item<V>) => x.slot !in slots, x);
    }
    forall x: Item<V> ensures x in Inside(list, slots) <==> x in list && x.slot in slots {
      FilterMembers(list, (x: Item<V>) => x.slot in slots, x);
    }
  }

  lemma {:induction false} OutsideOne<V>(list: seq<Item<V>>, slot: Slot)
    ensures Outside(list, {slot}) == Others(list, slot, slot)
  {
    if list != [] { OutsideOne(list[..|list| - 1], slot); }
  }

  /** A query that sees neither slot is blind to what happens at them. */
  lemma {:induction false} BlindToOthers<V>(list: seq<Item<V>>, slot: Slot, other: Slot, q: Query, roots: set<Slot>)
    requires !Sees(q, roots, slot) && !Sees(q, roots, other)
    ensures Answer(Others(list, slot, other), q, roots) == Answer(list, q, roots)
  {
    FilterAnswer(list, (x: Item<V>) => x.slot != slot && x.slot != other, q, roots);
    AnswerIsVisible(list, q, roots);
  }

  /** The entries at either of two slots. */
  function Touched<V>(list: seq<Item<V>>, slot: Slot, other: Slot): seq<Item<V>> {
    Filter(list, (x: Item<V>) => x.slot == slot || x.slot == other)
  }

  lemma {:induction false} Prepend<V>(x: Item<V>, list: seq<Item<V>>, slot: Slot, other: Slot)
    ensures Touched([x] + list, slot, other)
         == (if x.slot == slot || x.slot == other then [x] else []) + Touched(list, slot, other)
    ensures Others([x] + list, slot, other)
         == (if x.slot == slot || x.slot == other then [] else [x]) + Others(list, slot, other)
  {
    FilterAppend([x], list, (x: Item<V>) => x.slot == slot || x.slot == other);
    FilterAppend([x], list, (x: Item<V>) => x.slot != slot && x.slot != other);
    assert [x][..0] == [];
  }

  /** `after` is `before` with its entries at the two slots, if any, replaced by one new entry. */
  ghost predicate IsUpdate<V>(before: seq<Item<V>>, after: seq<Item<V>>, slot: Slot, other: Slot, info: Info<V>) {
    && Others(after, slot, other) == Others(before, slot, other)
    && Touched(after, slot, other) == (if Touched(before, slot, other) == [] then [] else [Item(slot, info)])
    && UniqueSlots(after)
    && forall k :: 0 <= k < |after| ==> after[k] == Item(slot, info) || after[k] in before
  }

  /** Puts `x` in front of an updated tail: dropped if touched and replaced before, replaced if touched, else kept. */
  function Merge<V>(x: Item<V>, tail: seq<Item<V>>, found: bool, slot: Slot, other: Slot, info: Info<V>): seq<Item<V>> {
    if x.slot != slot && x.slot != other then [x] + tail
    else if found then tail
    else [Item(slot, info)] + tail
  }

  lemma {:induction false} MergeUnique<V>(x: Item<V>, before: seq<Item<V>>, tail: seq<Item<V>>, found: bool, slot: Slot,
                                          other: Slot, info: Info<V>)
    requires UniqueSlots([x] + before) && IsUpdate(before, tail, slot, other, info)
    requires found <==> Touched(before, slot, other) != []
    ensures UniqueSlots(Merge(x, tail, found, slot, other, info))
  {
    var untouched := x.slot != slot && x.slot != other;
    forall k | 0 <= k < |tail| ensures (untouched ==> tail[k].slot != x.slot) && (!found ==> tail[k].slot != slot) {
      if tail[k] in before {
        var i :| 0 <= i < |before| && before[i] == tail[k];
        assert ([x] + before)[0] == x && ([x] + before)[i + 1] == tail[k];
      }
      FilterMembers(tail, (x: Item<V>) => x.slot == slot || x.slot == other, tail[k]);
    }
  }

  lemma {:induction false} MergeIsUpdate<V>(x: Item<V>, before: seq<Item<V>>, tail: seq<Item<V>>, found: bool,
                                            slot: Slot, other: Slot, info: Info<V>)
    requires UniqueSlots([x] + before) && IsUpdate(before, tail, slot, other, info)
    requires found <==> Touched(before, slot, other) != []
    ensures IsUpdate([x] + before, Merge(x, tail, found, slot, other, info), slot, other, info)
    ensures Touched([x] + before, slot, other) != [] <==> found || x.slot == slot || x.slot == other
  {
    MergeUnique(x, before, tail, found, slot, other, info);
    Prepend(x, before, slot, other);
    MergeSplits(x, tail, found, slot, other, info);
  }

  lemma {:induction false} MergeSplits<V>(x: Item<V>, tail: seq<Item<V>>, found: bool, slot: Slot, other: Slot,
                                          info: Info<V>)
    ensures var merged, touched := Merge(x, tail, found, slot, other, info), x.slot == slot || x.slot == other;
            && Others(merged, slot, other) == (if touched then [] else [x]) + Others(tail, slot, other)
            && Touched(merged, slot, other) ==
               (if touched && !found then [Item(slot, info)] else []) + Touched(tail, slot, other)
  {
    Prepend(x, tail, slot, other);
    Prepend(Item(slot, info), tail, slot, other);
    assert [] + Others(tail, slot, other) == Others(tail, slot, other);
  }

  /** Entries from `i` on are updated, those before it are as they were. */
  ghost predicate Updating<V>(list: seq<Item<V>>, after: seq<Item<V>>, i: nat, slot: Slot, other: Slot, info: Info<V>,
                              found: bool) {
    && i <= |list| && i <= |after| && after[..i] == list[..i]
    && IsUpdate(list[i..], after[i..], slot, other, info)
    && (found <==> Touched(list[i..], slot, other) != [])
  }

  /** Going one entry back: what is before it stays, and it is merged with what comes after it. */
  lemma {:induction false} OneBack<V>(list: seq<Item<V>>, given: seq<Item<V>>, after: seq<Item<V>>, i: nat,
                                      slot: Slot, other: Slot, info: Info<V>, found: bool)
    requires UniqueSlots(list) && i < |list| && Updating(list, given, i + 1, slot, other, info, found)
    requires after == given[..i] + Merge(list[i], given[i + 1..], found, slot, other, info)
    ensures Updating(list, after, i, slot, other, info, found || list[i].slot == slot || list[i].slot == other)
  {
    assert given[..i] == given[..i + 1][..i] == list[..i + 1][..i] == list[..i];
    assert after[i..] == Merge(list[i], given[i + 1..], found, slot, other, info);
    assert list[i..] == [list[i]] + list[i + 1..];
    MergeIsUpdate(list[i], list[i + 1..], given[i + 1..], found, slot, other, info);
  }

  /** The first entry found is replaced in place; a second one has to be removed. */
  method ReplaceOrRemove<V>(list: seq<Item<V>>, given: seq<Item<V>>, i: nat, slot: Slot, other: Slot, info: Info<V>,
                            found: bool)
    returns (after: seq<Item<V>>)
    requires UniqueSlots(list) && i < |list| && Updating(list, given, i + 1, slot, other, info, found)
    requires list[i].slot == slot || list[i].slot == other
    ensures Updating(list, after, i, slot, other, info, true)
  {
    if !found {
      after := given[i := Item(slot, info)];
    } else {
      after := given[..i] + given[i + 1..];
    }
    OneBack(list, given, after, i, slot, other, info, found);
  }

  lemma {:induction false} LeaveEntry<V>(list: seq<Item<V>>, given: seq<Item<V>>, i: nat, slot: Slot, other: Slot,
                                         info: Info<V>, found: bool)
    requires UniqueSlots(list) && i < |list| && Updating(list, given, i + 1, slot, other, info, found)
    requires list[i].slot != slot && list[i].slot != other
    ensures Updating(list, given, i, slot, other, info, found)
  {
    assert given[i] == given[..i + 1][i] == list[i];
    OneBack(list, given, given, i, slot, other, info, found);
  }

  // ---------- references ----------

  ghost predicate Uncached<V>(list: seq<Item<V>>, slot: Slot) {
    exists x :: x in list && x.slot == slot && !x.info.cached
  }

  /** When an update gains a reference: it is uncached and replaces nothing uncached, at either slot. */
  ghost predicate GainsReference<V>(list: seq<Item<V>>, slot: Slot, other: Slot, info: Info<V>) {
    !info.cached && !Uncached(list, slot) && !Uncached(list, other)
  }

  /** The rule as the source's comment has it, which looks at the slot of the update only. */
  ghost predicate CommentedRule<V>(list: seq<Item<V>>, slot: Slot, info: Info<V>) {
    !info.cached && !Uncached(list, slot)
  }

  /** Code and comment agree exactly if the update is cached, replaces something uncached at its slot, or nothing
      uncached elsewhere. */
  lemma {:induction false} CommentAgrees<V>(list: seq<Item<V>>, slot: Slot, other: Slot, info: Info<V>)
    ensures (GainsReference(list, slot, other, info) <==> CommentedRule(list, slot, info)) <==>
            info.cached || Uncached(list, slot) || !Uncached(list, other)
  {
  }

  /** They differ when an uncached entry at slot 1 is moved to slot 2. */
  lemma {:induction false} CommentDiffers<V>(x: Version<V>)
    ensures var list := [Item(1, Info(x, false))];
            CommentedRule(list, 2, Info(x, false)) && !GainsReference(list, 2, 1, Info(x, false))
  {
    assert [Item(1, Info(x, false))][0].slot == 1;
  }

  lemma {:induction false} TouchedCached<V>(list: seq<Item<V>>, slot: Slot, other: Slot)
    ensures AllCached(Touched(list, slot, other)) <==> !Uncached(list, slot) && !Uncached(list, other)
  {
    var touched := (x: Item<V>) => x.slot == slot || x.slot == other;
    forall x | x in list && touched(x) ensures x in Touched(list, slot, other) { FilterMembers(list, touched, x); }
    forall x | x in Touched(list, slot, other) ensures x in list && touched(x) { FilterMembers(list, touched, x); }
  }

  /** What to do with replaced entries: return them, assert that they were cached, or forget them. */
  datatype UpsertReclaim = PopulateReclaims | PreviousSlotEntryWasCached | IgnoreReclaims

  datatype UpdatePanic = ReplacedUncached

  datatype Update<V> = Update(list: seq<Item<V>>, reclaims: seq<Item<V>>, addref: bool)

  /**
   Replaces the entries at `slot` and `other` by one entry at `slot`; says if the account gains a
   reference. Panics exactly if replaced entries have to be cached and one is not.
   */
  method UpdateSlotList<V>(list: seq<Item<V>>, slot: Slot, info: Info<V>, otherSlot: Option<Slot>,
                           reclaim: UpsertReclaim)
    returns (r: Result<Update<V>, UpdatePanic>)
    requires UniqueSlots(list)
    ensures var other := if otherSlot.Some? then otherSlot.value else slot;
            && (r.Err? <==> reclaim.PreviousSlotEntryWasCached? && (Uncached(list, slot) || Uncached(list, other)))
            && (r.Ok? ==>
                  && UniqueSlots(r.value.list)
                  && Others(r.value.list, slot, other) == Others(list, slot, other)
                  && Touched(r.value.list, slot, other) == [Item(slot, info)]
                  && multiset(r.value.reclaims)
                     == (if reclaim.PopulateReclaims? then multiset(Touched(list, slot, other)) else multiset{})
                  && (r.value.addref <==> GainsReference(list, slot, other, info)))
  {
    var other := if otherSlot.Some? then otherSlot.value else slot;
    TouchedCached(list, slot, other);
    var after, replaced, allCached := ReplaceEntries(list, slot, other, info);
    if reclaim.PreviousSlotEntryWasCached? && !allCached {
      return Err(ReplacedUncached);
    }
    r := Ok(Update(after, if reclaim.PopulateReclaims? then replaced else [], !info.cached && allCached));
  }

  ghost predicate AllCached<V>(list: seq<Item<V>>) {
    forall x :: x in list ==> x.info.cached
  }

  /** Entry `i`: replaced, removed or left alone. */
  method VisitEntry<V>(list: seq<Item<V>>, given: seq<Item<V>>, i: nat, slot: Slot, other: Slot, info: Info<V>,
                       found: bool, replaced: seq<Item<V>>, allCached: bool)
    returns (after: seq<Item<V>>, found': bool, replaced': seq<Item<V>>, allCached': bool)
    requires UniqueSlots(list) && i < |list| && Updating(list, given, i + 1, slot, other, info, found)
    requires multiset(replaced) == multiset(Touched(list[i + 1..], slot, other))
    requires allCached <==> AllCached(Touched(list[i + 1..], slot, other))
    ensures Updating(list, after, i, slot, other, info, found')
    ensures multiset(replaced') == multiset(Touched(list[i..], slot, other))
    ensures allCached' <==> AllCached(Touched(list[i..], slot, other))
  {
    var current := given[i];
    assert current == given[..i + 1][i] == list[i];
    TouchedFrom(list, i, slot, other);
    after, found', replaced', allCached' := given, found, replaced, allCached;
    if current.slot == slot || current.slot == other {
      after := ReplaceOrRemove(list, given, i, slot, other, info, found);
      found', replaced', allCached' := true, replaced + [current], allCached && current.info.cached;
    } else {
      LeaveEntry(list, given, i, slot, other, info, found);
    }
  }

  lemma {:induction false} TouchedFrom<V>(list: seq<Item<V>>, i: nat, slot: Slot, other: Slot)
    requires i < |list|
    ensures var x, before, after := list[i], Touched(list[i + 1..], slot, other), Touched(list[i..], slot, other);
            if x.slot == slot || x.slot == other
            then multiset(after) == multiset(before) + multiset{x} &&
                 (AllCached(after) <==> AllCached(before) && x.info.cached)
            else after == before
  {
    assert list[i..] == [list[i]] + list[i + 1..];
    Prepend(list[i], list[i + 1..], slot, other);
  }

  method ReplaceEntries<V>(list: seq<Item<V>>, slot: Slot, other: Slot, info: Info<V>)
    returns (after: seq<Item<V>>, replaced: seq<Item<V>>, allCached: bool)
    requires UniqueSlots(list)
    ensures UniqueSlots(after) && Others(after, slot, other) == Others(list, slot, other)
    ensures Touched(after, slot, other) == [Item(slot, info)]
    ensures multiset(replaced) == multiset(Touched(list, slot, other))
    ensures allCached <==> AllCached(Touched(list, slot, other))
  {
    after, replaced, allCached := list, [], true;
    var found := false;
    assert after[..|list|] == list[..|list|];
    for i := |list| downto 0
      invariant Updating(list, after, i, slot, other, info, found)
      invariant multiset(replaced) == multiset(Touched(list[i..], slot, other))
      invariant allCached <==> AllCached(Touched(list[i..], slot, other))
    {
      after, found, replaced, allCached := VisitEntry(list, after, i, slot, other, info, found, replaced, allCached);
    }
    assert list[0..] == list && after[0..] == after;
    if !found {
      AppendNew(list, after, slot, other, info);
      after := after + [Item(slot, info)];
    }
  }

  lemma {:induction false} AppendNew<V>(list: seq<Item<V>>, after: seq<Item<V>>, slot: Slot, other: Slot, info: Info<V>)
    requires IsUpdate(list, after, slot, other, info) && Touched(list, slot, other) == []
    ensures UniqueSlots(after + [Item(slot, info)])
    ensures Others(after + [Item(slot, info)], slot, other) == Others(list, slot, other)
    ensures Touched(after + [Item(slot, info)], slot, other) == [Item(slot, info)]
  {
    var added := Item(slot, info);
    FilterAppend(after, [added], (x: Item<V>) => x.slot == slot || x.slot == other);
    FilterAppend(after, [added], (x: Item<V>) => x.slot != slot && x.slot != other);
    assert [added][..0] == [];
    forall k | 0 <= k < |after| ensures after[k].slot != slot {
      FilterMembers(after, (x: Item<V>) => x.slot == slot || x.slot == other, after[k]);
    }
  }
}
