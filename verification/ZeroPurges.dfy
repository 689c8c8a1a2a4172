/**
 How a clean takes zero-lamport accounts out of a slot list. First it reads the list: when the latest
 rooted version up to its bound has zero lamports, it marks the slots of all rooted versions up to the
 bound. Later it drops what is then at the marked slots. What a mark says of the list, and what it
 still says after everything that may happen to the list in between.
 */
module ZeroPurges {
  import opened Common
  import opened SlotLists

  /** The slots to be purged, and the bound up to which the list was read. */
  datatype Mark = Mark(slots: set<Slot>, top: Slot)

  predicate IsZero<V>(x: Item<V>) {
    x.info.account.zero
  }

  /** The latest rooted version up to the bound. */
  function LatestRooted<V>(list: seq<Item<V>>, max: Option<Slot>, roots: set<Slot>): Option<Item<V>> {
    Answer(list, Query({}, max), roots)
  }

  predicate LatestIsZero<V>(list: seq<Item<V>>, max: Option<Slot>, roots: set<Slot>) {
    var z := LatestRooted(list, max, roots);
    z.Some? && IsZero(z.value)
  }

  function RootedSlots<V>(list: seq<Item<V>>, max: Option<Slot>, roots: set<Slot>): set<Slot> {
    set i | 0 <= i < |list| && Sees(Query({}, max), roots, list[i].slot) :: list[i].slot
  }

  ghost predicate Rooted<V>(list: seq<Item<V>>, roots: set<Slot>, older x: Item<V>) {
    x in list && x.slot in roots
  }

  /** Above `slot` there is a rooted version with zero lamports, or one above the bound of the mark. */
  ghost predicate Covered<V>(list: seq<Item<V>>, roots: set<Slot>, top: Slot, slot: Slot) {
    exists y :: Rooted(list, roots, y) && y.slot > slot && (IsZero(y) || y.slot > top)
  }

  /** All rooted versions up to the bound are marked, and those with lamports are covered. */
  ghost predicate MarkHolds<V>(list: seq<Item<V>>, roots: set<Slot>, mark: Mark) {
    && (forall x :: Rooted(list, roots, x) && x.slot <= mark.top ==> x.slot in mark.slots)
    && (forall x :: Rooted(list, roots, x) && x.slot <= mark.top && !IsZero(x) ==>
          Covered(list, roots, mark.top, x.slot))
  }

  lemma {:induction false} Marking<V>(list: seq<Item<V>>, max: Option<Slot>, top: Slot, roots: set<Slot>)
    requires UniqueSlots(list) && IsBound(max, top, roots)
    requires LatestIsZero(list, max, roots)
    ensures var mark := Mark(RootedSlots(list, max, roots), top);
            MarkHolds(list, roots, mark) && forall a :: a in mark.slots ==> a <= top
  {
    var z := LatestRooted(list, max, roots);
    AnswerIsVisible(list, Query({}, max), roots);
    forall x | Rooted(list, roots, x) && x.slot <= top
      ensures x.slot in RootedSlots(list, max, roots)
      ensures IsZero(x) || Covered(list, roots, top, x.slot)
    {
      var i :| 0 <= i < |list| && list[i] == x;
      assert Sees(Query({}, max), roots, list[i].slot);
      SameSlot(list, x, z.value);
      assert Rooted(list, roots, z.value);
    }
  }

  lemma {:induction false} SameSlot<V>(list: seq<Item<V>>, x: Item<V>, y: Item<V>)
    requires UniqueSlots(list) && x in list && y in list
    ensures x.slot == y.slot ==> x == y
  {
  }

  // ---------- what a mark survives ----------

  lemma {:induction false} HoldsForSameRooted<V>(list: seq<Item<V>>, list': seq<Item<V>>, roots: set<Slot>, mark: Mark)
    requires MarkHolds(list, roots, mark)
    requires forall x :: Rooted(list', roots, x) <==> Rooted(list, roots, x)
    ensures MarkHolds(list', roots, mark)
  {
    forall x | Rooted(list', roots, x) && x.slot <= mark.top && !IsZero(x)
      ensures Covered(list', roots, mark.top, x.slot)
    {
      assert Covered(list, roots, mark.top, x.slot);
      var y :| Rooted(list, roots, y) && y.slot > x.slot && (IsZero(y) || y.slot > mark.top);
      assert Rooted(list', roots, y);
    }
  }

  /** More roots above the bound, or fewer where nothing is stored. */
  lemma {:induction false} HoldsForOtherRoots<V>(list: seq<Item<V>>, roots: set<Slot>, roots': set<Slot>, mark: Mark)
    requires MarkHolds(list, roots, mark)
    requires forall r :: r in roots' && r !in roots ==> r > mark.top
    requires forall x :: Rooted(list, roots, x) ==> Rooted(list, roots', x)
    ensures MarkHolds(list, roots', mark)
  {
    forall x | Rooted(list, roots', x) && x.slot <= mark.top ensures Rooted(list, roots, x) { }
    forall x | Rooted(list, roots', x) && x.slot <= mark.top && !IsZero(x)
      ensures Covered(list, roots', mark.top, x.slot)
    {
      assert Covered(list, roots, mark.top, x.slot);
      var y :| Rooted(list, roots, y) && y.slot > x.slot && (IsZero(y) || y.slot > mark.top);
      assert Rooted(list, roots', y);
    }
  }

  /** A version is written elsewhere. */
  lemma {:induction false} HoldsWhenRelocated<V>(list: seq<Item<V>>, list': seq<Item<V>>, roots: set<Slot>, mark: Mark)
    requires MarkHolds(list, roots, mark) && |list'| == |list|
    requires forall i :: 0 <= i < |list| ==>
               list'[i].slot == list[i].slot && list'[i].info.account == list[i].info.account
    ensures MarkHolds(list', roots, mark)
  {
    forall x | Rooted(list', roots, x) && x.slot <= mark.top
      ensures x.slot in mark.slots && (IsZero(x) || Covered(list', roots, mark.top, x.slot))
    {
      var i :| 0 <= i < |list'| && list'[i] == x;
      assert Rooted(list, roots, list[i]);
      if !IsZero(x) {
        var y :| Rooted(list, roots, y) && y.slot > x.slot && (IsZero(y) || y.slot > mark.top);
        var k :| 0 <= k < |list| && list[k] == y;
        assert Rooted(list', roots, list'[k]);
      }
    }
  }

  /** A rooted version is dropped with all rooted ones below it, or below one from which on all are kept. */
  ghost predicate KeepsTop<V>(list: seq<Item<V>>, roots: set<Slot>, keep: Item<V> -> bool, y: Item<V>) {
    || (forall x :: Rooted(list, roots, x) && x.slot < y.slot ==> !keep(x))
    || exists n :: Rooted(list, roots, n) && n.slot > y.slot && KeptFrom(list, roots, keep, n.slot)
  }

  ghost predicate KeptFrom<V>(list: seq<Item<V>>, roots: set<Slot>, keep: Item<V> -> bool, slot: Slot) {
    forall x :: Rooted(list, roots, x) && x.slot >= slot ==> keep(x)
  }

  lemma {:induction false} HoldsWhenFiltered<V>(list: seq<Item<V>>, roots: set<Slot>, keep: Item<V> -> bool, mark: Mark)
    requires MarkHolds(list, roots, mark)
    requires forall y :: Rooted(list, roots, y) && !keep(y) ==> KeepsTop(list, roots, keep, y)
    ensures MarkHolds(Filter(list, keep), roots, mark)
  {
    var list' := Filter(list, keep);
    forall x: Item<V> ensures Rooted(list', roots, x) <==> Rooted(list, roots, x) && keep(x) {
      FilterMembers(list, keep, x);
    }
    forall x | Rooted(list', roots, x) && x.slot <= mark.top ensures x.slot in mark.slots {
      assert Rooted(list, roots, x);
    }
    forall x | Rooted(list', roots, x) && x.slot <= mark.top && !IsZero(x)
      ensures Covered(list', roots, mark.top, x.slot)
    {
      var y := StillCovered(list, roots, keep, mark, x);
      assert Rooted(list', roots, y);
    }
  }

  lemma {:induction false} StillCovered<V>(list: seq<Item<V>>, roots: set<Slot>, keep: Item<V> -> bool, mark: Mark,
                                           x: Item<V>) returns (y: Item<V>)
    requires MarkHolds(list, roots, mark)
    requires forall y :: Rooted(list, roots, y) && !keep(y) ==> KeepsTop(list, roots, keep, y)
    requires Rooted(list, roots, x) && keep(x) && x.slot <= mark.top && !IsZero(x)
    ensures Rooted(list, roots, y) && keep(y) && y.slot > x.slot && (IsZero(y) || y.slot > mark.top)
  {
    y :| Rooted(list, roots, y) && y.slot > x.slot && (IsZero(y) || y.slot > mark.top);
    if !keep(y) {
      assert KeepsTop(list, roots, keep, y);
      var n :| Rooted(list, roots, n) && n.slot > y.slot && KeptFrom(list, roots, keep, n.slot);
      if IsZero(n) || n.slot > mark.top {
        y := n;
      } else {
        assert Covered(list, roots, mark.top, n.slot);
        y :| Rooted(list, roots, y) && y.slot > n.slot && (IsZero(y) || y.slot > mark.top);
      }
    }
  }

  // ---------- what a query sees of it ----------

  /** What the query sees through its ancestors up to its root is rooted. */
  ghost predicate Sheltered<V>(list: seq<Item<V>>, q: Query, roots: set<Slot>) {
    q.maxRoot.Some? && forall x :: x in list && x.slot in q.ancestors && x.slot <= q.maxRoot.value ==> x.slot in roots
  }

  /**
   A query whose root is not below the bound of the mark loses its answer exactly if it is at or below
   that bound, and then there is nothing left for it to see.
   */
  lemma {:induction false} PurgeClearsAnswer<V>(list: seq<Item<V>>, roots: set<Slot>, mark: Mark, q: Query)
    requires MarkHolds(list, roots, mark) && forall a :: a in mark.slots ==> a <= mark.top
    requires Sheltered(list, q, roots) && mark.top <= q.maxRoot.value
    ensures var a, b := Answer(list, q, roots), Answer(Outside(list, mark.slots), q, roots);
            if a.Some? && a.value.slot <= mark.top then a.value.slot in mark.slots && b == None else b == a
  {
    var a, b := Answer(list, q, roots), Answer(Outside(list, mark.slots), q, roots);
    var keep := (x: Item<V>) => x.slot !in mark.slots;
    AnswerIsVisible(list, q, roots);
    FilterAnswer(list, keep, q, roots);
    AnswerIsVisible(Outside(list, mark.slots), q, roots);
    if a.Some? && a.value.slot <= mark.top {
      forall x | x in list && Sees(q, roots, x.slot) ensures x.slot in mark.slots { assert Rooted(list, roots, x); }
      if b.Some? { FilterMembers(list, keep, b.value); }
    }
  }

  /** If moreover no root is above the root of the query, the answer it can lose has zero lamports. */
  lemma {:induction false} MarkedAnswerIsZero<V>(list: seq<Item<V>>, roots: set<Slot>, mark: Mark, q: Query)
    requires MarkHolds(list, roots, mark) && Sheltered(list, q, roots) && mark.top <= q.maxRoot.value
    requires forall r :: r in roots ==> r <= q.maxRoot.value
    ensures var a := Answer(list, q, roots); a.Some? && a.value.slot <= mark.top ==> IsZero(a.value)
  {
    var a := Answer(list, q, roots);
    AnswerIsVisible(list, q, roots);
    if a.Some? && a.value.slot <= mark.top {
      assert Rooted(list, roots, a.value) && !Covered(list, roots, mark.top, a.value.slot);
    }
  }

  /** So it is when the list has just been read. */
  lemma {:induction false} ReadAnswerIsZero<V>(list: seq<Item<V>>, max: Option<Slot>, top: Slot, roots: set<Slot>,
                                               q: Query)
    requires UniqueSlots(list) && IsBound(max, top, roots) && Sheltered(list, q, roots) && top <= q.maxRoot.value
    requires LatestIsZero(list, max, roots)
    ensures var a := Answer(list, q, roots); a.Some? && a.value.slot <= top ==> IsZero(a.value)
  {
    var a, z := Answer(list, q, roots), LatestRooted(list, max, roots);
    AnswerIsVisible(list, q, roots);
    AnswerIsVisible(list, Query({}, max), roots);
    if a.Some? && a.value.slot <= top {
      assert Sees(q, roots, z.value.slot) && Sees(Query({}, max), roots, a.value.slot);
      SameSlot(list, a.value, z.value);
    }
  }
}
