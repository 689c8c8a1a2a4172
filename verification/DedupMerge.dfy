/**
 The merge itself. The working set holds at most one location per slot group, in strictly
 descending key order, so that the least remaining key is at its end.
 */
module DedupMerge {
  import opened Common
  import opened Search
  import opened KeyOrder
  import opened PubkeyBins
  import opened Dedup

  // ---------- what the working set stands for ----------

  ghost function Pointers(ws: seq<Pointer>): set<Pointer> {
    set p | p in ws
  }

  ghost function Also(next: Option<Pointer>): set<Pointer> {
    if next.Some? then {next.value} else {}
  }

  ghost predicate Descending<H>(groups: seq<seq<Entry<H>>>, bin: Pubkey -> nat, b: nat, ws: seq<Pointer>) {
    && (forall i :: 0 <= i < |ws| ==> Valid(groups, bin, b, ws[i]))
    && (forall i, j :: 0 <= i < j < |ws| ==> Key(groups, ws[i]) > Key(groups, ws[j]))
  }

  /** `p` answers for the entry at `q`: it has not passed it, or a later group has the same key in hand. */
  ghost predicate Covers<H>(groups: seq<seq<Entry<H>>>, bin: Pubkey -> nat, b: nat, p: Pointer, q: Pointer) {
    && Valid(groups, bin, b, p) && Valid(groups, bin, b, q)
    && ((p.group == q.group && p.offset <= q.offset) || (p.group > q.group && Key(groups, p) == Key(groups, q)))
  }

  ghost predicate Covered<H>(groups: seq<seq<Entry<H>>>, bin: Pubkey -> nat, b: nat, ps: set<Pointer>, q: Pointer) {
    exists p :: p in ps && Covers(groups, bin, b, p, q)
  }

  ghost predicate OnePerGroup(ps: set<Pointer>) {
    forall p, q :: p in ps && q in ps && p.group == q.group ==> p == q
  }

  /** Keys up to `lo` are dealt with; every other entry of groups `from`.. in the bin is answered for. */
  ghost predicate Frontier<H>(groups: seq<seq<Entry<H>>>, bin: Pubkey -> nat, b: nat, from: nat, ps: set<Pointer>,
                              lo: int) {
    && (forall p :: p in ps ==> Valid(groups, bin, b, p) && Key(groups, p) > lo && p.group >= from)
    && OnePerGroup(ps)
    && (forall q {:trigger Covered(groups, bin, b, ps, q)} ::
          Valid(groups, bin, b, q) && q.group >= from && Key(groups, q) > lo ==> Covered(groups, bin, b, ps, q))
  }

  lemma {:induction false} NextIsLater<H>(groups: seq<seq<Entry<H>>>, bin: Pubkey -> nat, b: nat, p: Pointer)
    requires AllSorted(groups) && Monotone(bin) && Valid(groups, bin, b, p)
    ensures var next := NextPointer(groups, bin, b, p);
            next.Some? ==> Valid(groups, bin, b, next.value) && next.value.group == p.group
                           && Key(groups, next.value) > Key(groups, p)
    ensures forall q :: Valid(groups, bin, b, q) && q.group == p.group && p.offset <= q.offset
                        && Key(groups, q) != Key(groups, p) ==>
              NextPointer(groups, bin, b, p).Some? && NextPointer(groups, bin, b, p).value.offset <= q.offset
  {
    var data := groups[p.group];
    var e := RunEnd(data, p.offset);
    assert SortedByPubkey(data);
    if e < |data| {
      assert data[p.offset].pubkey <= data[e].pubkey;
    }
    forall q | Valid(groups, bin, b, q) && q.group == p.group && p.offset <= q.offset &&
               Key(groups, q) != Key(groups, p)
      ensures NextPointer(groups, bin, b, p).Some? && NextPointer(groups, bin, b, p).value.offset <= q.offset
    {
      assert e <= q.offset;
      assert e < q.offset ==> data[e].pubkey <= data[q.offset].pubkey;
    }
  }

  lemma {:induction false} MoveOn(ps: set<Pointer>, p: Pointer, next: Option<Pointer>)
    requires p !in ps && OnePerGroup(ps + {p}) && (next.Some? ==> next.value.group == p.group)
    ensures OnePerGroup(ps + Also(next)) && (next.Some? ==> next.value !in ps)
  {
    assert p in ps + {p};
    assert forall r :: r in ps ==> r in ps + {p};
    assert forall r :: r in ps ==> r.group != p.group;
  }

  /** What `p` covered and does not share its key is covered by the location after it. */
  lemma {:induction false} StillCovered<H>(groups: seq<seq<Entry<H>>>, bin: Pubkey -> nat, b: nat, ps: set<Pointer>,
                                           p: Pointer, q: Pointer)
    requires AllSorted(groups) && Monotone(bin) && Valid(groups, bin, b, p)
    requires Covered(groups, bin, b, ps + {p}, q) && Key(groups, q) != Key(groups, p)
    ensures Covered(groups, bin, b, ps + Also(NextPointer(groups, bin, b, p)), q)
  {
    var next := NextPointer(groups, bin, b, p);
    var r :| r in ps + {p} && Covers(groups, bin, b, r, q);
    if r in ps {
      assert r in ps + Also(next);
    } else {
      NextIsLater(groups, bin, b, p);
      assert next.value in ps + Also(next) && Covers(groups, bin, b, next.value, q);
    }
  }

  lemma {:induction false} SameKeyCovered<H>(groups: seq<seq<Entry<H>>>, bin: Pubkey -> nat, b: nat, ps: set<Pointer>,
                          p: Pointer, later: Pointer, q: Pointer)
    requires Valid(groups, bin, b, p) && Valid(groups, bin, b, later) && later in ps
    requires later.group > p.group && Key(groups, later) == Key(groups, p)
    requires Covered(groups, bin, b, ps + {p}, q) && Key(groups, q) == Key(groups, p)
    ensures Covered(groups, bin, b, ps, q)
  {
    var r :| r in ps + {p} && Covers(groups, bin, b, r, q);
    if r == p {
      assert Covers(groups, bin, b, later, q);
    }
  }

  /** A location whose key a later group has in hand may move on. */
  lemma {:induction false} Skip<H>(groups: seq<seq<Entry<H>>>, bin: Pubkey -> nat, b: nat, from: nat, ps: set<Pointer>,
                                   lo: int, p: Pointer, later: Pointer)
    requires AllSorted(groups) && Monotone(bin)
    requires p !in ps && later in ps && Frontier(groups, bin, b, from, ps + {p}, lo)
    requires later.group > p.group && Key(groups, later) == Key(groups, p)
    ensures Frontier(groups, bin, b, from, ps + Also(NextPointer(groups, bin, b, p)), lo)
    ensures NextPointer(groups, bin, b, p).Some? ==> NextPointer(groups, bin, b, p).value !in ps
  {
    assert p in ps + {p} && later in ps + {p};
    NextIsLater(groups, bin, b, p);
    var next := NextPointer(groups, bin, b, p);
    MoveOn(ps, p, next);
    forall q | Valid(groups, bin, b, q) && q.group >= from && Key(groups, q) > lo
      ensures Covered(groups, bin, b, ps + Also(next), q)
    {
      if Key(groups, q) != Key(groups, p) {
        StillCovered(groups, bin, b, ps, p, q);
      } else {
        SameKeyCovered(groups, bin, b, ps, p, later, q);
        var r :| r in ps && Covers(groups, bin, b, r, q);
        assert r in ps + Also(next);
      }
    }
  }

  /** After its least key is taken, the frontier has moved past that key. */
  lemma {:induction false} Pop<H>(groups: seq<seq<Entry<H>>>, bin: Pubkey -> nat, b: nat, ps: set<Pointer>, lo: int,
                                  p: Pointer)
    requires AllSorted(groups) && Monotone(bin)
    requires p !in ps && Frontier(groups, bin, b, 0, ps + {p}, lo)
    requires forall r :: r in ps ==> Valid(groups, bin, b, r) && Key(groups, r) > Key(groups, p)
    ensures Frontier(groups, bin, b, 0, ps + Also(NextPointer(groups, bin, b, p)), Key(groups, p))
    ensures NextPointer(groups, bin, b, p).Some? ==> NextPointer(groups, bin, b, p).value !in ps
  {
    assert p in ps + {p};
    NextIsLater(groups, bin, b, p);
    var next := NextPointer(groups, bin, b, p);
    MoveOn(ps, p, next);
    forall q | Valid(groups, bin, b, q) && Key(groups, q) > Key(groups, p)
      ensures Covered(groups, bin, b, ps + Also(next), q)
    {
      StillCovered(groups, bin, b, ps, p, q);
    }
  }

  // ---------- inserting into the working set ----------

  function KeyComparisons<H>(groups: seq<seq<Entry<H>>>, ghost bin: Pubkey -> nat, ghost b: nat, ws: seq<Pointer>,
                             key: Pubkey)
    : (c: seq<Ordering>)
    requires Descending(groups, bin, b, ws)
    ensures |c| == |ws| && Ordered(c)
    ensures forall i :: 0 <= i < |c| ==> c[i] == Compare(key, Key(groups, ws[i]))
  {
    assert forall i :: 0 <= i < |ws| ==> Valid(groups, bin, b, ws[i]);
    seq(|ws|, i requires 0 <= i < |ws| => Compare(key, Key(groups, ws[i])))
  }

  /** The working set together with one location that has still to be placed. */
  ghost predicate Pending<H>(groups: seq<seq<Entry<H>>>, bin: Pubkey -> nat, b: nat, from: nat,
                             ws: seq<Pointer>, next: Option<Pointer>, lo: int) {
    && Descending(groups, bin, b, ws)
    && (next.Some? ==> next.value !in ws)
    && Frontier(groups, bin, b, from, Pointers(ws) + Also(next), lo)
  }

  method AddNextItem<H>(groups: seq<seq<Entry<H>>>, bin: Pubkey -> nat, b: nat, first: Option<Pointer>,
                        given: seq<Pointer>, ghost from: nat, ghost lo: int)
    returns (ws: seq<Pointer>)
    requires AllSorted(groups) && Monotone(bin) && Pending(groups, bin, b, from, given, first, lo)
    ensures Pending(groups, bin, b, from, ws, None, lo)
  {
    ws := given;
    var next := first;
    while next.Some?
      invariant Pending(groups, bin, b, from, ws, next, lo)
      decreases if next.Some? then PUBKEY_LIMIT - Key(groups, next.value) else 0
    {
      assert next.value in Pointers(ws) + Also(next);
      ws, next := Place(groups, bin, b, ws, next.value, from, lo);
    }
  }

  /** One turn of the loop: place `p`, or trade it for the location of a greater key. */
  method Place<H>(groups: seq<seq<Entry<H>>>, bin: Pubkey -> nat, b: nat, given: seq<Pointer>, p: Pointer,
                  ghost from: nat, ghost lo: int)
    returns (ws: seq<Pointer>, next: Option<Pointer>)
    requires AllSorted(groups) && Monotone(bin) && Valid(groups, bin, b, p)
             && Pending(groups, bin, b, from, given, Some(p), lo)
    ensures Pending(groups, bin, b, from, ws, next, lo)
    ensures next.Some? ==> Valid(groups, bin, b, next.value) && Key(groups, next.value) > Key(groups, p)
  {
    var key := Key(groups, p);
    if |given| > 0 && key < Key(groups, given[|given| - 1]) {
      Push(groups, bin, b, given, p);
      return given + [p], None;
    }
    var found := BinarySearch(KeyComparisons(groups, bin, b, given, key));
    match found {
      case Err(i) =>
        Insert(groups, bin, b, given, p, i);
        return given[..i] + [p] + given[i..], None;
      case Ok(i) =>
        ws, next := Collide(groups, bin, b, given, p, i, from, lo);
    }
  }

  /** `p` has the key of `ws[i]`: the later group keeps it and the earlier group moves on. */
  method Collide<H>(groups: seq<seq<Entry<H>>>, bin: Pubkey -> nat, b: nat, given: seq<Pointer>, p: Pointer, i: nat,
                    ghost from: nat, ghost lo: int)
    returns (ws: seq<Pointer>, next: Option<Pointer>)
    requires AllSorted(groups) && Monotone(bin) && Pending(groups, bin, b, from, given, Some(p), lo)
    requires Valid(groups, bin, b, p) && i < |given| && Key(groups, given[i]) == Key(groups, p)
    ensures Pending(groups, bin, b, from, ws, next, lo)
    ensures next.Some? ==> Valid(groups, bin, b, next.value) && Key(groups, next.value) > Key(groups, p)
  {
    ws := given;
    var other := ws[i];
    var key := Key(groups, p);
    assert other in Pointers(ws);
    if other.group > p.group {
      NextIsLater(groups, bin, b, p);
      Skip(groups, bin, b, from, Pointers(ws), lo, p, other);
      var _, n := GetItem(groups, bin, b, key, p);
      next := n;
    } else {
      NextIsLater(groups, bin, b, other);
      Replace(groups, bin, b, ws, p, i);
      ghost var rest := Pointers(ws) - {other} + {p};
      assert rest + {other} == Pointers(ws) + Also(Some(p));
      assert other.group != p.group;
      Skip(groups, bin, b, from, rest, lo, other, p);
      var _, n := GetItem(groups, bin, b, key, other);
      ws := ws[i := p];
      next := n;
    }
  }

  lemma {:induction false} Push<H>(groups: seq<seq<Entry<H>>>, bin: Pubkey -> nat, b: nat, ws: seq<Pointer>, p: Pointer)
    requires Descending(groups, bin, b, ws) && Valid(groups, bin, b, p)
    requires ws != [] && Key(groups, p) < Key(groups, ws[|ws| - 1])
    ensures Descending(groups, bin, b, ws + [p])
    ensures Pointers(ws + [p]) + Also(None) == Pointers(ws) + Also(Some(p))
  {
    var last := |ws| - 1;
    forall i | 0 <= i < |ws| ensures Key(groups, ws[i]) > Key(groups, p) {
      assert i < last ==> Key(groups, ws[i]) > Key(groups, ws[last]);
    }
  }

  lemma {:induction false} Insert<H>(groups: seq<seq<Entry<H>>>, bin: Pubkey -> nat, b: nat, ws: seq<Pointer>,
                                     p: Pointer, i: nat)
    requires Descending(groups, bin, b, ws) && Valid(groups, bin, b, p)
    requires IsSearchResult(KeyComparisons(groups, bin, b, ws, Key(groups, p)), Err(i))
    ensures i <= |ws| && Descending(groups, bin, b, ws[..i] + [p] + ws[i..])
    ensures Pointers(ws[..i] + [p] + ws[i..]) + Also(None) == Pointers(ws) + Also(Some(p))
  {
    var c, key := KeyComparisons(groups, bin, b, ws, Key(groups, p)), Key(groups, p);
    forall k | 0 <= k < |ws| ensures if k < i then key < Key(groups, ws[k]) else key > Key(groups, ws[k]) {
      assert c[k] == Compare(key, Key(groups, ws[k]));
    }
    InsertDescends(groups, bin, b, ws, p, i);
    InsertPointers(ws, p, i);
  }

  lemma {:induction false} InsertDescends<H>(groups: seq<seq<Entry<H>>>, bin: Pubkey -> nat, b: nat, ws: seq<Pointer>,
                                             p: Pointer, i: nat)
    requires Descending(groups, bin, b, ws) && Valid(groups, bin, b, p) && i <= |ws|
    requires forall k :: 0 <= k < |ws| ==>
               if k < i then Key(groups, p) < Key(groups, ws[k]) else Key(groups, p) > Key(groups, ws[k])
    ensures Descending(groups, bin, b, ws[..i] + [p] + ws[i..])
  {
    var ws' := ws[..i] + [p] + ws[i..];
    assert forall k :: 0 <= k < |ws'| ==> ws'[k] == if k < i then ws[k] else if k == i then p else ws[k - 1];
  }

  lemma {:induction false} InsertPointers(ws: seq<Pointer>, p: Pointer, i: nat)
    requires i <= |ws|
    ensures Pointers(ws[..i] + [p] + ws[i..]) + Also(None) == Pointers(ws) + Also(Some(p))
  {
    assert ws == ws[..i] + ws[i..];
  }

  lemma {:induction false} Replace<H>(groups: seq<seq<Entry<H>>>, bin: Pubkey -> nat, b: nat, ws: seq<Pointer>,
                                      p: Pointer, i: nat)
    requires Descending(groups, bin, b, ws) && Valid(groups, bin, b, p)
    requires i < |ws| && Key(groups, ws[i]) == Key(groups, p)
    ensures Descending(groups, bin, b, ws[i := p])
    ensures Pointers(ws[i := p]) == Pointers(ws) - {ws[i]} + {p}
  {
    var ws' := ws[i := p];
    forall q ensures q in Pointers(ws') <==> q in Pointers(ws) - {ws[i]} + {p} {
      if q in ws && q != ws[i] {
        var k :| 0 <= k < |ws| && ws[k] == q;
        assert ws'[k] == q;
      }
      assert ws'[i] == p;
      assert forall k :: 0 <= k < |ws| && k != i ==> Key(groups, ws[k]) != Key(groups, ws[i]);
    }
  }

  // ---------- how many keys there can be ----------

  function CountInBin<H>(es: seq<Entry<H>>, bin: Pubkey -> nat, b: nat): nat {
    if es == [] then 0
    else CountInBin(es[..|es| - 1], bin, b) + (if bin(es[|es| - 1].pubkey) == b then 1 else 0)
  }

  lemma {:induction false} CountAppend<H>(x: seq<Entry<H>>, y: seq<Entry<H>>, bin: Pubkey -> nat, b: nat)
    ensures CountInBin(x + y, bin, b) == CountInBin(x, bin, b) + CountInBin(y, bin, b)
  {
    if y == [] {
      assert x + y == x;
    } else {
      assert (x + y)[..|x + y| - 1] == x + y[..|y| - 1];
      CountAppend(x, y[..|y| - 1], bin, b);
    }
  }

  lemma {:induction false} KeysWithinCount<H>(es: seq<Entry<H>>, bin: Pubkey -> nat, b: nat)
    ensures |BinKeys(es, bin, b)| <= CountInBin(es, bin, b)
  {
    if es == [] {
      assert BinKeys(es, bin, b) == {};
    } else {
      var init, k := es[..|es| - 1], es[|es| - 1].pubkey;
      KeysWithinCount(init, bin, b);
      var last: set<Pubkey> := if bin(k) == b then {k} else {};
      forall x | x in BinKeys(es, bin, b) ensures x in BinKeys(init, bin, b) + last {
        var i :| 0 <= i < |es| && es[i].pubkey == x;
        if i < |init| { assert init[i].pubkey == x; }
      }
      SubsetSize(BinKeys(es, bin, b), BinKeys(init, bin, b) + last);
    }
  }

  lemma {:induction false} CountRange<H>(data: seq<Entry<H>>, bin: Pubkey -> nat, b: nat, first: nat, end: nat)
    requires first <= end <= |data|
    requires forall i :: 0 <= i < |data| ==> (bin(data[i].pubkey) == b <==> first <= i < end)
    ensures CountInBin(data, bin, b) == end - first
    decreases |data|
  {
    if data != [] {
      var n := |data| - 1;
      CountRange(data[..n], bin, b, Min(first, n), Min(end, n));
    }
  }

  // ---------- the first working set ----------

  lemma {:induction false} AddGroup<H>(groups: seq<seq<Entry<H>>>, bin: Pubkey -> nat, b: nat, i: nat, ws: seq<Pointer>,
                                       first: Option<nat>)
    requires i < |groups| && FirstInBin(groups[i], bin, b, first)
    requires Pending(groups, bin, b, i + 1, ws, None, -1)
    ensures Pending(groups, bin, b, i, ws, if first.Some? then Some(Pointer(i, first.value)) else None, -1)
  {
    var next := if first.Some? then Some(Pointer(i, first.value)) else None;
    var ps, ps' := Pointers(ws) + Also(None), Pointers(ws) + Also(next);
    assert forall p :: p in ws ==> p in ps && p.group > i;
    assert OnePerGroup(ps');
    forall p | p in ps' ensures Valid(groups, bin, b, p) && Key(groups, p) > -1 && p.group >= i {
      if p in ws { assert p in ps; }
    }
    forall q | Valid(groups, bin, b, q) && q.group >= i ensures Covered(groups, bin, b, ps', q) {
      if q.group == i {
        FirstCovers(groups, bin, b, first, q);
        assert next.value in ps';
      } else {
        CoveredByMore(groups, bin, b, ps, ps', q);
      }
    }
    assert Frontier(groups, bin, b, i, ps', -1);
    assert Descending(groups, bin, b, ws);
    assert next.Some? ==> next.value !in ws;
  }

  lemma {:induction false} FirstCovers<H>(groups: seq<seq<Entry<H>>>, bin: Pubkey -> nat, b: nat, first: Option<nat>,
                                          q: Pointer)
    requires Valid(groups, bin, b, q) && FirstInBin(groups[q.group], bin, b, first)
    ensures first.Some? && Covers(groups, bin, b, Pointer(q.group, first.value), q)
  {
  }

  lemma {:induction false} CoveredByMore<H>(groups: seq<seq<Entry<H>>>, bin: Pubkey -> nat, b: nat, ps: set<Pointer>,
                                            ps': set<Pointer>, q: Pointer)
    requires Covered(groups, bin, b, ps, q) && ps <= ps'
    ensures Covered(groups, bin, b, ps', q)
  {
  }

  method InitializeDedupWorkingSet<H>(groups: seq<seq<Entry<H>>>, bin: Pubkey -> nat, b: nat, bins: nat)
    returns (ws: seq<Pointer>, maxKeys: nat)
    requires AllSorted(groups) && Monotone(bin) && b < bins
    ensures Pending(groups, bin, b, 0, ws, None, -1)
    ensures maxKeys == CountInBin(Flatten(groups), bin, b)
  {
    ws, maxKeys := [], 0;
    for i := |groups| downto 0
      invariant Pending(groups, bin, b, i, ws, None, -1)
      invariant maxKeys == CountInBin(Flatten(groups[i..]), bin, b)
    {
      var data := groups[i];
      var first := FindFirstPubkeyInBin(data, bin, b, bins);
      AddGroup(groups, bin, b, i, ws, first);
      var count := CountGroup(data, bin, b, first);
      CountAppend(data, Flatten(groups[i + 1..]), bin, b);
      assert groups[i..][1..] == groups[i + 1..];
      maxKeys := maxKeys + count;
      if first.Some? {
        ws := AddNextItem(groups, bin, b, Some(Pointer(i, first.value)), ws, i, -1);
      }
    }
    assert groups[0..] == groups;
  }

  method CountGroup<H>(data: seq<Entry<H>>, bin: Pubkey -> nat, b: nat, first: Option<nat>) returns (count: nat)
    requires SortedByPubkey(data) && Monotone(bin) && FirstInBin(data, bin, b, first)
    ensures count == CountInBin(data, bin, b)
  {
    if first.None? {
      CountRange(data, bin, b, 0, 0);
      return 0;
    }
    var nextBin := first.value + 1;
    while nextBin < |data|
      invariant first.value < nextBin <= |data|
      invariant forall i :: first.value <= i < nextBin ==> bin(data[i].pubkey) == b
    {
      if bin(data[nextBin].pubkey) != b { break; }
      nextBin := nextBin + 1;
    }
    forall i | 0 <= i < |data| ensures bin(data[i].pubkey) == b <==> first.value <= i < nextBin {
      if i >= nextBin {
        assert data[first.value].pubkey <= data[nextBin].pubkey;
        assert i > nextBin ==> data[nextBin].pubkey <= data[i].pubkey;
      }
    }
    CountRange(data, bin, b, first.value, nextBin);
    count := nextBin - first.value;
  }
}
