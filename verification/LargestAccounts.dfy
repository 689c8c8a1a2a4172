/** The accounts with the most lamports, selected during a scan with a heap of bounded size. */
module LargestAccounts {
  import opened Common
  import opened KeyOrder
  import opened Sorting

  datatype Entry = Entry(lamports: nat, pubkey: Pubkey)

  datatype ScanError = SlotRemoved

  datatype AddressFilter = Exclude | Include

  /** Entries in the order of their lamports, then of their pubkeys. */
  function Rank(e: Entry): nat {
    e.lamports * PUBKEY_LIMIT + e.pubkey
  }

  lemma {:induction false} RankOrders(a: Entry, b: Entry)
    ensures Rank(a) < Rank(b) <==> a.lamports < b.lamports || (a.lamports == b.lamports && a.pubkey < b.pubkey)
    ensures Rank(a) == Rank(b) <==> a == b
  {
  }

  /** The filter lets the account through: it has lamports, and its address is listed exactly if that is asked for. */
  ghost predicate Passes(e: Entry, addresses: set<Pubkey>, filter: AddressFilter) {
    e.lamports > 0 && (filter.Include? <==> e.pubkey in addresses)
  }

  type Scan = seq<Option<Entry>>

  /** What a scan offers to the selection. */
  ghost function Collected(scan: Scan, addresses: set<Pubkey>, filter: AddressFilter): set<Entry> {
    set i | 0 <= i < |scan| && scan[i].Some? && Passes(scan[i].value, addresses, filter) :: scan[i].value
  }

  ghost predicate DistinctKeys(scan: Scan) {
    forall i, j :: 0 <= i < j < |scan| && scan[i].Some? && scan[j].Some? ==>
      scan[i].value.pubkey != scan[j].value.pubkey
  }

  // ---------- the simple form ----------

  ghost predicate Descending(s: seq<Entry>) {
    forall i, j :: 0 <= i < j < |s| ==> Rank(s[i]) > Rank(s[j])
  }

  /** The `num` greatest of `entries`, or all if there are fewer, from the greatest down. */
  ghost predicate IsTop(top: seq<Entry>, entries: set<Entry>, num: nat) {
    && |top| == Min(num, |entries|) && Descending(top)
    && (forall x :: x in top ==> x in entries)
    && forall x, y :: x in entries && x !in top && y in top ==> Rank(x) < Rank(y)
  }

  /** There is only one such list, so the order of the scan does not matter. */
  lemma {:induction false} TopIsUnique(a: seq<Entry>, b: seq<Entry>, entries: set<Entry>, num: nat)
    requires IsTop(a, entries, num) && IsTop(b, entries, num)
    ensures a == b
  {
    SameElements(a, b, entries, num);
    SameElements(b, a, entries, num);
    SameOrder(a, b);
  }

  lemma {:induction false} SameElements(a: seq<Entry>, b: seq<Entry>, entries: set<Entry>, num: nat)
    requires IsTop(a, entries, num) && IsTop(b, entries, num)
    ensures forall x :: x in a ==> x in b
  {
    var sa, sb := set x | x in a, set x | x in b;
    DistinctSize(a);
    DistinctSize(b);
    if sb <= sa {
      assert sa == sb + (sa - sb) && |sa - sb| == 0;
      assert forall x :: x in a ==> x in sa;
    } else {
      var y :| y in sb && y !in sa;
      forall x | x in a ensures x in b { assert Rank(y) < Rank(x); }
    }
  }

  lemma {:induction false} SameOrder(a: seq<Entry>, b: seq<Entry>)
    requires |a| == |b| && Descending(a) && Descending(b)
    requires (forall x :: x in a ==> x in b) && forall x :: x in b ==> x in a
    ensures a == b
  {
    if a != [] {
      assert a[0] in b && b[0] in a;
      assert a[0] == b[0];
      forall x | x in a[1..] ensures x in b[1..] { assert x in b && x != a[0]; }
      forall x | x in b[1..] ensures x in a[1..] { assert x in a && x != b[0]; }
      SameOrder(a[1..], b[1..]);
      assert a == [a[0]] + a[1..] && b == [b[0]] + b[1..];
    }
  }

  // ---------- the bounded heap ----------

  ghost predicate Rising(s: seq<Entry>) {
    forall i, j :: 0 <= i < j < |s| ==> Rank(s[i]) < Rank(s[j])
  }

  lemma {:induction false} InsertRises(e: Entry, s: seq<Entry>)
    requires Rising(s) && e !in s
    ensures Rising(Insert(e, s, Rank))
    ensures forall x :: x in Insert(e, s, Rank) <==> x == e || x in s
    ensures var r := Insert(e, s, Rank); r[0] == e || (s != [] && r[0] == s[0])
  {
    if s != [] && Rank(e) > Rank(s[0]) {
      InsertRises(e, s[1..]);
      assert s == [s[0]] + s[1..];
    } else if s != [] {
      RankOrders(e, s[0]);
    }
  }

  /** The heap, smallest first, holds the greatest of what was seen: all of it while there is room. */
  ghost predicate HeapOk(heap: seq<Entry>, seen: set<Entry>, num: nat) {
    && Rising(heap) && |heap| <= num && (forall x :: x in heap ==> x in seen)
    && (|heap| < num ==> forall x :: x in seen ==> x in heap)
    && forall x, y :: x in seen && x !in heap && y in heap ==> Rank(x) < Rank(y)
  }

  /** Takes an entry into the heap if there is room or it beats the smallest one. */
  method Offer(heap: seq<Entry>, e: Entry, num: nat, ghost seen: set<Entry>) returns (heap': seq<Entry>)
    requires HeapOk(heap, seen, num) && num > 0 && e !in seen
    ensures HeapOk(heap', seen + {e}, num)
  {
    heap' := heap;
    if |heap| == num {
      RankOrders(heap[0], e);
      if Rank(heap[0]) >= Rank(e) {
        return;
      }
      heap' := heap'[1..];
      Replaced(heap, e, num, seen);
    } else {
      InsertRises(e, heap);
    }
    heap' := Insert(e, heap', Rank);
  }

  lemma {:induction false} Replaced(heap: seq<Entry>, e: Entry, num: nat, seen: set<Entry>)
    requires HeapOk(heap, seen, num) && |heap| == num > 0 && e !in seen && Rank(heap[0]) < Rank(e)
    ensures HeapOk(Insert(e, heap[1..], Rank), seen + {e}, num)
  {
    var rest := heap[1..];
    assert heap == [heap[0]] + rest;
    InsertRises(e, rest);
    var heap' := Insert(e, rest, Rank);
    forall x, y | x in seen + {e} && x !in heap' && y in heap' ensures Rank(x) < Rank(y) {
      assert x == heap[0] || x !in heap;
      assert y == e || y in rest;
    }
  }

  function Reverse<T>(s: seq<T>): (r: seq<T>)
    ensures |r| == |s| && forall i :: 0 <= i < |s| ==> r[i] == s[|s| - 1 - i]
  {
    seq(|s|, i requires 0 <= i < |s| => s[|s| - 1 - i])
  }

  lemma {:induction false} HeapIsTop(heap: seq<Entry>, seen: set<Entry>, num: nat)
    requires HeapOk(heap, seen, num)
    ensures IsTop(Reverse(heap), seen, num)
  {
    var top, held := Reverse(heap), set x | x in heap;
    DistinctSize(heap);
    SubsetSize(held, seen);
    if |heap| < num { assert held == seen; }
    forall x ensures x in top <==> x in heap {
      if x in heap {
        var i :| 0 <= i < |heap| && heap[i] == x;
        assert top[|heap| - 1 - i] == x;
      }
    }
  }

  /** The scan's top `num` accounts from the richest down, whatever the order of the scan. */
  method LoadLargestAccounts(scan: Result<Scan, ScanError>, num: nat, addresses: set<Pubkey>, filter: AddressFilter)
    returns (r: Result<seq<Entry>, ScanError>)
    requires scan.Ok? ==> DistinctKeys(scan.value)
    ensures num > 0 && scan.Err? ==> r == Err(scan.error)
    ensures num == 0 ==> r == Ok([])
    ensures scan.Ok? ==> r.Ok? && IsTop(r.value, Collected(scan.value, addresses, filter), num)
    ensures r.Ok? ==> forall e :: e in r.value ==> e.lamports != 0 && (e.pubkey in addresses <==> filter.Include?)
    ensures r.Ok? && scan.Ok? ==>
              forall i :: 0 <= i < |scan.value| && scan.value[i].Some? ==>
                var e := scan.value[i].value;
                e.lamports != 0 && (e.pubkey in addresses <==> filter.Include?) && e !in r.value ==>
                  && |r.value| == num
                  && forall y :: y in r.value ==>
                       y.lamports > e.lamports || (y.lamports == e.lamports && y.pubkey > e.pubkey)
  {
    if num == 0 {
      return Ok([]);
    }
    if scan.Err? {
      return Err(scan.error);
    }
    var items, heap := scan.value, [];
    for i := 0 to |items|
      invariant HeapOk(heap, Collected(items[..i], addresses, filter), num)
    {
      CollectedStep(items, i, addresses, filter);
      if items[i].None? || items[i].value.lamports == 0 {
        continue;
      }
      var containsAddress := items[i].value.pubkey in addresses;
      var collect := match filter case Exclude => !containsAddress case Include => containsAddress;
      if !collect {
        continue;
      }
      heap := Offer(heap, items[i].value, num, Collected(items[..i], addresses, filter));
    }
    assert items[..|items|] == items;
    HeapIsTop(heap, Collected(items, addresses, filter), num);
    r := Ok(Reverse(heap));
    forall i | 0 <= i < |items| && items[i].Some? && Passes(items[i].value, addresses, filter)
      ensures items[i].value in r.value || Beaten(items[i].value, r.value, num)
    {
      LeftOut(r.value, Collected(items, addresses, filter), num, items[i].value);
    }
  }

  /** The list is full, of accounts that come before `e`. */
  ghost predicate Beaten(e: Entry, top: seq<Entry>, num: nat) {
    && |top| == num
    && forall y :: y in top ==> y.lamports > e.lamports || (y.lamports == e.lamports && y.pubkey > e.pubkey)
  }

  lemma {:induction false} LeftOut(top: seq<Entry>, entries: set<Entry>, num: nat, e: Entry)
    requires IsTop(top, entries, num) && e in entries
    ensures e in top || Beaten(e, top, num)
  {
    if e !in top {
      forall y | y in top ensures y.lamports > e.lamports || (y.lamports == e.lamports && y.pubkey > e.pubkey) {
        RankOrders(e, y);
      }
      var held := set x | x in top;
      DistinctSize(top);
      assert held <= entries - {e};
      SubsetSize(held, entries - {e});
    }
  }

  lemma {:induction false} CollectedStep(scan: Scan, i: nat, addresses: set<Pubkey>, filter: AddressFilter)
    requires DistinctKeys(scan) && i < |scan|
    ensures var before := Collected(scan[..i], addresses, filter);
            if scan[i].Some? && Passes(scan[i].value, addresses, filter)
            then scan[i].value !in before && Collected(scan[..i + 1], addresses, filter) == before + {scan[i].value}
            else Collected(scan[..i + 1], addresses, filter) == before
  {
    var a, b := scan[..i], scan[..i + 1];
    assert b == a + [scan[i]];
    forall x | x in Collected(a, addresses, filter) ensures x in Collected(b, addresses, filter) {
      var j :| 0 <= j < |a| && a[j].Some? && Passes(a[j].value, addresses, filter) && a[j].value == x;
      assert b[j] == a[j];
    }
    if scan[i].Some? && Passes(scan[i].value, addresses, filter) {
      assert b[i].value in Collected(b, addresses, filter);
    }
  }
}
