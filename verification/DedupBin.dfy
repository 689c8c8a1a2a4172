/**
 The hash file and the lamport total of one bin: for every pubkey of the bin, in ascending order,
 its entry in force.
 */
module DedupBin {
  import opened Common
  import opened KeyOrder
  import opened PubkeyBins
  import opened Dedup
  import opened DedupMerge

  datatype Panic = CapitalizationOverflow

  /** A file of hashes whose size is fixed before the first one is written. */
  class AccountHashesFile<H> {
    var hashes: seq<H>
    const capacity: nat

    constructor (capacity: nat)
      ensures hashes == [] && this.capacity == capacity
    {
      hashes := [];
      this.capacity := capacity;
    }

    method Write(hash: H)
      requires |hashes| < capacity
      modifies this
      ensures hashes == old(hashes) + [hash]
    {
      hashes := hashes + [hash];
    }
  }

  // ---------- entries and where they are ----------

  lemma {:induction false} LocateKey<H>(groups: seq<seq<Entry<H>>>, k: Pubkey) returns (q: Pointer)
    requires Has(Flatten(groups), k)
    ensures q.group < |groups| && q.offset < |groups[q.group]| && Key(groups, q) == k
  {
    var es, head := Flatten(groups), groups[0];
    var i :| 0 <= i < |es| && es[i].pubkey == k;
    if i < |head| {
      q := Pointer(0, i);
    } else {
      assert Flatten(groups[1..])[i - |head|].pubkey == k;
      var rest := LocateKey(groups[1..], k);
      q := Pointer(rest.group + 1, rest.offset);
    }
  }

  lemma {:induction false} LocateFrom<H>(groups: seq<seq<Entry<H>>>, from: nat, k: Pubkey) returns (q: Pointer)
    requires from <= |groups| && Has(Flatten(groups[from..]), k)
    ensures from <= q.group < |groups| && q.offset < |groups[q.group]| && Key(groups, q) == k
  {
    var rest := LocateKey(groups[from..], k);
    q := Pointer(from + rest.group, rest.offset);
  }

  lemma {:induction false} HasKey<H>(groups: seq<seq<Entry<H>>>, q: Pointer)
    requires q.group < |groups| && q.offset < |groups[q.group]|
    ensures Has(Flatten(groups), Key(groups, q))
  {
    var before := Flatten(groups[..q.group]);
    assert groups == groups[..q.group] + groups[q.group..];
    FlattenAppend(groups[..q.group], groups[q.group..]);
    assert Flatten(groups)[|before| + q.offset] == groups[q.group][q.offset];
  }

  lemma {:induction false} LastEntryAppend<H>(x: seq<Entry<H>>, y: seq<Entry<H>>, k: Pubkey)
    requires Has(x, k) || Has(y, k)
    ensures Has(x + y, k)
    ensures LastEntry(x + y, k) == if Has(y, k) then LastEntry(y, k) else LastEntry(x, k)
    decreases |y|
  {
    if y == [] {
      assert x + y == x;
    } else {
      var n := |y| - 1;
      assert (x + y)[|x| + n] == y[n];
      if y[n].pubkey != k {
        forall i | 0 <= i < |y| && y[i].pubkey == k ensures Has(y[..n], k) { assert y[..n][i].pubkey == k; }
        assert (x + y)[..|x + y| - 1] == x + y[..n];
        LastEntryAppend(x, y[..n], k);
        var i :| 0 <= i < |x + y[..n]| && (x + y[..n])[i].pubkey == k;
        assert (x + y)[i].pubkey == k;
      }
    }
  }

  ghost predicate SameKey<H>(groups: seq<seq<Entry<H>>>, q: Pointer, p: Pointer) {
    && q.group < |groups| && q.offset < |groups[q.group]| && p.group < |groups| && p.offset < |groups[p.group]|
    && Key(groups, q) == Key(groups, p)
  }

  ghost predicate NoneAfter<H>(groups: seq<seq<Entry<H>>>, p: Pointer) {
    forall q :: SameKey(groups, q, p) ==> q.group < p.group || (q.group == p.group && q.offset <= p.offset)
  }

  /** With nothing for its key after it, in its group or in a later one, an entry is the one in force. */
  lemma {:induction false} InForce<H>(groups: seq<seq<Entry<H>>>, p: Pointer)
    requires p.group < |groups| && p.offset < |groups[p.group]|
    requires NoneAfter(groups, p)
    ensures Has(Flatten(groups), Key(groups, p))
    ensures LastEntry(Flatten(groups), Key(groups, p)) == groups[p.group][p.offset]
  {
    var k, data := Key(groups, p), groups[p.group];
    var before, after := groups[..p.group], groups[p.group + 1..];
    assert groups == before + ([data] + after);
    FlattenAppend(before, [data] + after);
    assert Flatten([data] + after) == data + Flatten(after);
    if Has(Flatten(after), k) {
      var q := LocateFrom(groups, p.group + 1, k);
      assert false;
    }
    forall i | p.offset < i < |data| ensures data[i].pubkey != k {
      assert !SameKey(groups, Pointer(p.group, i), p);
    }
    LastInGroup(data, p.offset);
    LastEntryAppend(data, Flatten(after), k);
    LastEntryAppend(Flatten(before), Flatten([data] + after), k);
  }

  lemma {:induction false} LastInGroup<H>(data: seq<Entry<H>>, offset: nat)
    requires offset < |data|
    requires forall i :: offset < i < |data| ==> data[i].pubkey != data[offset].pubkey
    ensures Has(data, data[offset].pubkey) && LastEntry(data, data[offset].pubkey) == data[offset]
    decreases |data|
  {
    if offset < |data| - 1 {
      LastInGroup(data[..|data| - 1], offset);
    }
  }

  // ---------- progress of the merge ----------

  /** `ks` lists the keys of the bin up to `lo`, in order. */
  ghost predicate Emitted<H>(es: seq<Entry<H>>, bin: Pubkey -> nat, b: nat, ks: seq<Pubkey>, lo: int) {
    Ascending(ks) && Elements(ks) == set k | k in BinKeys(es, bin, b) && k <= lo
  }

  lemma {:induction false} LeastPointer<H>(groups: seq<seq<Entry<H>>>, bin: Pubkey -> nat, b: nat, ws: seq<Pointer>,
                                           q: Pointer, lo: int)
    requires AllSorted(groups) && Pending(groups, bin, b, 0, ws, None, lo) && ws != []
    requires Valid(groups, bin, b, q) && Key(groups, q) > lo
    ensures Valid(groups, bin, b, ws[|ws| - 1])
    ensures Key(groups, ws[|ws| - 1]) <= Key(groups, q)
    ensures Key(groups, q) == Key(groups, ws[|ws| - 1]) ==>
              q.group < ws[|ws| - 1].group || (q.group == ws[|ws| - 1].group && q.offset >= ws[|ws| - 1].offset)
  {
    var ps := Pointers(ws) + Also(None);
    assert Covered(groups, bin, b, ps, q);
    var p :| p in ps && Covers(groups, bin, b, p, q);
    LastIsLeast(groups, bin, b, ws, p);
    CoversKey(groups, bin, b, p, q);
  }

  lemma {:induction false} LastIsLeast<H>(groups: seq<seq<Entry<H>>>, bin: Pubkey -> nat, b: nat, ws: seq<Pointer>,
                                          p: Pointer)
    requires Descending(groups, bin, b, ws) && p in ws && Valid(groups, bin, b, p)
    ensures Valid(groups, bin, b, ws[|ws| - 1])
    ensures p == ws[|ws| - 1] || Key(groups, p) > Key(groups, ws[|ws| - 1])
  {
    var i :| 0 <= i < |ws| && ws[i] == p;
    var last := |ws| - 1;
    assert i < last ==> Key(groups, ws[i]) > Key(groups, ws[last]);
  }

  lemma {:induction false} CoversKey<H>(groups: seq<seq<Entry<H>>>, bin: Pubkey -> nat, b: nat, p: Pointer, q: Pointer)
    requires AllSorted(groups) && Covers(groups, bin, b, p, q)
    ensures Key(groups, p) <= Key(groups, q)
  {
    if p.group == q.group {
      assert SortedByPubkey(groups[p.group]);
    }
  }

  lemma {:induction false} WithinRun<H>(data: seq<Entry<H>>, offset: nat, i: nat)
    requires SortedByPubkey(data) && offset <= i < |data| && data[i].pubkey == data[offset].pubkey
    ensures i < RunEnd(data, offset)
  {
  }

  /** Every entry with the least key is in an earlier group, or in the run the least location is at. */
  lemma {:induction false} NothingLater<H>(groups: seq<seq<Entry<H>>>, bin: Pubkey -> nat, b: nat, ws: seq<Pointer>,
                                           lo: int, q: Pointer)
    requires AllSorted(groups) && Pending(groups, bin, b, 0, ws, None, lo) && ws != []
    requires Valid(groups, bin, b, ws[|ws| - 1]) && Key(groups, ws[|ws| - 1]) > lo
    requires q.group < |groups| && q.offset < |groups[q.group]| && Key(groups, q) == Key(groups, ws[|ws| - 1])
    ensures var p := ws[|ws| - 1];
            q.group < p.group || (q.group == p.group && q.offset < RunEnd(groups[p.group], p.offset))
  {
    var p := ws[|ws| - 1];
    LeastPointer(groups, bin, b, ws, q, lo);
    if q.group == p.group { WithinRun(groups[p.group], p.offset, q.offset); }
  }

  function Winner<H>(groups: seq<seq<Entry<H>>>, p: Pointer): (w: Pointer)
    requires p.group < |groups| && p.offset < |groups[p.group]|
    ensures SameKey(groups, w, p) && w.group == p.group
  {
    Pointer(p.group, RunEnd(groups[p.group], p.offset) - 1)
  }

  lemma {:induction false} WinnerLast<H>(groups: seq<seq<Entry<H>>>, bin: Pubkey -> nat, b: nat, ws: seq<Pointer>,
                                         lo: int)
    requires AllSorted(groups) && Pending(groups, bin, b, 0, ws, None, lo) && ws != []
    requires Valid(groups, bin, b, ws[|ws| - 1]) && Key(groups, ws[|ws| - 1]) > lo
    ensures NoneAfter(groups, Winner(groups, ws[|ws| - 1]))
  {
    var w := Winner(groups, ws[|ws| - 1]);
    forall q | SameKey(groups, q, w) ensures q.group < w.group || (q.group == w.group && q.offset <= w.offset) {
      NothingLater(groups, bin, b, ws, lo, q);
    }
  }

  lemma {:induction false} WinnerEntry<H>(groups: seq<seq<Entry<H>>>, p: Pointer)
    requires p.group < |groups| && p.offset < |groups[p.group]| && NoneAfter(groups, Winner(groups, p))
    ensures Has(Flatten(groups), Key(groups, p))
    ensures LastEntry(Flatten(groups), Key(groups, p)) == groups[p.group][RunEnd(groups[p.group], p.offset) - 1]
  {
    InForce(groups, Winner(groups, p));
  }

  lemma {:induction false} EmitNext<H>(groups: seq<seq<Entry<H>>>, bin: Pubkey -> nat, b: nat, ws: seq<Pointer>,
                                       ks: seq<Pubkey>, lo: int)
    requires AllSorted(groups) && Pending(groups, bin, b, 0, ws, None, lo) && ws != []
    requires Valid(groups, bin, b, ws[|ws| - 1]) && Key(groups, ws[|ws| - 1]) > lo
    requires Emitted(Flatten(groups), bin, b, ks, lo)
    ensures Emitted(Flatten(groups), bin, b, ks + [Key(groups, ws[|ws| - 1])], Key(groups, ws[|ws| - 1]))
  {
    var es, k := Flatten(groups), Key(groups, ws[|ws| - 1]);
    HasKey(groups, ws[|ws| - 1]);
    forall x | x in BinKeys(es, bin, b) && lo < x <= k ensures x == k {
      var q := LocateKey(groups, x);
      LeastPointer(groups, bin, b, ws, q, lo);
    }
    Extended(BinKeys(es, bin, b), ks, lo, k);
  }

  lemma {:induction false} Extended(all: set<Pubkey>, ks: seq<Pubkey>, lo: int, k: Pubkey)
    requires Ascending(ks) && Elements(ks) == set x | x in all && x <= lo
    requires k in all && k > lo && forall x :: x in all && lo < x <= k ==> x == k
    ensures Ascending(ks + [k]) && Elements(ks + [k]) == set x | x in all && x <= k
  {
    assert forall i :: 0 <= i < |ks| ==> ks[i] in Elements(ks);
    assert Elements(ks + [k]) == Elements(ks) + {k};
  }

  lemma {:induction false} AllEmitted<H>(groups: seq<seq<Entry<H>>>, bin: Pubkey -> nat, b: nat, ks: seq<Pubkey>,
                                         lo: int)
    requires Pending(groups, bin, b, 0, [], None, lo) && Emitted(Flatten(groups), bin, b, ks, lo)
    ensures ks == SortedSeq(BinKeys(Flatten(groups), bin, b))
  {
    var es := Flatten(groups);
    forall x | x in BinKeys(es, bin, b) ensures x <= lo {
      var q := LocateKey(groups, x);
      assert !Covered(groups, bin, b, Pointers([]) + Also(None), q);
    }
    assert Elements(ks) == BinKeys(es, bin, b);
    AscendingUnique(ks, SortedSeq(BinKeys(es, bin, b)));
  }

  /** The keys emitted so far are a prefix of the final list, so a partial sum bounds the total from below. */
  lemma {:induction false} PartialSum<H>(es: seq<Entry<H>>, bin: Pubkey -> nat, b: nat, ks: seq<Pubkey>, lo: int)
    requires Emitted(es, bin, b, ks, lo)
    ensures AllIn(ks, es) && AllIn(SortedSeq(BinKeys(es, bin, b)), es)
    ensures Lamports(es, ks) <= Lamports(es, SortedSeq(BinKeys(es, bin, b)))
    ensures |ks| <= CountInBin(es, bin, b)
  {
    var all := BinKeys(es, bin, b);
    var low, high := set k | k in all && k <= lo, set k | k in all && k > lo;
    var rest := SortedSeq(high);
    assert all == low + high;
    SortedUnion(low, high);
    AscendingUnique(ks, SortedSeq(low));
    KeysAllIn(es, ks);
    KeysAllIn(es, rest);
    SumAppend(es, ks, rest);
    AscendingSize(ks);
    SubsetSize(Elements(ks), all);
    KeysWithinCount(es, bin, b);
  }

  /** Takes the least key out of the working set, with its entry in force. */
  method TakeLeast<H>(groups: seq<seq<Entry<H>>>, bin: Pubkey -> nat, b: nat, given: seq<Pointer>,
                      ghost ks: seq<Pubkey>, ghost lo: int)
    returns (item: Entry<H>, ws: seq<Pointer>)
    requires AllSorted(groups) && Monotone(bin) && Pending(groups, bin, b, 0, given, None, lo) && given != []
    requires Emitted(Flatten(groups), bin, b, ks, lo)
    ensures item.pubkey > lo && Pending(groups, bin, b, 0, ws, None, item.pubkey)
    ensures Has(Flatten(groups), item.pubkey) && item == LastEntry(Flatten(groups), item.pubkey)
    ensures Emitted(Flatten(groups), bin, b, ks + [item.pubkey], item.pubkey)
  {
    var p := given[|given| - 1];
    assert p in Pointers(given) + Also(None);
    WinnerLast(groups, bin, b, given, lo);
    WinnerEntry(groups, p);
    EmitNext(groups, bin, b, given, ks, lo);
    PopPending(groups, bin, b, given, lo);
    var key := Key(groups, p);
    var next;
    item, next := GetItem(groups, bin, b, key, p);
    ws := AddNextItem(groups, bin, b, next, given[..|given| - 1], 0, key);
  }

  /** What a winning entry adds to the hash file: nothing for an account without lamports, unless these are included. */
  method WriteItem<H>(file: AccountHashesFile<H>, item: Entry<H>, zeroHash: Pubkey -> H, included: bool)
    requires |file.hashes| < file.capacity
    modifies file
    ensures file.hashes == old(file.hashes) + Written(item, zeroHash, included)
  {
    if item.lamports != 0 {
      file.Write(item.hash);
    } else if included {
      file.Write(zeroHash(item.pubkey));
    }
  }

  /** The merge: the hashes and the lamports of the entries in force, key by key. */
  method MergeBin<H>(groups: seq<seq<Entry<H>>>, bin: Pubkey -> nat, b: nat, bins: nat, zeroHash: Pubkey -> H,
                     included: bool)
    returns (r: Result<(seq<H>, nat), Panic>)
    requires AllSorted(groups) && Monotone(bin) && b < bins
    ensures var es := Flatten(groups); var ks := SortedSeq(BinKeys(es, bin, b));
            AllIn(ks, es) &&
            r == if Lamports(es, ks) <= U64_MAX then Ok((Hashes(es, ks, zeroHash, included), Lamports(es, ks)))
                 else Err(CapitalizationOverflow)
  {
    ghost var es := Flatten(groups);
    var ws, maxKeys := InitializeDedupWorkingSet(groups, bin, b, bins);
    var file := new AccountHashesFile<H>(maxKeys);
    var sum := 0;
    ghost var ks: seq<Pubkey>, lo := [], -1;
    while ws != []
      invariant Pending(groups, bin, b, 0, ws, None, lo) && Emitted(es, bin, b, ks, lo) && AllIn(ks, es)
      invariant -1 <= lo < PUBKEY_LIMIT
      invariant sum == Lamports(es, ks) <= U64_MAX
      invariant file.hashes == Hashes(es, ks, zeroHash, included) && |file.hashes| <= |ks|
      decreases PUBKEY_LIMIT - lo
    {
      var item, ws' := TakeLeast(groups, bin, b, ws, ks, lo);
      ghost var ks' := ks + [item.pubkey];
      PartialSum(es, bin, b, ks', item.pubkey);
      assert ks'[..|ks'| - 1] == ks;
      if item.lamports != 0 {
        if item.lamports + sum > U64_MAX {
          return Err(CapitalizationOverflow);
        }
        sum := item.lamports + sum;
      }
      WriteItem(file, item, zeroHash, included);
      ks, lo, ws := ks', item.pubkey, ws';
    }
    AllEmitted(groups, bin, b, ks, lo);
    r := Ok((file.hashes, sum));
  }

  method DeDupAccountsInBin<H>(groups: seq<seq<Entry<H>>>, bin: Pubkey -> nat, b: nat, bins: nat,
                               zeroHash: Pubkey -> H, included: bool)
    returns (r: Result<(seq<H>, nat), Panic>)
    requires AllSorted(groups) && Monotone(bin) && b < bins
    ensures var es := Flatten(groups); var ks := SortedSeq(BinKeys(es, bin, b));
            AllIn(ks, es) &&
            r == if Lamports(es, ks) <= U64_MAX then Ok((Hashes(es, ks, zeroHash, included), Lamports(es, ks)))
                 else Err(CapitalizationOverflow)
    ensures r.Ok? && !included ==>
              var es, hashes := Flatten(groups), r.value.0;
              var ks := SortedSeq(Funded(es, BinKeys(es, bin, b)));
              |hashes| == |ks| &&
              forall i {:trigger hashes[i]} :: 0 <= i < |ks| ==>
                Has(es, ks[i]) && hashes[i] == LastEntry(es, ks[i]).hash
    ensures r.Ok? && included ==>
              var es, hashes := Flatten(groups), r.value.0;
              var ks := SortedSeq(BinKeys(es, bin, b));
              |hashes| == |ks| &&
              forall i {:trigger hashes[i]} :: 0 <= i < |ks| ==>
                Has(es, ks[i]) &&
                hashes[i] == if LastEntry(es, ks[i]).lamports == 0 then zeroHash(ks[i]) else LastEntry(es, ks[i]).hash
  {
    r := MergeBin(groups, bin, b, bins, zeroHash, included);
    HashesAreListed(Flatten(groups), BinKeys(Flatten(groups), bin, b), zeroHash, included);
  }

  lemma {:induction false} PopPending<H>(groups: seq<seq<Entry<H>>>, bin: Pubkey -> nat, b: nat, ws: seq<Pointer>,
                                         lo: int)
    requires AllSorted(groups) && Monotone(bin) && Pending(groups, bin, b, 0, ws, None, lo) && ws != []
    requires Valid(groups, bin, b, ws[|ws| - 1])
    ensures var p := ws[|ws| - 1];
            Pending(groups, bin, b, 0, ws[..|ws| - 1], NextPointer(groups, bin, b, p), Key(groups, p))
  {
    var n := |ws| - 1;
    var p, ws' := ws[n], ws[..n];
    assert ws == ws' + [p];
    assert Pointers(ws) + Also(None) == Pointers(ws') + {p};
    forall r | r in Pointers(ws') ensures Valid(groups, bin, b, r) && Key(groups, r) > Key(groups, p) {
      var i :| 0 <= i < n && ws[i] == r;
    }
    Pop(groups, bin, b, Pointers(ws'), lo, p);
    assert Descending(groups, bin, b, ws');
  }
}
