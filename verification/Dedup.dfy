/**
 De-duplication of accounts for the accounts hash: a k-way merge over slot groups (low to high),
 each sorted by pubkey, restricted to one bin of pubkeys. Of several entries with one pubkey the
 last one of the highest group wins.
 */
module Dedup {
  import opened Common
  import opened Search
  import opened KeyOrder
  import opened PubkeyBins

  datatype Entry<H> = Entry(hash: H, lamports: nat, pubkey: Pubkey)

  datatype Pointer = Pointer(group: nat, offset: nat)

  // ---------- the input ----------

  ghost predicate SortedByPubkey<H>(data: seq<Entry<H>>) {
    forall i, j :: 0 <= i < j < |data| ==> data[i].pubkey <= data[j].pubkey
  }

  ghost predicate AllSorted<H>(groups: seq<seq<Entry<H>>>) {
    forall g :: 0 <= g < |groups| ==> SortedByPubkey(groups[g])
  }

  // ---------- the reference ----------

  ghost predicate Has<H>(es: seq<Entry<H>>, k: Pubkey) {
    exists i :: 0 <= i < |es| && es[i].pubkey == k
  }

  ghost function KeysOf<H>(es: seq<Entry<H>>): set<Pubkey> {
    set i | 0 <= i < |es| :: es[i].pubkey
  }

  ghost function BinKeys<H>(es: seq<Entry<H>>, bin: Pubkey -> nat, b: nat): set<Pubkey> {
    set k | k in KeysOf(es) && bin(k) == b
  }

  /** The last entry for `k`: the one that is in force. */
  function LastEntry<H>(es: seq<Entry<H>>, k: Pubkey): (e: Entry<H>)
    requires Has(es, k)
    ensures e.pubkey == k
  {
    var last := es[|es| - 1];
    if last.pubkey == k then last else LastEntry(es[..|es| - 1], k)
  }

  lemma {:induction false} LastEntryIsLast<H>(es: seq<Entry<H>>, k: Pubkey) returns (i: nat)
    requires Has(es, k)
    ensures i < |es| && es[i] == LastEntry(es, k) && forall j :: i < j < |es| ==> es[j].pubkey != k
  {
    i := |es| - 1;
    if es[i].pubkey != k { i := LastEntryIsLast(es[..i], k); }
  }

  /** What one winning entry contributes to the hash file. */
  function Written<H>(e: Entry<H>, zeroHash: Pubkey -> H, included: bool): seq<H> {
    if e.lamports != 0 then [e.hash] else if included then [zeroHash(e.pubkey)] else []
  }

  ghost predicate AllIn<H>(ks: seq<Pubkey>, es: seq<Entry<H>>) {
    forall i :: 0 <= i < |ks| ==> Has(es, ks[i])
  }

  ghost function Hashes<H>(es: seq<Entry<H>>, ks: seq<Pubkey>, zeroHash: Pubkey -> H, included: bool): seq<H>
    requires AllIn(ks, es)
  {
    if ks == [] then [] else
      Hashes(es, ks[..|ks| - 1], zeroHash, included) + Written(LastEntry(es, ks[|ks| - 1]), zeroHash, included)
  }

  /** The keys whose entry in force has lamports. */
  ghost function Funded<H>(es: seq<Entry<H>>, keys: set<Pubkey>): (r: set<Pubkey>)
    ensures forall k :: k in r <==> k in keys && Has(es, k) && LastEntry(es, k).lamports > 0
  {
    set k | k in keys && Has(es, k) && LastEntry(es, k).lamports != 0
  }

  /** In key order, the hash of every entry in force that has lamports, and nothing else. */
  ghost predicate ListsFunded<H>(hashes: seq<H>, es: seq<Entry<H>>, keys: set<Pubkey>) {
    var ks := SortedSeq(Funded(es, keys));
    && |hashes| == |ks|
    && forall i {:trigger hashes[i]} :: 0 <= i < |ks| ==> Has(es, ks[i]) && hashes[i] == LastEntry(es, ks[i]).hash
  }

  /** In key order, one hash for every key: that of the entry in force, or of the key if it has no lamports. */
  ghost predicate ListsAll<H>(hashes: seq<H>, es: seq<Entry<H>>, keys: set<Pubkey>, zeroHash: Pubkey -> H) {
    var ks := SortedSeq(keys);
    && |hashes| == |ks|
    && forall i {:trigger hashes[i]} :: 0 <= i < |ks| ==>
         Has(es, ks[i]) &&
         hashes[i] == if LastEntry(es, ks[i]).lamports == 0 then zeroHash(ks[i]) else LastEntry(es, ks[i]).hash
  }

  lemma {:induction false} LastKey(ks: seq<Pubkey>)
    requires Ascending(ks) && ks != []
    ensures var init, k := ks[..|ks| - 1], ks[|ks| - 1];
            Ascending(init) && Elements(ks) == Elements(init) + {k} && forall x :: x in Elements(init) ==> x < k
  {
    assert ks == ks[..|ks| - 1] + [ks[|ks| - 1]];
  }

  lemma {:induction false} OneKey(k: Pubkey)
    ensures SortedSeq({k}) == [k]
  {
    assert Elements([k]) == {k};
    AscendingUnique(SortedSeq({k}), [k]);
  }

  lemma {:induction false} FundedNext<H>(es: seq<Entry<H>>, keys: set<Pubkey>, k: Pubkey)
    requires Has(es, k) && forall x :: x in keys ==> x < k
    ensures SortedSeq(Funded(es, keys + {k}))
         == SortedSeq(Funded(es, keys)) + if LastEntry(es, k).lamports != 0 then [k] else []
  {
    var low, high := Funded(es, keys), Funded(es, {k});
    assert Funded(es, keys + {k}) == low + high;
    SortedUnion(low, high);
    if LastEntry(es, k).lamports != 0 {
      assert high == {k};
      OneKey(k);
    } else {
      assert high == {};
    }
  }

  /** With zero-lamport accounts excluded, the hashes are those of the accounts with lamports. */
  lemma {:induction false} HashesExcluded<H>(es: seq<Entry<H>>, ks: seq<Pubkey>, zeroHash: Pubkey -> H)
    requires Ascending(ks) && AllIn(ks, es)
    ensures ListsFunded(Hashes(es, ks, zeroHash, false), es, Elements(ks))
  {
    if ks == [] {
      assert Funded(es, Elements(ks)) == {};
    } else {
      var init, k := ks[..|ks| - 1], ks[|ks| - 1];
      LastKey(ks);
      HashesExcluded(es, init, zeroHash);
      FundedNext(es, Elements(init), k);
      ListsNext(Hashes(es, init, zeroHash, false), es, Elements(init), k);
      assert Written(LastEntry(es, k), zeroHash, false)
          == if LastEntry(es, k).lamports != 0 then [LastEntry(es, k).hash] else [];
    }
  }

  lemma {:induction false} ListsNext<H>(hashes: seq<H>, es: seq<Entry<H>>, keys: set<Pubkey>, k: Pubkey)
    requires ListsFunded(hashes, es, keys) && Has(es, k)
    requires SortedSeq(Funded(es, keys + {k}))
          == SortedSeq(Funded(es, keys)) + if LastEntry(es, k).lamports != 0 then [k] else []
    ensures ListsFunded(hashes + if LastEntry(es, k).lamports != 0 then [LastEntry(es, k).hash] else [], es, keys + {k})
  {
    var ks, ks' := SortedSeq(Funded(es, keys)), SortedSeq(Funded(es, keys + {k}));
    var hashes' := hashes + if LastEntry(es, k).lamports != 0 then [LastEntry(es, k).hash] else [];
    assert |hashes'| == |ks'|;
    forall i | 0 <= i < |ks'| ensures Has(es, ks'[i]) && hashes'[i] == LastEntry(es, ks'[i]).hash {
      if i < |ks| { assert ks'[i] == ks[i] && hashes'[i] == hashes[i]; }
    }
  }

  /** With them included, there is one hash for every key. */
  lemma {:induction false} HashesIncluded<H>(es: seq<Entry<H>>, ks: seq<Pubkey>, zeroHash: Pubkey -> H)
    requires Ascending(ks) && AllIn(ks, es)
    ensures ListsAll(Hashes(es, ks, zeroHash, true), es, Elements(ks), zeroHash)
  {
    AscendingUnique(SortedSeq(Elements(ks)), ks);
    forall i | 0 <= i < |ks| ensures |Hashes(es, ks, zeroHash, true)| == |ks| && Has(es, ks[i]) &&
        Hashes(es, ks, zeroHash, true)[i]
        == if LastEntry(es, ks[i]).lamports == 0 then zeroHash(ks[i]) else LastEntry(es, ks[i]).hash
    {
      HashIncluded(es, ks, zeroHash, i);
    }
  }

  lemma {:induction false} HashIncluded<H>(es: seq<Entry<H>>, ks: seq<Pubkey>, zeroHash: Pubkey -> H, i: nat)
    requires AllIn(ks, es) && i < |ks|
    ensures |Hashes(es, ks, zeroHash, true)| == |ks| && Has(es, ks[i])
    ensures Hashes(es, ks, zeroHash, true)[i]
         == if LastEntry(es, ks[i]).lamports == 0 then zeroHash(ks[i]) else LastEntry(es, ks[i]).hash
  {
    var n := |ks| - 1;
    if n > 0 { HashIncluded(es, ks[..n], zeroHash, if i < n then i else 0); }
  }

  /** The hash file of the given keys, by whether zero-lamport accounts are included. */
  lemma {:induction false} HashesAreListed<H>(es: seq<Entry<H>>, keys: set<Pubkey>, zeroHash: Pubkey -> H,
                                              included: bool)
    requires keys <= KeysOf(es)
    ensures AllIn(SortedSeq(keys), es)
    ensures !included ==> ListsFunded(Hashes(es, SortedSeq(keys), zeroHash, included), es, keys)
    ensures included ==> ListsAll(Hashes(es, SortedSeq(keys), zeroHash, included), es, keys, zeroHash)
  {
    KeysAllIn(es, SortedSeq(keys));
    if included {
      HashesIncluded(es, SortedSeq(keys), zeroHash);
    } else {
      HashesExcluded(es, SortedSeq(keys), zeroHash);
    }
  }

  ghost function Lamports<H>(es: seq<Entry<H>>, ks: seq<Pubkey>): nat
    requires AllIn(ks, es)
  {
    if ks == [] then 0 else Lamports(es, ks[..|ks| - 1]) + LastEntry(es, ks[|ks| - 1]).lamports
  }

  lemma {:induction false} HashesAppend<H>(es: seq<Entry<H>>, a: seq<Pubkey>, b: seq<Pubkey>, zeroHash: Pubkey -> H,
                                           included: bool)
    requires AllIn(a, es) && AllIn(b, es)
    ensures AllIn(a + b, es)
    ensures Hashes(es, a + b, zeroHash, included) ==
            Hashes(es, a, zeroHash, included) + Hashes(es, b, zeroHash, included)
  {
    if b == [] {
      assert a + b == a;
    } else {
      var init := b[..|b| - 1];
      assert (a + b)[..|a + b| - 1] == a + init;
      HashesAppend(es, a, init, zeroHash, included);
    }
  }

  lemma {:induction false} SumAppend<H>(es: seq<Entry<H>>, x: seq<Pubkey>, y: seq<Pubkey>)
    requires AllIn(x, es) && AllIn(y, es)
    ensures AllIn(x + y, es) && Lamports(es, x + y) == Lamports(es, x) + Lamports(es, y)
  {
    if y == [] {
      assert x + y == x;
    } else {
      var init := y[..|y| - 1];
      assert (x + y)[..|x + y| - 1] == x + init;
      SumAppend(es, x, init);
    }
  }

  lemma {:induction false} KeysAllIn<H>(es: seq<Entry<H>>, ks: seq<Pubkey>)
    requires Elements(ks) <= KeysOf(es)
    ensures AllIn(ks, es)
  {
    forall i | 0 <= i < |ks| ensures Has(es, ks[i]) {
      assert ks[i] in Elements(ks);
    }
  }

  // ---------- bins in a sorted group ----------

  ghost predicate FirstInBin<H>(data: seq<Entry<H>>, bin: Pubkey -> nat, b: nat, r: Option<nat>) {
    match r
    case None => forall i :: 0 <= i < |data| ==> bin(data[i].pubkey) != b
    case Some(first) =>
      first < |data| && bin(data[first].pubkey) == b && forall i :: 0 <= i < first ==> bin(data[i].pubkey) < b
  }

  function BinComparisons<H>(data: seq<Entry<H>>, bin: Pubkey -> nat, b: nat): (c: seq<Ordering>)
    ensures |c| == |data|
    ensures forall i :: 0 <= i < |c| ==> c[i] == Compare(1 + 2 * bin(data[i].pubkey), 2 * b)
  {
    seq(|data|, i requires 0 <= i < |data| => Compare(1 + 2 * bin(data[i].pubkey), 2 * b))
  }

  lemma {:induction false} BinComparisonsOrdered<H>(data: seq<Entry<H>>, bin: Pubkey -> nat, b: nat)
    requires SortedByPubkey(data) && Monotone(bin)
    ensures Ordered(BinComparisons(data, bin, b))
  {
    var c := BinComparisons(data, bin, b);
    forall i, j | 0 <= i < j < |c| ensures c[i].Rank() <= c[j].Rank() {
      assert data[i].pubkey <= data[j].pubkey;
    }
  }

  /** Everything before `i` is in a lower bin, and nothing from `i` on is. */
  ghost predicate SplitsBins<H>(data: seq<Entry<H>>, bin: Pubkey -> nat, b: nat, i: nat) {
    (forall k :: 0 <= k < i && k < |data| ==> bin(data[k].pubkey) < b) &&
    (forall k :: i <= k < |data| ==> bin(data[k].pubkey) >= b)
  }

  /** The comparison key of a bin is odd and the target is even, so the search never finds it. */
  function SearchBin<H>(data: seq<Entry<H>>, bin: Pubkey -> nat, b: nat): (i: nat)
    requires SortedByPubkey(data) && Monotone(bin)
    ensures SplitsBins(data, bin, b, i)
  {
    BinComparisonsOrdered(data, bin, b);
    var c := BinComparisons(data, bin, b);
    match BinarySearch(c)
    case Err(i) =>
      assert forall k :: 0 <= k < |data| ==> c[k] == if k < i then Less else Greater;
      i
    case Ok(i) => assert false; i
  }

  function BinarySearchForFirstPubkeyInBin<H>(data: seq<Entry<H>>, bin: Pubkey -> nat, b: nat): (r: Option<nat>)
    requires SortedByPubkey(data) && Monotone(bin)
    ensures FirstInBin(data, bin, b, r)
  {
    var potential := if b == 0 then 0 else SearchBin(data, bin, b);
    assert SplitsBins(data, bin, b, potential);
    if potential < |data| && bin(data[potential].pubkey) == b then Some(potential)
    else
      assert forall k :: potential < k < |data| ==> data[potential].pubkey <= data[k].pubkey;
      None
  }

  /** The first guess assumes evenly spread keys; only the half that can hold the answer is searched. */
  function FindFirstPubkeyInBin<H>(data: seq<Entry<H>>, bin: Pubkey -> nat, b: nat, bins: nat): (r: Option<nat>)
    requires SortedByPubkey(data) && Monotone(bin) && b < bins
    ensures FirstInBin(data, bin, b, r)
  {
    if data == [] then None
    else
      GuessInRange(|data|, b, bins);
      var i := |data| * b / bins;
      if bin(data[i].pubkey) >= b then
        var r := BinarySearchForFirstPubkeyInBin(data[..i + 1], bin, b);
        LeftHalf(data, bin, b, i, r);
        r
      else
        var r := BinarySearchForFirstPubkeyInBin(data[i + 1..], bin, b);
        RightHalf(data, bin, b, i, r);
        if r.Some? then Some(i + 1 + r.value) else None
  }

  lemma {:induction false} RightHalf<H>(data: seq<Entry<H>>, bin: Pubkey -> nat, b: nat, i: nat, r: Option<nat>)
    requires SortedByPubkey(data) && Monotone(bin) && i < |data| && bin(data[i].pubkey) < b
    requires FirstInBin(data[i + 1..], bin, b, r)
    ensures FirstInBin(data, bin, b, if r.Some? then Some(i + 1 + r.value) else None)
  {
    var part := data[i + 1..];
    forall k | 0 <= k <= i ensures bin(data[k].pubkey) < b {
      assert k < i ==> data[k].pubkey <= data[i].pubkey;
    }
    assert forall k :: i < k < |data| ==> data[k] == part[k - i - 1];
  }

  lemma {:induction false} GuessInRange(n: nat, b: nat, bins: nat)
    requires n > 0 && b < bins
    ensures 0 <= n * b / bins < n
  {
    var q := n * b / bins;
    assert q * bins <= n * b < n * bins;
  }

  lemma {:induction false} LeftHalf<H>(data: seq<Entry<H>>, bin: Pubkey -> nat, b: nat, i: nat, r: Option<nat>)
    requires SortedByPubkey(data) && Monotone(bin) && i < |data| && bin(data[i].pubkey) >= b
    requires FirstInBin(data[..i + 1], bin, b, r)
    ensures FirstInBin(data, bin, b, r)
  {
    var part := data[..i + 1];
    assert forall k :: 0 <= k <= i ==> data[k] == part[k];
    if r.None? {
      assert part[i] == data[i];
      forall k | 0 <= k < |data| ensures bin(data[k].pubkey) != b {
        if k <= i { assert part[k] == data[k]; } else { assert data[i].pubkey <= data[k].pubkey; }
      }
    }
  }

  // ---------- runs of equal keys ----------

  /** One past the last entry with the same key as the entry at `offset`. */
  function RunEnd<H>(data: seq<Entry<H>>, offset: nat): (e: nat)
    requires offset < |data|
    ensures offset < e <= |data|
    ensures forall i :: offset <= i < e ==> data[i].pubkey == data[offset].pubkey
    ensures e < |data| ==> data[e].pubkey != data[offset].pubkey
    decreases |data| - offset
  {
    if offset + 1 < |data| && data[offset + 1].pubkey == data[offset].pubkey
    then RunEnd(data, offset + 1)
    else offset + 1
  }

  lemma {:induction false} RunEndAt<H>(data: seq<Entry<H>>, offset: nat, e: nat)
    requires offset < e <= |data|
    requires forall i :: offset <= i < e ==> data[i].pubkey == data[offset].pubkey
    requires e < |data| ==> data[e].pubkey != data[offset].pubkey
    ensures RunEnd(data, offset) == e
  {
  }

  ghost predicate Valid<H>(groups: seq<seq<Entry<H>>>, bin: Pubkey -> nat, b: nat, p: Pointer) {
    p.group < |groups| && p.offset < |groups[p.group]| && bin(Key(groups, p)) == b
  }

  function Key<H>(groups: seq<seq<Entry<H>>>, p: Pointer): Pubkey
    requires p.group < |groups| && p.offset < |groups[p.group]|
  {
    groups[p.group][p.offset].pubkey
  }

  /** The next key of the same group, if it is still in the bin. */
  function NextPointer<H>(groups: seq<seq<Entry<H>>>, bin: Pubkey -> nat, b: nat, p: Pointer): Option<Pointer>
    requires p.group < |groups| && p.offset < |groups[p.group]|
  {
    var e := RunEnd(groups[p.group], p.offset);
    if e < |groups[p.group]| && bin(groups[p.group][e].pubkey) <= b then Some(Pointer(p.group, e)) else None
  }

  method GetItem<H>(groups: seq<seq<Entry<H>>>, bin: Pubkey -> nat, b: nat, key: Pubkey, p: Pointer)
    returns (item: Entry<H>, next: Option<Pointer>)
    requires p.group < |groups| && p.offset < |groups[p.group]| && key == Key(groups, p)
    ensures item == groups[p.group][RunEnd(groups[p.group], p.offset) - 1]
    ensures next == NextPointer(groups, bin, b, p)
  {
    var data := groups[p.group];
    var index := p.offset + 1;
    next := None;
    while index < |data|
      invariant p.offset < index <= |data| && next.None?
      invariant forall i :: p.offset <= i < index ==> data[i].pubkey == key
    {
      var nextKey := data[index].pubkey;
      if nextKey == key {
        index := index + 1;
        continue;
      }
      if bin(nextKey) > b {
        break;
      }
      next := Some(Pointer(p.group, index));
      break;
    }
    RunEndAt(data, p.offset, index);
    item := data[index - 1];
  }
}
