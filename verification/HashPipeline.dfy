/**
 The accounts hash from sorted slot groups to (root, lamports): every bin is de-duplicated on its
 own, and the Merkle root is taken over the hash files of all bins without joining them. The
 result does not depend on how the pubkeys are divided into bins.
 */
module HashPipeline {
  import opened Common
  import opened KeyOrder
  import opened PubkeyBins
  import opened Dedup
  import opened DedupBin
  import opened Merkle
  import opened HashSlices

  const MERKLE_FANOUT: nat := 16

  // ---------- joining the bins ----------

  ghost function KeysBelow<H>(es: seq<Entry<H>>, bin: Pubkey -> nat, b: nat): set<Pubkey> {
    set k | k in KeysOf(es) && bin(k) < b
  }

  lemma {:induction false} NextBin<H>(es: seq<Entry<H>>, bin: Pubkey -> nat, b: nat)
    requires Monotone(bin)
    ensures SortedSeq(KeysBelow(es, bin, b + 1)) == SortedSeq(KeysBelow(es, bin, b)) + SortedSeq(BinKeys(es, bin, b))
    ensures AllIn(SortedSeq(BinKeys(es, bin, b)), es)
  {
    KeysAllIn(es, SortedSeq(BinKeys(es, bin, b)));
    assert KeysBelow(es, bin, b + 1) == KeysBelow(es, bin, b) + BinKeys(es, bin, b);
    SortedUnion(KeysBelow(es, bin, b), BinKeys(es, bin, b));
  }

  /** The keys of the first `b` bins in order. */
  ghost function Below<H>(es: seq<Entry<H>>, bin: Pubkey -> nat, b: nat): (ks: seq<Pubkey>)
    ensures AllIn(ks, es)
  {
    KeysAllIn(es, SortedSeq(KeysBelow(es, bin, b)));
    SortedSeq(KeysBelow(es, bin, b))
  }

  ghost function AllKeys<H>(es: seq<Entry<H>>): (ks: seq<Pubkey>)
    ensures AllIn(ks, es)
  {
    KeysAllIn(es, SortedSeq(KeysOf(es)));
    SortedSeq(KeysOf(es))
  }

  lemma {:induction false} NoBins<H>(es: seq<Entry<H>>, bin: Pubkey -> nat)
    ensures Below(es, bin, 0) == []
  {
    assert KeysBelow(es, bin, 0) == {};
  }

  lemma {:induction false} AllBins<H>(es: seq<Entry<H>>, bin: Pubkey -> nat, bins: nat)
    requires IsBinner(bin, bins)
    ensures Below(es, bin, bins) == AllKeys(es)
  {
    assert KeysBelow(es, bin, bins) == KeysOf(es);
  }

  lemma {:induction false} LamportsStep<H>(es: seq<Entry<H>>, bin: Pubkey -> nat, b: nat)
    requires Monotone(bin)
    ensures var ks := SortedSeq(BinKeys(es, bin, b));
            AllIn(ks, es) && Lamports(es, Below(es, bin, b + 1)) == Lamports(es, Below(es, bin, b)) + Lamports(es, ks)
  {
    NextBin(es, bin, b);
    SumAppend(es, Below(es, bin, b), SortedSeq(BinKeys(es, bin, b)));
  }

  lemma {:induction false} HashesStep<H>(es: seq<Entry<H>>, bin: Pubkey -> nat, b: nat, zeroHash: Pubkey -> H,
                                         included: bool)
    requires Monotone(bin)
    ensures var ks := SortedSeq(BinKeys(es, bin, b));
            AllIn(ks, es) &&
            Hashes(es, Below(es, bin, b + 1), zeroHash, included)
            == Hashes(es, Below(es, bin, b), zeroHash, included) + Hashes(es, ks, zeroHash, included)
  {
    NextBin(es, bin, b);
    HashesAppend(es, Below(es, bin, b), SortedSeq(BinKeys(es, bin, b)), zeroHash, included);
  }

  lemma {:induction false} LamportsGrow<H>(es: seq<Entry<H>>, bin: Pubkey -> nat, b: nat)
    requires Monotone(bin)
    ensures Lamports(es, Below(es, bin, b)) <= Lamports(es, AllKeys(es))
  {
    var rest := KeysOf(es) - KeysBelow(es, bin, b);
    assert KeysOf(es) == KeysBelow(es, bin, b) + rest;
    SortedUnion(KeysBelow(es, bin, b), rest);
    KeysAllIn(es, SortedSeq(rest));
    SumAppend(es, Below(es, bin, b), SortedSeq(rest));
  }

  method DeDupAccounts<H>(groups: seq<seq<Entry<H>>>, bin: Pubkey -> nat, bins: nat, zeroHash: Pubkey -> H,
                          included: bool)
    returns (r: Result<(seq<seq<H>>, nat), Panic>)
    requires AllSorted(groups) && IsBinner(bin, bins)
    ensures var es := Flatten(groups); var ks := AllKeys(es);
            (r.Ok? <==> Lamports(es, ks) <= U64_MAX) &&
            (r.Ok? ==> |r.value.0| == bins && Flatten(r.value.0) == Hashes(es, ks, zeroHash, included)
                       && r.value.1 == Lamports(es, ks))
    ensures r.Ok? && !included ==>
              var es, hashes := Flatten(groups), Flatten(r.value.0);
              var ks := SortedSeq(Funded(es, KeysOf(es)));
              |hashes| == |ks| &&
              forall i {:trigger hashes[i]} :: 0 <= i < |ks| ==>
                Has(es, ks[i]) && hashes[i] == LastEntry(es, ks[i]).hash
    ensures r.Ok? && included ==>
              var es, hashes := Flatten(groups), Flatten(r.value.0);
              var ks := SortedSeq(KeysOf(es));
              |hashes| == |ks| &&
              forall i {:trigger hashes[i]} :: 0 <= i < |ks| ==>
                Has(es, ks[i]) &&
                hashes[i] == if LastEntry(es, ks[i]).lamports == 0 then zeroHash(ks[i]) else LastEntry(es, ks[i]).hash
  {
    ghost var es := Flatten(groups);
    var files: seq<seq<H>>, sum := [], 0;
    NoBins(es, bin);
    for b := 0 to bins
      invariant |files| == b
      invariant Flatten(files) == Hashes(es, Below(es, bin, b), zeroHash, included)
      invariant sum == Lamports(es, Below(es, bin, b)) <= U64_MAX
    {
      LamportsStep(es, bin, b);
      HashesStep(es, bin, b, zeroHash, included);
      LamportsGrow(es, bin, b + 1);
      var one := DeDupAccountsInBin(groups, bin, b, bins, zeroHash, included);
      if one.Err? || sum + one.value.1 > U64_MAX {
        return Err(CapitalizationOverflow);
      }
      sum := sum + one.value.1;
      FlattenPush(files, one.value.0);
      files := files + [one.value.0];
    }
    AllBins(es, bin, bins);
    HashesAreListed(es, KeysOf(es), zeroHash, included);
    r := Ok((files, sum));
  }

  // ---------- the whole calculation ----------

  /** The accounts hash without bins, files or merging: the entry in force of every key, in key order. */
  ghost function Reference<H>(f: seq<H> -> H, es: seq<Entry<H>>, zeroHash: Pubkey -> H,
                              included: bool): Result<(H, nat), Panic> {
    var ks := AllKeys(es);
    if Lamports(es, ks) <= U64_MAX then
      Ok((Root(f, MERKLE_FANOUT, Hashes(es, ks, zeroHash, included)), Lamports(es, ks)))
    else Err(CapitalizationOverflow)
  }

  /** The root over hash files that are not joined. */
  method RootOfFiles<H>(f: seq<H> -> H, noHash: H, files: seq<seq<H>>) returns (root: H)
    ensures root == Root(f, 16, Flatten(files))
  {
    var readers, cumulative := FromFiles(files);
    var none;
    root, none := ComputeMerkleRootFromSlices(f, noHash, cumulative.totalCount, MERKLE_FANOUT, None,
      (start: nat) requires Indexes(cumulative, readers) && start < cumulative.totalCount =>
        GetSlice(cumulative, readers, start),
      None, Flatten(files));
  }

  method RestOfHashCalculation<H>(f: seq<H> -> H, noHash: H, groups: seq<seq<Entry<H>>>, bin: Pubkey -> nat, bins: nat,
                                  zeroHash: Pubkey -> H, included: bool)
    returns (r: Result<(H, nat), Panic>, ghost hashes: seq<H>)
    requires AllSorted(groups) && IsBinner(bin, bins)
    ensures r == Reference(f, Flatten(groups), zeroHash, included)
    ensures r.Ok? ==> r.value.0 == Root(f, 16, hashes)
    ensures r.Ok? && !included ==>
              var es := Flatten(groups);
              var ks := SortedSeq(Funded(es, KeysOf(es)));
              |hashes| == |ks| &&
              forall i {:trigger hashes[i]} :: 0 <= i < |ks| ==>
                Has(es, ks[i]) && hashes[i] == LastEntry(es, ks[i]).hash
    ensures r.Ok? && included ==>
              var es := Flatten(groups);
              var ks := SortedSeq(KeysOf(es));
              |hashes| == |ks| &&
              forall i {:trigger hashes[i]} :: 0 <= i < |ks| ==>
                Has(es, ks[i]) &&
                hashes[i] == if LastEntry(es, ks[i]).lamports == 0 then zeroHash(ks[i]) else LastEntry(es, ks[i]).hash
  {
    var dedup := DeDupAccounts(groups, bin, bins, zeroHash, included);
    if dedup.Err? {
      return Err(CapitalizationOverflow), [];
    }
    var (files, lamports) := dedup.value;
    hashes := Flatten(files);
    var root := RootOfFiles(f, noHash, files);
    r := Ok((root, lamports));
  }

  method CalculateHash<H>(f: seq<H> -> H, noHash: H, hashes: seq<seq<H>>) returns (root: H, total: nat)
    ensures root == Root(f, 16, Flatten(hashes)) && total == |Flatten(hashes)|
  {
    var cumulative := New(hashes);
    total := cumulative.totalCount;
    var none;
    root, none := ComputeMerkleRootFromSlices(f, noHash, total, MERKLE_FANOUT, None,
      (start: nat) requires Indexes(cumulative, hashes) && start < cumulative.totalCount =>
        GetSlice(cumulative, hashes, start),
      None, Flatten(hashes));
  }
}
