/** Next-fit packing of a list of sizes, and what it guarantees. */
module NextFit {
  import opened Common

  function Sum(sizes: seq<nat>): nat {
    if sizes == [] then 0 else sizes[0] + Sum(sizes[1..])
  }

  lemma {:induction false} SumAppend(a: seq<nat>, b: seq<nat>)
    ensures Sum(a + b) == Sum(a) + Sum(b)
  {
    if a == [] {
      assert a + b == b;
    } else {
      assert (a + b)[1..] == a[1..] + b;
      SumAppend(a[1..], b);
    }
  }

  /** How many sizes still go into a storage that holds `total`: at least one into an empty storage. */
  function Fill(sizes: seq<nat>, total: nat, ideal: nat): (n: nat)
    ensures n <= |sizes| && (total == 0 && sizes != [] ==> n > 0)
  {
    if sizes == [] || (total > 0 && total + sizes[0] > ideal) then 0
    else 1 + Fill(sizes[1..], total + sizes[0], ideal)
  }

  /** The first `k` sizes have gone in and made `total` into `total'`; the fill goes on from there. */
  ghost predicate Filled(sizes: seq<nat>, k: nat, total: nat, total': nat, ideal: nat) {
    && k <= |sizes|
    && total' == total + Sum(sizes[..k])
    && Fill(sizes, total, ideal) == k + Fill(sizes[k..], total', ideal)
  }

  lemma {:induction false} FilledStart(sizes: seq<nat>, total: nat, ideal: nat)
    ensures Filled(sizes, 0, total, total, ideal)
  {
    assert sizes[0..] == sizes;
  }

  /** The next size goes in, or the fill ends here. */
  lemma {:induction false} FilledStep(sizes: seq<nat>, k: nat, size: nat, total: nat, total': nat, ideal: nat)
    requires k < |sizes| && sizes[k] == size && Filled(sizes, k, total, total', ideal)
    ensures if total' + size > ideal && total' > 0
            then Fill(sizes, total, ideal) == k
            else Filled(sizes, k + 1, total, total' + size, ideal)
  {
    assert sizes[k..][1..] == sizes[k + 1..];
    assert sizes[..k + 1] == sizes[..k] + [size];
    SumAppend(sizes[..k], [size]);
  }

  lemma {:induction false} FilledEnd(sizes: seq<nat>, total: nat, total': nat, ideal: nat)
    requires Filled(sizes, |sizes|, total, total', ideal)
    ensures Fill(sizes, total, ideal) == |sizes|
  {
    assert sizes[|sizes|..] == [];
  }

  /** Filling with a list is filling with its first part and, if that is used up, going on. */
  lemma {:induction false} FillAppend(a: seq<nat>, b: seq<nat>, total: nat, ideal: nat)
    ensures Fill(a + b, total, ideal)
         == if Fill(a, total, ideal) < |a| then Fill(a, total, ideal) else |a| + Fill(b, total + Sum(a), ideal)
  {
    if a == [] {
      assert a + b == b;
    } else {
      assert (a + b)[1..] == a[1..] + b;
      FillAppend(a[1..], b, total + a[0], ideal);
    }
  }

  lemma {:induction false} FillWhole(a: seq<nat>, total: nat, ideal: nat)
    requires total + Sum(a) <= ideal
    ensures Fill(a, total, ideal) == |a|
  {
    if a != [] { FillWhole(a[1..], total + a[0], ideal); }
  }

  /** Where the fill stops, the next size would have gone over. */
  lemma {:induction false} FillStops(sizes: seq<nat>, total: nat, ideal: nat)
    ensures var n := Fill(sizes, total, ideal);
            n < |sizes| ==> total + Sum(sizes[..n]) > 0 && total + Sum(sizes[..n]) + sizes[n] > ideal
  {
    var n := Fill(sizes, total, ideal);
    if 0 < n < |sizes| {
      FillStops(sizes[1..], total + sizes[0], ideal);
      assert sizes[..n][1..] == sizes[1..][..n - 1];
    }
  }

  lemma {:induction false} FillNone(sizes: seq<nat>, total: nat, ideal: nat)
    requires sizes != [] && total > 0 && total + sizes[0] > ideal
    ensures Fill(sizes, total, ideal) == 0
  {
  }

  /** Taking what a fill takes of the first part leaves the rest of the fill to do, or nothing if it stopped there. */
  lemma {:induction false} FillSplit(a: seq<nat>, b: seq<nat>, k: nat, total: nat, ideal: nat)
    requires k == Fill(a, total, ideal)
    ensures Fill(a + b, total, ideal) == k + Fill(a[k..] + b, total + Sum(a[..k]), ideal)
    ensures k < |a| ==> Fill(a[k..] + b, total + Sum(a[..k]), ideal) == 0
  {
    FillAppend(a, b, total, ideal);
    if k < |a| {
      FillStops(a, total, ideal);
      FillNone(a[k..] + b, total + Sum(a[..k]), ideal);
    } else {
      assert a[k..] == [] && [] + b == b && a[..k] == a;
    }
  }

  /** What was taken fits, except possibly a single size that is too large on its own. */
  lemma {:induction false} FillFits(sizes: seq<nat>, total: nat, ideal: nat)
    requires forall i :: 0 <= i < |sizes| ==> sizes[i] > 0
    ensures var n := Fill(sizes, total, ideal);
            n == 0 || total + Sum(sizes[..n]) <= ideal || (total == 0 && n == 1)
  {
    var n := Fill(sizes, total, ideal);
    if n > 0 {
      FillFits(sizes[1..], total + sizes[0], ideal);
      assert sizes[..n][1..] == sizes[1..][..n - 1];
    }
  }

  /** The sizes cut into storages. */
  function Cut(sizes: seq<nat>, ideal: nat): (packs: seq<seq<nat>>)
    ensures Flatten(packs) == sizes && forall i :: 0 <= i < |packs| ==> packs[i] != []
  {
    if sizes == [] then []
    else
      var n := Fill(sizes, 0, ideal);
      var rest := Cut(sizes[n..], ideal);
      assert ([sizes[..n]] + rest)[1..] == rest;
      [sizes[..n]] + rest
  }

  lemma {:induction false} CutStep(a: seq<nat>, b: seq<nat>, ideal: nat)
    requires a != [] && |a| == Fill(a + b, 0, ideal)
    ensures Cut(a + b, ideal) == [a] + Cut(b, ideal)
  {
    assert (a + b)[..|a|] == a && (a + b)[|a|..] == b;
  }

  lemma {:induction false} OneCut(sizes: seq<nat>, ideal: nat)
    requires Sum(sizes) <= ideal
    ensures |Cut(sizes, ideal)| <= 1
  {
    FillWhole(sizes, 0, ideal);
    assert Cut(sizes[|sizes|..], ideal) == [];
  }

  ghost predicate Positive(sizes: seq<nat>) {
    forall i :: 0 <= i < |sizes| ==> sizes[i] > 0
  }

  /** No storage is over the ideal size unless it holds a single account. */
  lemma {:induction false} CutFits(sizes: seq<nat>, ideal: nat, i: nat)
    requires Positive(sizes) && i < |Cut(sizes, ideal)|
    ensures Sum(Cut(sizes, ideal)[i]) <= ideal || |Cut(sizes, ideal)[i]| == 1
    decreases i
  {
    var n := Fill(sizes, 0, ideal);
    if i == 0 {
      FillFits(sizes, 0, ideal);
    } else {
      CutFits(sizes[n..], ideal, i - 1);
    }
  }

  /** Two neighbouring storages never fit into one. */
  lemma {:induction false} CutIsTight(sizes: seq<nat>, ideal: nat, i: nat)
    requires i + 1 < |Cut(sizes, ideal)|
    ensures Sum(Cut(sizes, ideal)[i]) + Sum(Cut(sizes, ideal)[i + 1]) > ideal
    decreases i
  {
    var n := Fill(sizes, 0, ideal);
    if i == 0 {
      FillStops(sizes, 0, ideal);
      FirstPack(sizes[n..], ideal);
    } else {
      CutIsTight(sizes[n..], ideal, i - 1);
    }
  }

  lemma {:induction false} FirstPack(sizes: seq<nat>, ideal: nat)
    requires sizes != []
    ensures Cut(sizes, ideal) != [] && Cut(sizes, ideal)[0][..1] == [sizes[0]] && Sum(Cut(sizes, ideal)[0]) >= sizes[0]
  {
    assert Cut(sizes, ideal)[0] == sizes[..Fill(sizes, 0, ideal)];
  }

  lemma {:induction false} TightSum(packs: seq<seq<nat>>, ideal: nat)
    requires packs != [] && forall i :: 0 <= i && i + 1 < |packs| ==> Sum(packs[i]) + Sum(packs[i + 1]) > ideal
    ensures (|packs| - 1) * ideal + Sum(packs[0]) <= 2 * Sum(Flatten(packs))
  {
    var rest := packs[1..];
    SumAppend(packs[0], Flatten(rest));
    if rest != [] {
      assert Sum(packs[0]) + Sum(packs[0 + 1]) > ideal;
      forall i | 0 <= i && i + 1 < |rest| ensures Sum(rest[i]) + Sum(rest[i + 1]) > ideal {
        assert rest[i] == packs[i + 1] && rest[i + 1] == packs[(i + 1) + 1];
      }
      TightSum(rest, ideal);
      assert (|packs| - 1) * ideal == (|rest| - 1) * ideal + ideal;
    }
  }

  /** At most about twice as many storages as the bytes need. */
  lemma {:induction false} CutBound(sizes: seq<nat>, ideal: nat)
    requires Positive(sizes) && sizes != []
    ensures (|Cut(sizes, ideal)| - 1) * ideal < 2 * Sum(sizes)
  {
    var packs := Cut(sizes, ideal);
    forall i | 0 <= i && i + 1 < |packs| ensures Sum(packs[i]) + Sum(packs[i + 1]) > ideal {
      CutIsTight(sizes, ideal, i);
    }
    TightSum(packs, ideal);
    FirstPack(sizes, ideal);
  }

  /** How many elements come before pack `j`. */
  function Start<T>(packs: seq<seq<T>>, j: nat): nat
    requires j <= |packs|
  {
    |Flatten(packs[..j])|
  }

  lemma {:induction false} StartCons<T>(x: seq<T>, rest: seq<seq<T>>, j: nat)
    requires 0 < j <= |rest| + 1
    ensures Start([x] + rest, j) == |x| + Start(rest, j - 1)
  {
    assert ([x] + rest)[..j] == [x] + rest[..j - 1];
  }

  /** Appending sizes opens no earlier storage: the first list stays within the storages it had. */
  lemma {:induction false} CutPrefix(a: seq<nat>, b: seq<nat>, ideal: nat)
    ensures |Cut(a, ideal)| <= |Cut(a + b, ideal)|
    ensures |a| <= Start(Cut(a + b, ideal), |Cut(a, ideal)|)
    ensures a != [] ==> Start(Cut(a + b, ideal), |Cut(a, ideal)| - 1) < |a|
    decreases |a|
  {
    if a != [] {
      var n := Fill(a, 0, ideal);
      FillAppend(a, b, 0, ideal);
      var m := Fill(a + b, 0, ideal);
      var head, tail := (a + b)[..m], (a + b)[m..];
      assert Cut(a, ideal) == [a[..n]] + Cut(a[n..], ideal) && Cut(a + b, ideal) == [head] + Cut(tail, ideal);
      if n < |a| {
        assert tail == a[n..] + b;
        CutPrefix(a[n..], b, ideal);
        StartCons(head, Cut(tail, ideal), |Cut(a, ideal)|);
        StartCons(head, Cut(tail, ideal), |Cut(a, ideal)| - 1);
      } else {
        assert Cut(a[n..], ideal) == [];
        StartCons(head, Cut(tail, ideal), 1);
      }
    }
  }
}
