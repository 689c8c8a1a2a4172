/** Stable sorting by a rank: what the standard library's sorts promise. */
module Sorting {
  ghost predicate Sorted<T>(s: seq<T>, rank: T -> nat) {
    forall i, j :: 0 <= i < j < |s| ==> rank(s[i]) <= rank(s[j])
  }

  /** The elements of rank `k`, in order. */
  function OfRank<T>(s: seq<T>, rank: T -> nat, k: nat): seq<T> {
    if s == [] then [] else (if rank(s[0]) == k then [s[0]] else []) + OfRank(s[1..], rank, k)
  }

  /** Puts `x` before the first element that is not smaller. */
  function Insert<T>(x: T, s: seq<T>, rank: T -> nat): (r: seq<T>)
    ensures |r| == |s| + 1
  {
    if s == [] || rank(x) <= rank(s[0]) then [x] + s else [s[0]] + Insert(x, s[1..], rank)
  }

  function StableSort<T>(s: seq<T>, rank: T -> nat): (r: seq<T>)
    ensures |r| == |s|
  {
    if s == [] then [] else Insert(s[0], StableSort(s[1..], rank), rank)
  }

  lemma {:induction false} InsertAdds<T>(x: T, s: seq<T>, rank: T -> nat)
    ensures multiset(Insert(x, s, rank)) == multiset{x} + multiset(s)
  {
    if s != [] && rank(x) > rank(s[0]) {
      InsertAdds(x, s[1..], rank);
      assert s == [s[0]] + s[1..];
    }
  }

  lemma {:induction false} InsertSorted<T>(x: T, s: seq<T>, rank: T -> nat)
    requires Sorted(s, rank)
    ensures Sorted(Insert(x, s, rank), rank)
    ensures var r := Insert(x, s, rank); r[0] == x || (s != [] && r[0] == s[0])
  {
    if s != [] && rank(x) > rank(s[0]) {
      InsertSorted(x, s[1..], rank);
    }
  }

  lemma {:induction false} InsertStable<T>(x: T, s: seq<T>, rank: T -> nat, k: nat)
    requires Sorted(s, rank)
    ensures OfRank(Insert(x, s, rank), rank, k) == OfRank([x] + s, rank, k)
  {
    assert ([x] + s)[1..] == s;
    if s != [] && rank(x) > rank(s[0]) {
      InsertStable(x, s[1..], rank, k);
      var r := Insert(x, s[1..], rank);
      assert ([s[0]] + r)[1..] == r && ([x] + s[1..])[1..] == s[1..];
    }
  }

  /** Sorting orders by rank, loses and repeats nothing, and keeps the order of equal ranks. */
  lemma {:induction false} StableSortSorts<T>(s: seq<T>, rank: T -> nat)
    ensures Sorted(StableSort(s, rank), rank) && multiset(StableSort(s, rank)) == multiset(s)
  {
    if s != [] {
      StableSortSorts(s[1..], rank);
      InsertAdds(s[0], StableSort(s[1..], rank), rank);
      InsertSorted(s[0], StableSort(s[1..], rank), rank);
      assert s == [s[0]] + s[1..];
    }
  }

  lemma {:induction false} StableSortIsStable<T>(s: seq<T>, rank: T -> nat, k: nat)
    ensures OfRank(StableSort(s, rank), rank, k) == OfRank(s, rank, k)
  {
    if s != [] {
      var t := StableSort(s[1..], rank);
      StableSortSorts(s[1..], rank);
      StableSortIsStable(s[1..], rank, k);
      InsertStable(s[0], t, rank, k);
      assert ([s[0]] + t)[1..] == t;
    }
  }
}
