/** Strictly ascending sequences of pubkeys, and the one that lists a given set. */
module KeyOrder {
  import opened Common

  ghost predicate Ascending(ks: seq<Pubkey>) {
    forall i, j :: 0 <= i < j < |ks| ==> ks[i] < ks[j]
  }

  ghost function Elements(ks: seq<Pubkey>): set<Pubkey> {
    set k | k in ks
  }

  lemma {:induction false} LeastExists(s: set<Pubkey>) returns (m: Pubkey)
    requires s != {}
    ensures m in s && forall k :: k in s ==> m <= k
    decreases |s|
  {
    m :| m in s;
    if s != {m} {
      var rest := s - {m};
      var m' := LeastExists(rest);
      assert forall k :: k in s ==> k == m || k in rest;
      if m' < m { m := m'; }
    }
  }

  ghost function Least(s: set<Pubkey>): (m: Pubkey)
    requires s != {}
    ensures m in s && forall k :: k in s ==> m <= k
  {
    assert exists m :: m in s && forall k :: k in s ==> m <= k by { var m := LeastExists(s); }
    var m :| m in s && forall k :: k in s ==> m <= k;
    m
  }

  lemma {:induction false} Prepended(m: Pubkey, rest: seq<Pubkey>)
    requires Ascending(rest) && forall k :: k in Elements(rest) ==> m < k
    ensures Ascending([m] + rest) && Elements([m] + rest) == {m} + Elements(rest)
  {
    assert forall i :: 0 <= i < |rest| ==> rest[i] in Elements(rest);
  }

  /** The elements of `s` in ascending order. */
  ghost function SortedSeq(s: set<Pubkey>): (ks: seq<Pubkey>)
    ensures Ascending(ks) && Elements(ks) == s
  {
    if s == {} then []
    else
      var rest := SortedSeq(s - {Least(s)});
      Prepended(Least(s), rest);
      [Least(s)] + rest
  }

  lemma {:induction false} AscendingSize(ks: seq<Pubkey>)
    requires Ascending(ks)
    ensures |Elements(ks)| == |ks|
  {
    if ks != [] {
      AscendingSize(ks[1..]);
      assert Elements(ks) == {ks[0]} + Elements(ks[1..]);
    }
  }

  lemma {:induction false} AscendingUnique(a: seq<Pubkey>, b: seq<Pubkey>)
    requires Ascending(a) && Ascending(b) && Elements(a) == Elements(b)
    ensures a == b
  {
    AscendingSize(a);
    AscendingSize(b);
    if a != [] {
      assert a[0] in Elements(b) && b[0] in Elements(a);
      assert a[0] == b[0];
      forall k ensures k in Elements(a[1..]) <==> k in Elements(b[1..]) {
        assert k in Elements(a[1..]) <==> k in Elements(a) && k != a[0];
        assert k in Elements(b[1..]) <==> k in Elements(b) && k != b[0];
      }
      AscendingUnique(a[1..], b[1..]);
    }
  }

  /** Sets that lie one below the other are listed one after the other. */
  lemma {:induction false} SortedUnion(low: set<Pubkey>, high: set<Pubkey>)
    requires forall x, y :: x in low && y in high ==> x < y
    ensures SortedSeq(low + high) == SortedSeq(low) + SortedSeq(high)
  {
    Joined(SortedSeq(low), SortedSeq(high));
    AscendingUnique(SortedSeq(low) + SortedSeq(high), SortedSeq(low + high));
  }

  lemma {:induction false} Joined(a: seq<Pubkey>, b: seq<Pubkey>)
    requires Ascending(a) && Ascending(b) && forall x, y :: x in Elements(a) && y in Elements(b) ==> x < y
    ensures Ascending(a + b) && Elements(a + b) == Elements(a) + Elements(b)
  {
    assert forall i :: 0 <= i < |a| ==> a[i] in Elements(a);
    assert forall i :: 0 <= i < |b| ==> b[i] in Elements(b);
  }

  lemma {:induction false} SubsetSize<T>(a: set<T>, b: set<T>)
    requires a <= b
    ensures |a| <= |b|
  {
    assert b == a + (b - a);
  }

  lemma {:induction false} DistinctSize<T>(s: seq<T>)
    requires forall i, j :: 0 <= i < j < |s| ==> s[i] != s[j]
    ensures |set x | x in s| == |s|
  {
    if s != [] {
      var t := s[..|s| - 1];
      DistinctSize(t);
      assert (set x | x in s) == (set x | x in t) + {s[|s| - 1]};
    }
  }
}
