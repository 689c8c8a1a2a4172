/**
 Removing all but the last entry of every pubkey, in place: a stable sort, then a walk from the end
 that moves the entries to keep up to the end of the buffer.
 */
module DuplicateRemoval {
  import opened Common
  import opened Sorting

  datatype IndexItem = IndexItem(pubkey: Pubkey, slot: Slot, info: nat)

  function KeyRank(item: IndexItem): nat {
    item.pubkey
  }

  /** The entries of a pubkey, in order. */
  ghost function EntriesOf(items: seq<IndexItem>, k: Pubkey): seq<IndexItem> {
    OfRank(items, KeyRank, k)
  }

  ghost predicate IsLastEntry(items: seq<IndexItem>, x: IndexItem) {
    var entries := EntriesOf(items, x.pubkey);
    entries != [] && entries[|entries| - 1] == x
  }

  // ---------- the simple form ----------

  /** The last of every run of equal pubkeys. */
  function KeepLast(s: seq<IndexItem>): seq<IndexItem> {
    if |s| < 2 then s
    else if s[0].pubkey == s[1].pubkey then KeepLast(s[1..])
    else [s[0]] + KeepLast(s[1..])
  }

  lemma {:induction false} KeepLastSubset(s: seq<IndexItem>, i: nat)
    requires i < |KeepLast(s)|
    ensures exists j :: 0 <= j < |s| && s[j] == KeepLast(s)[i]
  {
    if |s| >= 2 {
      var rest := KeepLast(s[1..]);
      if s[0].pubkey == s[1].pubkey || i > 0 {
        var i' := if s[0].pubkey == s[1].pubkey then i else i - 1;
        KeepLastSubset(s[1..], i');
        var j :| 0 <= j < |s[1..]| && s[1..][j] == rest[i'];
        assert s[j + 1] == KeepLast(s)[i];
      } else {
        assert s[0] == KeepLast(s)[i];
      }
    } else {
      assert s[i] == KeepLast(s)[i];
    }
  }

  /** On a sorted list the kept pubkeys are strictly ascending. */
  lemma {:induction false} KeepLastAscends(s: seq<IndexItem>, i: nat, j: nat)
    requires Sorted(s, KeyRank) && i < j < |KeepLast(s)|
    ensures KeepLast(s)[i].pubkey < KeepLast(s)[j].pubkey
  {
    if |s| >= 2 {
      if s[0].pubkey == s[1].pubkey {
        KeepLastAscends(s[1..], i, j);
      } else if i > 0 {
        KeepLastAscends(s[1..], i - 1, j - 1);
      } else {
        KeepLastSubset(s[1..], j - 1);
      }
    }
  }

  lemma {:induction false} NoEntries(s: seq<IndexItem>, k: Pubkey)
    requires forall i :: 0 <= i < |s| ==> s[i].pubkey != k
    ensures EntriesOf(s, k) == []
  {
    if s != [] { NoEntries(s[1..], k); }
  }

  /** On a sorted list every kept entry is the last of its pubkey. */
  lemma {:induction false} KeepLastIsLast(s: seq<IndexItem>, i: nat)
    requires Sorted(s, KeyRank) && i < |KeepLast(s)|
    ensures IsLastEntry(s, KeepLast(s)[i])
  {
    if |s| == 1 {
      NoEntries(s[1..], s[0].pubkey);
      assert EntriesOf(s, s[0].pubkey) == [s[0]] + EntriesOf(s[1..], s[0].pubkey);
    } else if s[0].pubkey == s[1].pubkey {
      KeepLastIsLast(s[1..], i);
    } else if i > 0 {
      KeepLastIsLast(s[1..], i - 1);
    } else {
      NoEntries(s[1..], s[0].pubkey);
    }
  }

  /** Every pubkey is kept. */
  lemma {:induction false} KeepLastKeepsKeys(s: seq<IndexItem>, k: Pubkey)
    requires exists i :: 0 <= i < |s| && s[i].pubkey == k
    ensures exists i :: 0 <= i < |KeepLast(s)| && KeepLast(s)[i].pubkey == k
  {
    if |s| < 2 {
      assert KeepLast(s)[0].pubkey == k;
    } else {
      var i :| 0 <= i < |s| && s[i].pubkey == k;
      if i == 0 && s[0].pubkey != s[1].pubkey {
        assert KeepLast(s)[0].pubkey == k;
      } else {
        assert s[1..][if i == 0 then 0 else i - 1].pubkey == k;
        KeepLastKeepsKeys(s[1..], k);
        var j :| 0 <= j < |KeepLast(s[1..])| && KeepLast(s[1..])[j].pubkey == k;
        assert KeepLast(s)[if s[0].pubkey == s[1].pubkey then j else j + 1].pubkey == k;
      }
    }
  }

  // ---------- in place ----------

  /** `kept` is the result for `items`: for every pubkey its last entry, in ascending order. */
  /** The last entry of a pubkey is one after which there is no other. */
  lemma {:induction false} NoneAfterLast(items: seq<IndexItem>, x: IndexItem) returns (i: nat)
    requires IsLastEntry(items, x)
    ensures i < |items| && items[i] == x && forall j :: i < j < |items| ==> items[j].pubkey != x.pubkey
  {
    if EntriesOf(items[1..], x.pubkey) == [] {
      NoEntry(items[1..], x.pubkey);
      i := 0;
    } else {
      i := NoneAfterLast(items[1..], x);
      i := i + 1;
    }
  }

  lemma {:induction false} NoEntry(items: seq<IndexItem>, k: Pubkey)
    requires EntriesOf(items, k) == []
    ensures forall j :: 0 <= j < |items| ==> items[j].pubkey != k
  {
    if items != [] { NoEntry(items[1..], k); }
  }

  ghost predicate Newest(items: seq<IndexItem>, kept: seq<IndexItem>) {
    && (forall i, j :: 0 <= i < j < |kept| ==> kept[i].pubkey < kept[j].pubkey)
    && (forall i :: 0 <= i < |kept| ==> IsLastEntry(items, kept[i]))
    && (forall i :: 0 <= i < |items| ==> exists j :: 0 <= j < |kept| && kept[j].pubkey == items[i].pubkey)
  }

  lemma {:induction false} SortedKeepsNewest(items: seq<IndexItem>)
    ensures var s := StableSort(items, KeyRank); Newest(items, KeepLast(s)) && multiset(s) == multiset(items)
  {
    var s := StableSort(items, KeyRank);
    StableSortSorts(items, KeyRank);
    var kept := KeepLast(s);
    forall i, j | 0 <= i < j < |kept| ensures kept[i].pubkey < kept[j].pubkey { KeepLastAscends(s, i, j); }
    forall i | 0 <= i < |kept| ensures IsLastEntry(items, kept[i]) {
      KeepLastIsLast(s, i);
      StableSortIsStable(items, KeyRank, kept[i].pubkey);
    }
    forall i | 0 <= i < |items| ensures exists j :: 0 <= j < |kept| && kept[j].pubkey == items[i].pubkey {
      assert items[i] in multiset(s);
      KeepLastKeepsKeys(s, items[i].pubkey);
    }
  }

  lemma {:induction false} KeepLastStep(s: seq<IndexItem>, curr: nat)
    requires 0 < curr < |s|
    ensures KeepLast(s[curr - 1..])
         == if s[curr - 1].pubkey == s[curr].pubkey then KeepLast(s[curr..]) else [s[curr - 1]] + KeepLast(s[curr..])
    ensures multiset(s[curr - 1..]) == multiset{s[curr - 1]} + multiset(s[curr..])
  {
    var t := s[curr - 1..];
    assert t[1..] == s[curr..] && t == [t[0]] + t[1..];
  }

  /** The buffer during the walk: unread below `curr`, kept from `write` on. */
  ghost predicate Walking(s: seq<IndexItem>, buffer: seq<IndexItem>, curr: nat, write: nat) {
    && |buffer| == |s| && curr <= write < |s|
    && buffer[..curr] == s[..curr] && buffer[write..] == KeepLast(s[curr..])
  }

  /** What was read is either kept or among the duplicates. */
  ghost predicate Tally(s: seq<IndexItem>, curr: nat, duplicates: Option<seq<IndexItem>>) {
    && curr < |s| && multiset(KeepLast(s[curr..])) + multiset(Dropped(duplicates)) == multiset(s[curr..])
    && (duplicates.Some? ==> duplicates.value != [])
  }

  function Dropped(duplicates: Option<seq<IndexItem>>): seq<IndexItem> {
    if duplicates.Some? then duplicates.value else []
  }

  lemma {:induction false} WalkDrops(s: seq<IndexItem>, buffer: seq<IndexItem>, curr: nat, write: nat)
    requires Walking(s, buffer, curr, write) && curr > 0 && s[curr - 1].pubkey == s[curr].pubkey
    ensures Walking(s, buffer, curr - 1, write)
  {
    KeepLastStep(s, curr);
    assert buffer[..curr - 1] == buffer[..curr][..curr - 1] == s[..curr - 1];
  }

  lemma {:induction false} TallyDrops(s: seq<IndexItem>, curr: nat, duplicates: Option<seq<IndexItem>>)
    requires Tally(s, curr, duplicates) && curr > 0 && s[curr - 1].pubkey == s[curr].pubkey
    ensures Tally(s, curr - 1, Some(Dropped(duplicates) + [s[curr - 1]]))
  {
    KeepLastStep(s, curr);
  }

  /** The entry written goes to a place already read. */
  lemma {:induction false} WalkKeeps(s: seq<IndexItem>, buffer: seq<IndexItem>, buffer': seq<IndexItem>, curr: nat,
                                     write: nat)
    requires Walking(s, buffer, curr, write) && curr > 0 && s[curr - 1].pubkey != s[curr].pubkey
    requires buffer' == if curr < write then buffer[write - 1 := s[curr - 1]] else buffer
    ensures Walking(s, buffer', curr - 1, write - 1)
  {
    KeepLastStep(s, curr);
    assert buffer[curr - 1] == buffer[..curr][curr - 1] == s[curr - 1];
    assert buffer'[write - 1] == s[curr - 1] && buffer'[write..] == buffer[write..];
    Uncons(buffer', write - 1);
    assert buffer'[..curr - 1] == buffer[..curr][..curr - 1] == s[..curr][..curr - 1] == s[..curr - 1];
  }

  lemma {:induction false} Uncons<T>(s: seq<T>, i: nat)
    requires i < |s|
    ensures s[i..] == [s[i]] + s[i + 1..]
  {
  }

  lemma {:induction false} TallyKeeps(s: seq<IndexItem>, curr: nat, duplicates: Option<seq<IndexItem>>)
    requires Tally(s, curr, duplicates) && curr > 0 && s[curr - 1].pubkey != s[curr].pubkey
    ensures Tally(s, curr - 1, duplicates)
  {
    KeepLastStep(s, curr);
  }

  /** Where the walk is, and the key it has seen last. */
  ghost predicate Going(s: seq<IndexItem>, buffer: seq<IndexItem>, curr: nat, write: nat, lastKey: Pubkey,
                        duplicates: Option<seq<IndexItem>>) {
    Walking(s, buffer, curr, write) && Tally(s, curr, duplicates) && lastKey == s[curr].pubkey
  }

  lemma {:induction false} GoingStarts(s: seq<IndexItem>)
    requires s != []
    ensures Going(s, s, |s| - 1, |s| - 1, s[|s| - 1].pubkey, None)
  {
  }

  lemma {:induction false} GoingDrops(s: seq<IndexItem>, buffer: seq<IndexItem>, curr: nat, write: nat, lastKey: Pubkey,
                                      duplicates: Option<seq<IndexItem>>)
    requires Going(s, buffer, curr, write, lastKey, duplicates) && curr > 0 && s[curr - 1].pubkey == lastKey
    ensures Going(s, buffer, curr - 1, write, lastKey, Some(Dropped(duplicates) + [s[curr - 1]]))
  {
    WalkDrops(s, buffer, curr, write);
    TallyDrops(s, curr, duplicates);
  }

  lemma {:induction false} NextUnread(s: seq<IndexItem>, buffer: seq<IndexItem>, curr: nat, write: nat)
    requires Walking(s, buffer, curr, write) && curr > 0
    ensures buffer[curr - 1] == s[curr - 1]
  {
    assert buffer[curr - 1] == buffer[..curr][curr - 1];
  }

  /** Moves the item before `curr` up to the items kept. */
  method KeepItem(items: array<IndexItem>, curr: nat, write: nat, ghost s: seq<IndexItem>, ghost lastKey: Pubkey,
                  ghost duplicates: Option<seq<IndexItem>>)
    requires Going(s, items[..], curr, write, lastKey, duplicates) && curr > 0 && s[curr - 1].pubkey != lastKey
    modifies items
    ensures write > 0 && Going(s, items[..], curr - 1, write - 1, s[curr - 1].pubkey, duplicates)
  {
    ghost var before := items[..];
    var item := items[curr - 1];
    NextUnread(s, before, curr, write);
    if curr < write { items[write - 1] := item; }
    assert items[..] == if curr < write then before[write - 1 := item] else before;
    WalkKeeps(s, before, items[..], curr, write);
    TallyKeeps(s, curr, duplicates);
  }

  /** The item before `curr` is a duplicate of the last one, or is kept. */
  method WalkItem(items: array<IndexItem>, curr: nat, write: nat, lastKey: Pubkey, duplicates: Option<seq<IndexItem>>,
                  ghost s: seq<IndexItem>)
    returns (curr': nat, write': nat, lastKey': Pubkey, duplicates': Option<seq<IndexItem>>)
    requires Going(s, items[..], curr, write, lastKey, duplicates) && curr > 0
    modifies items
    ensures curr' == curr - 1 && Going(s, items[..], curr', write', lastKey', duplicates')
  {
    var item := items[curr - 1];
    NextUnread(s, items[..], curr, write);
    curr' := curr - 1;
    if item.pubkey == lastKey {
      GoingDrops(s, items[..], curr, write, lastKey, duplicates);
      write', lastKey', duplicates' := write, lastKey, Some(Dropped(duplicates) + [item]);
    } else {
      KeepItem(items, curr, write, s, lastKey, duplicates);
      write', lastKey', duplicates' := write - 1, item.pubkey, duplicates;
    }
  }

  /** The walk from the end of the sorted buffer. */
  method KeepLastInPlace(items: array<IndexItem>) returns (start: nat, duplicates: Option<seq<IndexItem>>)
    requires items.Length > 0
    modifies items
    ensures Walking(old(items[..]), items[..], 0, start) && Tally(old(items[..]), 0, duplicates)
  {
    ghost var sorted := items[..];
    duplicates := None;
    var n := items.Length;
    var lastKey, write := items[n - 1].pubkey, n - 1;
    var curr := write;
    GoingStarts(sorted);
    while curr > 0
      invariant 0 <= curr <= write && Going(sorted, items[..], curr, write, lastKey, duplicates)
    {
      curr, write, lastKey, duplicates := WalkItem(items, curr, write, lastKey, duplicates, sorted);
    }
    start := write;
  }

  /**
   Keeps in `items[start..]` the last entry of every pubkey, ascending, and returns the others.
   Nothing is lost: what is kept and what is returned is what there was.
   */
  method RemoveOlderDuplicatePubkeys(items: array<IndexItem>) returns (start: nat, duplicates: Option<seq<IndexItem>>)
    modifies items
    ensures start <= items.Length && Newest(old(items[..]), items[start..])
    ensures multiset(items[start..]) + multiset(Dropped(duplicates)) == multiset(old(items[..]))
    ensures duplicates.Some? ==> duplicates.value != []
  {
    SortedKeepsNewest(items[..]);
    if items.Length < 2 {
      OneIsNewest(items[..]);
      return 0, None;
    }
    var sorted := StableSort(items[..], KeyRank);
    forall i | 0 <= i < items.Length { items[i] := sorted[i]; }
    assert items[..] == sorted;
    start, duplicates := KeepLastInPlace(items);
    assert sorted[0..] == sorted && items[..][start..] == items[start..];
  }

  lemma {:induction false} OneIsNewest(items: seq<IndexItem>)
    requires |items| < 2
    ensures StableSort(items, KeyRank) == items && KeepLast(items) == items && items[0..] == items
  {
    if items != [] { assert items[1..] == []; }
  }
}
