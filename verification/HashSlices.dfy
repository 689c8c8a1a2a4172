/**
 A logical sequence of hashes kept in several vectors, some of them possibly empty, and the table
 of cumulative offsets that finds the longest slice starting at any overall position.
 */
module HashSlices {
  import opened Common
  import opened Search

  datatype CumulativeOffset = CumulativeOffset(index: nat, startOffset: nat)

  datatype CumulativeOffsets = CumulativeOffsets(offsets: seq<CumulativeOffset>, totalCount: nat) {
    /** Where entry `k` has to end: where the next one starts. */
    ghost function EndOf(k: nat): nat
      requires k < |offsets|
    {
      if k + 1 < |offsets| then offsets[k + 1].startOffset else totalCount
    }
  }

  /** Entry `o` names a non-empty vector and where its first element stands overall. */
  ghost predicate Locates<T>(o: CumulativeOffset, raw: seq<seq<T>>) {
    o.index < |raw| && raw[o.index] != [] && o.startOffset == |Flatten(raw[..o.index])|
  }

  /** The table of the first `n` vectors: non-empty ones in order, each starting where its predecessor ends. */
  ghost predicate Indexes<T>(co: CumulativeOffsets, raw: seq<seq<T>>) {
    && co.totalCount == |Flatten(raw)|
    && (forall k :: 0 <= k < |co.offsets| ==> Locates(co.offsets[k], raw))
    && (forall k :: 0 <= k < |co.offsets| ==>
          co.offsets[k].startOffset + |raw[co.offsets[k].index]| == co.EndOf(k))
    && (co.totalCount > 0 ==> co.offsets != [])
    && (co.offsets != [] ==> co.offsets[0].startOffset == 0)
  }

  /** The table after one more vector. */
  function Extend<T>(co: CumulativeOffsets, n: nat, x: seq<T>): CumulativeOffsets {
    if |x| > 0 then CumulativeOffsets(co.offsets + [CumulativeOffset(n, co.totalCount)], co.totalCount + |x|) else co
  }

  lemma {:induction false} StillLocates<T>(o: CumulativeOffset, raw: seq<seq<T>>, x: seq<T>)
    requires Locates(o, raw)
    ensures Locates(o, raw + [x]) && (raw + [x])[o.index] == raw[o.index]
  {
    assert (raw + [x])[..o.index] == raw[..o.index];
  }

  lemma {:induction false} NewLocates<T>(raw: seq<seq<T>>, x: seq<T>)
    requires |x| > 0
    ensures Locates(CumulativeOffset(|raw|, |Flatten(raw)|), raw + [x])
  {
    assert (raw + [x])[..|raw|] == raw;
  }

  lemma {:induction false} ExtendIndexes<T>(co: CumulativeOffsets, raw: seq<seq<T>>, x: seq<T>)
    requires Indexes(co, raw)
    ensures Indexes(Extend(co, |raw|, x), raw + [x])
  {
    FlattenPush(raw, x);
    var raw', co' := raw + [x], Extend(co, |raw|, x);
    forall k | 0 <= k < |co.offsets|
      ensures Locates(co'.offsets[k], raw') && co'.offsets[k].startOffset + |raw'[co'.offsets[k].index]| == co'.EndOf(k)
    {
      assert co'.offsets[k] == co.offsets[k] && co'.EndOf(k) == co.EndOf(k);
      StillLocates(co.offsets[k], raw, x);
    }
    if |x| > 0 { NewLocates(raw, x); }
  }

  method New<T>(raw: seq<seq<T>>) returns (co: CumulativeOffsets)
    ensures Indexes(co, raw)
  {
    co := CumulativeOffsets([], 0);
    for i := 0 to |raw|
      invariant Indexes(co, raw[..i])
    {
      ExtendIndexes(co, raw[..i], raw[i]);
      assert raw[..i + 1] == raw[..i] + [raw[i]];
      co := Extend(co, i, raw[i]);
    }
    assert raw[..|raw|] == raw;
  }

  /** Every vector in the table has room for at least one hash before the next one starts. */
  ghost predicate Spaced(co: CumulativeOffsets) {
    forall k :: 0 <= k < |co.offsets| ==> co.offsets[k].startOffset < co.EndOf(k)
  }

  lemma {:induction false} IndexesSpaced<T>(co: CumulativeOffsets, raw: seq<seq<T>>)
    requires Indexes(co, raw)
    ensures Spaced(co)
  {
    forall k | 0 <= k < |co.offsets| ensures co.offsets[k].startOffset < co.EndOf(k) {
      assert Locates(co.offsets[k], raw);
    }
  }

  lemma {:induction false} Ascending(co: CumulativeOffsets, i: nat, j: nat)
    requires Spaced(co) && i < j < |co.offsets|
    ensures co.offsets[i].startOffset < co.offsets[j].startOffset
    decreases j
  {
    assert co.offsets[j - 1].startOffset < co.EndOf(j - 1);
    if i + 1 < j { Ascending(co, i, j - 1); }
  }

  function Comparisons(co: CumulativeOffsets, start: nat): (c: seq<Ordering>)
    ensures |c| == |co.offsets|
    ensures forall k :: 0 <= k < |c| ==> c[k] == Compare(co.offsets[k].startOffset, start)
  {
    seq(|co.offsets|, k requires 0 <= k < |co.offsets| => Compare(co.offsets[k].startOffset, start))
  }

  lemma {:induction false} ComparisonsOrdered(co: CumulativeOffsets, start: nat)
    requires Spaced(co)
    ensures Ordered(Comparisons(co, start))
  {
    var c := Comparisons(co, start);
    forall i, j | 0 <= i < j < |c| ensures c[i].Rank() <= c[j].Rank() { Ascending(co, i, j); }
  }

  /** The position in the table of the vector that holds overall position `start`. */
  function FindIndex<T>(co: CumulativeOffsets, ghost raw: seq<seq<T>>, start: nat): (k: nat)
    requires Indexes(co, raw) && start < co.totalCount
    ensures k < |co.offsets| && co.offsets[k].startOffset <= start < co.EndOf(k)
  {
    IndexesSpaced(co, raw);
    ComparisonsOrdered(co, start);
    var r := BinarySearch(Comparisons(co, start));
    SearchLands(co, start, r);
    match r case Ok(k) => k case Err(k) => k - 1
  }

  lemma {:induction false} SearchLands(co: CumulativeOffsets, start: nat, r: Result<nat, nat>)
    requires Spaced(co) && co.offsets != [] && co.offsets[0].startOffset == 0 && start < co.totalCount
    requires IsSearchResult(Comparisons(co, start), r)
    ensures var k := match r case Ok(k) => k case Err(k) => k - 1;
            0 <= k < |co.offsets| && co.offsets[k].startOffset <= start < co.EndOf(k)
  {
    var c := Comparisons(co, start);
    match r
    case Ok(k) => if k + 1 < |co.offsets| { Ascending(co, k, k + 1); }
    case Err(k) =>
      assert k > 0 by { assert c[0].Rank() <= 0; }
      assert c[k - 1].Less?;
      if k < |c| { assert c[k].Greater?; }
  }

  lemma {:induction false} SliceOfMiddle<T>(a: seq<T>, b: seq<T>, c: seq<T>, start: nat)
    requires |a| <= start <= |a| + |b|
    ensures (a + b + c)[start..] == b[start - |a|..] + c
  {
  }

  /** The longest slice at `start`: it continues the logical sequence and runs to the end of one vector. */
  function GetSlice<T>(co: CumulativeOffsets, raw: seq<seq<T>>, start: nat): (slice: seq<T>)
    requires Indexes(co, raw) && start < co.totalCount
    ensures slice != [] && slice <= Flatten(raw)[start..]
    ensures exists i :: 0 <= i < |raw| && start + |slice| == |Flatten(raw[..i])| + |raw[i]|
  {
    var k := FindIndex(co, raw, start);
    var offset := co.offsets[k];
    assert Locates(offset, raw) && offset.startOffset + |raw[offset.index]| == co.EndOf(k);
    FlattenAt(raw, offset.index);
    SliceOfMiddle(Flatten(raw[..offset.index]), raw[offset.index], Flatten(raw[offset.index + 1..]), start);
    raw[offset.index][start - offset.startOffset..]
  }

  lemma {:induction false} FlattenAt<T>(raw: seq<seq<T>>, i: nat)
    requires i < |raw|
    ensures Flatten(raw) == Flatten(raw[..i]) + raw[i] + Flatten(raw[i + 1..])
  {
    assert raw == raw[..i] + raw[i..];
    FlattenAppend(raw[..i], raw[i..]);
  }

  /** Files without hashes have no reader; dropping them does not change the logical sequence. */
  method FromFiles<T>(files: seq<seq<T>>) returns (readers: seq<seq<T>>, co: CumulativeOffsets)
    ensures Indexes(co, readers) && Flatten(readers) == Flatten(files)
    ensures forall i :: 0 <= i < |readers| ==> readers[i] != [] && readers[i] in files
  {
    readers := [];
    for i := 0 to |files|
      invariant Flatten(readers) == Flatten(files[..i])
      invariant forall k :: 0 <= k < |readers| ==> readers[k] != [] && readers[k] in files
    {
      assert files[..i + 1] == files[..i] + [files[i]];
      FlattenPush(files[..i], files[i]);
      if |files[i]| > 0 {
        FlattenPush(readers, files[i]);
        readers := readers + [files[i]];
      }
    }
    assert files[..|files|] == files;
    co := New(readers);
  }
}
