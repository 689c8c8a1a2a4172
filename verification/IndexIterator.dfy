/**
 The paged iterator over the binned accounts index: every call looks at the bins of the remaining
 range and returns one batch of keys; the next range starts after the last key returned.
 */
module IndexIteration {
  import opened Common
  import opened KeyOrder
  import opened PubkeyBins

  const ITER_BATCH_SIZE: nat := 1000

  const USIZE_MAX: nat := U64_MAX

  datatype Bound = Unbounded | Included(key: Pubkey) | Excluded(key: Pubkey)

  predicate AtOrAfter(k: Pubkey, start: Bound) {
    match start
    case Unbounded => true
    case Included(key) => k >= key
    case Excluded(key) => k > key
  }

  predicate AtOrBefore(k: Pubkey, end: Bound) {
    match end
    case Unbounded => true
    case Included(key) => k <= key
    case Excluded(key) => k < key
  }

  function InRange(keys: set<Pubkey>, start: Bound, end: Bound): (r: set<Pubkey>)
    ensures forall k :: k in r <==>
              && k in keys && (start.Included? ==> start.key <= k) && (start.Excluded? ==> start.key < k)
              && (end.Included? ==> k <= end.key) && (end.Excluded? ==> k < end.key)
  {
    set k | k in keys && AtOrAfter(k, start) && AtOrBefore(k, end)
  }

  ghost function AllKeys(maps: seq<set<Pubkey>>): set<Pubkey> {
    set i, k | 0 <= i < |maps| && k in maps[i] :: k
  }

  /** Every key is in the map of its bin, and bins follow the order of keys. */
  ghost predicate Binned(maps: seq<set<Pubkey>>, bin: Pubkey -> nat) {
    && |maps| < USIZE_MAX && IsBinner(bin, |maps|)
    && forall i, k :: 0 <= i < |maps| && k in maps[i] ==> bin(k) == i
  }

  function BinFromBound(bin: Pubkey -> nat, bound: Bound, unboundedBin: nat): nat {
    match bound
    case Unbounded => unboundedBin
    case Included(key) => bin(key)
    case Excluded(key) => bin(key)
  }

  function BinStartAndRange(bin: Pubkey -> nat, start: Bound, end: Bound): (nat, nat) {
    var first, last := BinFromBound(bin, start, 0), BinFromBound(bin, end, USIZE_MAX);
    (first, if first > last then 0 else if last == USIZE_MAX then USIZE_MAX else last + 1 - first)
  }

  /** Only the looked-at bins hold keys of the range. */
  lemma {:induction false} LooksFarEnough(maps: seq<set<Pubkey>>, bin: Pubkey -> nat, start: Bound, end: Bound,
                                          k: Pubkey)
    requires Binned(maps, bin) && k in InRange(AllKeys(maps), start, end)
    ensures var (first, range) := BinStartAndRange(bin, start, end);
            first <= bin(k) < |maps| && bin(k) - first < range
  {
    if !start.Unbounded? { assert bin(start.key) <= bin(k); }
    if !end.Unbounded? { assert bin(k) <= bin(end.key); }
  }

  /** The keys of the range in bins below `i`. */
  ghost function Below(keys: set<Pubkey>, bin: Pubkey -> nat, i: nat): set<Pubkey> {
    set k | k in keys && bin(k) < i
  }

  lemma {:induction false} NextBin(maps: seq<set<Pubkey>>, bin: Pubkey -> nat, start: Bound, end: Bound, i: nat)
    requires Binned(maps, bin) && i < |maps|
    ensures var keys := InRange(AllKeys(maps), start, end);
            var low, items := Below(keys, bin, i), InRange(maps[i], start, end);
            Below(keys, bin, i + 1) == low + items && low !! items
  {
  }

  /** All of `rest` comes after the list. */
  ghost predicate After(ks: seq<Pubkey>, rest: set<Pubkey>) {
    ks != [] ==> forall y :: y in rest ==> ks[|ks| - 1] < y
  }

  lemma {:induction false} JoinAscending(a: seq<Pubkey>, b: seq<Pubkey>)
    requires Ascending(a) && Ascending(b) && After(a, Elements(b))
    ensures Ascending(a + b) && Elements(a + b) == Elements(a) + Elements(b)
  {
    if a != [] && b != [] { assert b[0] in Elements(b) && a[|a| - 1] < b[0]; }
  }

  /** What is in higher bins comes later. */
  lemma {:induction false} HigherBinsAfter(ks: seq<Pubkey>, bin: Pubkey -> nat, i: nat, rest: set<Pubkey>)
    requires Monotone(bin) && (forall j :: 0 <= j < |ks| ==> bin(ks[j]) < i) && forall y :: y in rest ==> bin(y) >= i
    ensures After(ks, rest)
  {
    if ks != [] {
      var last := ks[|ks| - 1];
      forall y | y in rest ensures last < y { assert bin(last) < bin(y); }
    }
  }

  /** The first of the keys, in ascending order. */
  ghost predicate Front(chunk: seq<Pubkey>, keys: set<Pubkey>) {
    Ascending(chunk) && Elements(chunk) <= keys && After(chunk, keys - Elements(chunk))
  }

  /** The front of what is below some bin is the front of all keys. */
  lemma {:induction false} FrontBelow(all: seq<Pubkey>, keys: set<Pubkey>, bin: Pubkey -> nat, i: nat, n: nat)
    requires Monotone(bin) && Ascending(all) && Elements(all) == Below(keys, bin, i) && n <= |all|
    ensures Front(all[..n], keys) && |keys| >= |all|
  {
    var chunk := all[..n];
    AscendingSize(all);
    SubsetSize(Elements(all), keys);
    forall j | 0 <= j < n ensures bin(chunk[j]) < i && chunk[j] in keys { assert all[j] in Elements(all); }
    HigherBinsAfter(chunk, bin, i, keys - Elements(all));
    forall y | y in keys - Elements(chunk) && n > 0 ensures chunk[n - 1] < y {
      if y in Elements(all) {
        var k :| 0 <= k < |all| && all[k] == y;
        assert y in Elements(chunk) || k >= n;
      }
    }
  }

  // ---------- one bin ----------

  ghost predicate Sorting(ks: seq<Pubkey>, rest: set<Pubkey>, s: set<Pubkey>) {
    Ascending(ks) && Elements(ks) + rest == s && After(ks, rest)
  }

  lemma {:induction false} SortingStep(ks: seq<Pubkey>, rest: set<Pubkey>, s: set<Pubkey>, m: Pubkey)
    requires Sorting(ks, rest, s) && m in rest && forall k :: k in rest ==> m <= k
    ensures Sorting(ks + [m], rest - {m}, s)
  {
    assert Elements([m]) == {m};
    JoinAscending(ks, [m]);
  }

  /** The keys of a set in ascending order. */
  method SortKeys(s: set<Pubkey>) returns (ks: seq<Pubkey>)
    ensures Ascending(ks) && Elements(ks) == s
  {
    ks := [];
    var rest := s;
    while rest != {}
      invariant Sorting(ks, rest, s)
      decreases |rest|
    {
      var m := LeastKey(rest);
      SortingStep(ks, rest, s, m);
      ks, rest := ks + [m], rest - {m};
    }
  }

  method LeastKey(s: set<Pubkey>) returns (m: Pubkey)
    requires s != {}
    ensures m in s && forall k :: k in s ==> m <= k
  {
    assert Least(s) in s;
    m :| m in s && forall k :: k in s ==> m <= k;
  }

  /** Moves keys into the batch until it has the batch size; `full` if some were left. */
  method TakeKeys(chunk: seq<Pubkey>, items: seq<Pubkey>, collectAll: bool) returns (chunk': seq<Pubkey>, full: bool)
    requires collectAll || |chunk| <= ITER_BATCH_SIZE
    ensures full <==> !collectAll && |chunk| + |items| > ITER_BATCH_SIZE
    ensures chunk' == if full then (chunk + items)[..ITER_BATCH_SIZE] else chunk + items
  {
    chunk' := chunk;
    for i := 0 to |items|
      invariant chunk' == chunk + items[..i] && (collectAll || |chunk'| <= ITER_BATCH_SIZE)
    {
      if |chunk'| >= ITER_BATCH_SIZE && !collectAll {
        return chunk', true;
      }
      chunk' := chunk' + [items[i]];
    }
    full := false;
  }

  /** The keys of a set in any order. */
  method ListKeys(s: set<Pubkey>) returns (ks: seq<Pubkey>)
    ensures Elements(ks) == s && |ks| == |s|
  {
    ks := [];
    var rest := s;
    while rest != {}
      invariant Elements(ks) + rest == s && |ks| + |rest| == |s|
      decreases |rest|
    {
      var k :| k in rest;
      assert Elements(ks + [k]) == Elements(ks) + {k};
      ks, rest := ks + [k], rest - {k};
    }
  }

  /** The keys of one bin in the range, sorted unless everything is collected at once. */
  method Range(keys: set<Pubkey>, start: Bound, end: Bound, collectAll: bool) returns (items: seq<Pubkey>)
    ensures var s := InRange(keys, start, end);
            Elements(items) == s && |items| == |s| && (!collectAll ==> Ascending(items))
  {
    if collectAll {
      items := ListKeys(InRange(keys, start, end));
    } else {
      items := SortKeys(InRange(keys, start, end));
      AscendingSize(items);
    }
  }

  // ---------- one batch ----------

  /** The batch holds the keys in bins below `i`, all of them. */
  ghost predicate Collecting(chunk: seq<Pubkey>, below: set<Pubkey>, collectAll: bool) {
    && Elements(chunk) == below && |chunk| == |below|
    && (!collectAll ==> Ascending(chunk) && |chunk| <= ITER_BATCH_SIZE)
  }

  /** Appending the next bin. */
  lemma {:induction false} CollectingStep(chunk: seq<Pubkey>, items: seq<Pubkey>, below: set<Pubkey>, more: set<Pubkey>,
                                          collectAll: bool)
    requires Collecting(chunk, below, collectAll) && below !! more && After(chunk, more)
    requires Elements(items) == more && |items| == |more| && (!collectAll ==> Ascending(items))
    ensures Elements(chunk + items) == below + more && |chunk + items| == |below + more|
    ensures !collectAll ==> Ascending(chunk + items)
  {
    assert Elements(chunk + items) == Elements(chunk) + Elements(items);
    if !collectAll { JoinAscending(chunk, items); }
  }

  /** A batch of the range: its first keys, or all of them if everything is collected at once. */
  ghost predicate IsBatch(chunk: seq<Pubkey>, keys: set<Pubkey>, collectAll: bool) {
    if collectAll then Elements(chunk) == keys && |chunk| == |keys|
    else Front(chunk, keys) && |chunk| == Min(ITER_BATCH_SIZE, |keys|)
  }

  /** Adds the keys of one bin to the batch, as far as they go. */
  method ScanBin(maps: seq<set<Pubkey>>, bin: Pubkey -> nat, start: Bound, end: Bound, collectAll: bool,
                 chunk: seq<Pubkey>, i: nat) returns (chunk': seq<Pubkey>, full: bool)
    requires Binned(maps, bin) && i < |maps|
    requires Collecting(chunk, Below(InRange(AllKeys(maps), start, end), bin, i), collectAll)
    ensures full ==> IsBatch(chunk', InRange(AllKeys(maps), start, end), collectAll)
    ensures !full ==> Collecting(chunk', Below(InRange(AllKeys(maps), start, end), bin, i + 1), collectAll)
  {
    ghost var keys := InRange(AllKeys(maps), start, end);
    var items := Range(maps[i], start, end, collectAll);
    NextBin(maps, bin, start, end, i);
    BelowAfter(chunk, keys, bin, i, InRange(maps[i], start, end));
    CollectingStep(chunk, items, Below(keys, bin, i), InRange(maps[i], start, end), collectAll);
    chunk', full := TakeKeys(chunk, items, collectAll);
    if full { FrontBelow(chunk + items, keys, bin, i + 1, ITER_BATCH_SIZE); }
  }

  method FillChunk(maps: seq<set<Pubkey>>, bin: Pubkey -> nat, start: Bound, end: Bound, collectAll: bool)
    returns (chunk: seq<Pubkey>)
    requires Binned(maps, bin)
    ensures IsBatch(chunk, InRange(AllKeys(maps), start, end), collectAll)
  {
    var (first, range) := BinStartAndRange(bin, start, end);
    ghost var keys := InRange(AllKeys(maps), start, end);
    chunk := [];
    NoneBelowFirst(maps, bin, start, end);
    var i := first;
    while i < |maps| && i - first < range
      invariant i >= first && Collecting(chunk, Below(keys, bin, i), collectAll)
    {
      var full;
      chunk, full := ScanBin(maps, bin, start, end, collectAll, chunk, i);
      if full { return; }
      i := i + 1;
    }
    AllBelowLast(maps, bin, start, end, i);
  }

  lemma {:induction false} BelowAfter(chunk: seq<Pubkey>, keys: set<Pubkey>, bin: Pubkey -> nat, i: nat,
                                      items: set<Pubkey>)
    requires Monotone(bin) && Elements(chunk) == Below(keys, bin, i) && forall y :: y in items ==> bin(y) == i
    ensures After(chunk, items)
  {
    forall j | 0 <= j < |chunk| ensures bin(chunk[j]) < i { assert chunk[j] in Elements(chunk); }
    HigherBinsAfter(chunk, bin, i, items);
  }

  lemma {:induction false} NoneBelowFirst(maps: seq<set<Pubkey>>, bin: Pubkey -> nat, start: Bound, end: Bound)
    requires Binned(maps, bin)
    ensures Collecting([], Below(InRange(AllKeys(maps), start, end), bin, BinStartAndRange(bin, start, end).0), false)
    ensures Below(InRange(AllKeys(maps), start, end), bin, BinStartAndRange(bin, start, end).0) == {}
  {
    var keys, first := InRange(AllKeys(maps), start, end), BinStartAndRange(bin, start, end).0;
    forall k | k in keys ensures k !in Below(keys, bin, first) { LooksFarEnough(maps, bin, start, end, k); }
    assert Below(keys, bin, first) == {};
  }

  lemma {:induction false} AllBelowLast(maps: seq<set<Pubkey>>, bin: Pubkey -> nat, start: Bound, end: Bound, i: nat)
    requires Binned(maps, bin)
    requires var (first, range) := BinStartAndRange(bin, start, end); i >= first && (i >= |maps| || i - first >= range)
    ensures var keys := InRange(AllKeys(maps), start, end); Below(keys, bin, i) == keys
  {
    var keys := InRange(AllKeys(maps), start, end);
    forall k | k in keys ensures k in Below(keys, bin, i) { LooksFarEnough(maps, bin, start, end, k); }
  }

  class AccountsIndexIterator {
    const maps: seq<set<Pubkey>>
    const bin: Pubkey -> nat
    const end: Bound
    const collectAllUnsorted: bool
    var start: Bound
    var isFinished: bool

    ghost predicate Valid() {
      Binned(maps, bin)
    }

    /** The keys still to be returned. */
    ghost function Remaining(): set<Pubkey>
      reads this
    {
      if isFinished then {} else InRange(AllKeys(maps), start, end)
    }

    constructor (maps: seq<set<Pubkey>>, bin: Pubkey -> nat, start: Bound, end: Bound, collectAllUnsorted: bool)
      requires Binned(maps, bin)
      ensures Valid() && Remaining() == InRange(AllKeys(maps), start, end)
              && this.collectAllUnsorted == collectAllUnsorted
    {
      this.maps, this.bin, this.start, this.end := maps, bin, start, end;
      this.collectAllUnsorted, isFinished := collectAllUnsorted, false;
    }

    /** One batch: the first keys that remain, so that the rest is what remains. */
    method Next() returns (chunk: Option<seq<Pubkey>>)
      requires Valid()
      modifies this
      ensures chunk.None? <==> old(Remaining()) == {}
      ensures chunk.None? ==> Remaining() == {}
      ensures chunk.Some? ==> chunk.value != []
      ensures chunk.Some? && collectAllUnsorted ==>
                Elements(chunk.value) == old(Remaining()) && |chunk.value| == |old(Remaining())| && Remaining() == {}
      ensures chunk.Some? && !collectAllUnsorted ==>
                && |chunk.value| == Min(1000, |old(Remaining())|) && Front(chunk.value, old(Remaining()))
                && Remaining() == old(Remaining()) - Elements(chunk.value)
    {
      if isFinished {
        return None;
      }
      ghost var keys := InRange(AllKeys(maps), start, end);
      var taken := FillChunk(maps, bin, start, end, collectAllUnsorted);
      if taken == [] {
        isFinished := true;
        return None;
      } else if collectAllUnsorted {
        isFinished := true;
      }
      start := Excluded(taken[|taken| - 1]);
      if !collectAllUnsorted { BeyondLast(maps, old(start), end, taken); }
      return Some(taken);
    }
  }

  /** The range after the last key returned is what was not returned. */
  lemma {:induction false} BeyondLast(maps: seq<set<Pubkey>>, start: Bound, end: Bound, chunk: seq<Pubkey>)
    requires chunk != [] && Front(chunk, InRange(AllKeys(maps), start, end))
    ensures var keys := InRange(AllKeys(maps), start, end);
            InRange(AllKeys(maps), Excluded(chunk[|chunk| - 1]), end) == keys - Elements(chunk)
  {
    var keys, last := InRange(AllKeys(maps), start, end), chunk[|chunk| - 1];
    assert last in Elements(chunk) && last in keys;
    forall k | k in keys ensures k > last <==> k !in Elements(chunk) {
      if k in Elements(chunk) {
        var i :| 0 <= i < |chunk| && chunk[i] == k;
      } else {
        assert k in keys - Elements(chunk);
      }
    }
  }

  /** Full batches, except that the last one may be short once nothing remains. */
  ghost predicate Pages(chunks: seq<seq<Pubkey>>, remaining: set<Pubkey>) {
    forall i :: 0 <= i < |chunks| ==>
      0 < |chunks[i]| <= 1000 && (|chunks[i]| < 1000 ==> i == |chunks| - 1 && remaining == {})
  }

  lemma {:induction false} PagesStep(chunks: seq<seq<Pubkey>>, chunk: seq<Pubkey>, rest: set<Pubkey>)
    requires Pages(chunks, rest) && rest != {} && chunk != [] && Front(chunk, rest)
             && |chunk| == Min(ITER_BATCH_SIZE, |rest|)
    ensures Pages(chunks + [chunk], rest - Elements(chunk))
  {
    AscendingSize(chunk);
    MoveOver({}, Elements(chunk), rest);
  }

  /** All batches until the iterator is exhausted: together the keys of the range, in order. */
  method Drain(pages: AccountsIndexIterator) returns (chunks: seq<seq<Pubkey>>)
    requires pages.Valid() && !pages.collectAllUnsorted
    modifies pages
    ensures Ascending(Flatten(chunks)) && Elements(Flatten(chunks)) == old(pages.Remaining())
    ensures pages.Remaining() == {} && Pages(chunks, {})
  {
    chunks := [];
    while true
      invariant Sorting(Flatten(chunks), pages.Remaining(), old(pages.Remaining())) && Pages(chunks, pages.Remaining())
      decreases |pages.Remaining()|
    {
      ghost var before := pages.Remaining();
      var chunk := pages.Next();
      if chunk.None? {
        return;
      }
      DrainStep(Flatten(chunks), chunk.value, before, old(pages.Remaining()));
      FewerRemain(chunk.value, before);
      PagesStep(chunks, chunk.value, before);
      FlattenPush(chunks, chunk.value);
      chunks := chunks + [chunk.value];
    }
  }

  lemma {:induction false} DrainStep(done: seq<Pubkey>, chunk: seq<Pubkey>, rest: set<Pubkey>, all: set<Pubkey>)
    requires Sorting(done, rest, all) && Front(chunk, rest) && chunk != []
    ensures Sorting(done + chunk, rest - Elements(chunk), all)
  {
    JoinAscending(done, chunk);
    MoveOver(Elements(done), Elements(chunk), rest);
    AfterLast(done, chunk, rest - Elements(chunk));
  }

  lemma {:induction false} AfterLast(done: seq<Pubkey>, chunk: seq<Pubkey>, rest: set<Pubkey>)
    requires chunk != [] && After(chunk, rest)
    ensures After(done + chunk, rest)
  {
    assert (done + chunk)[|done + chunk| - 1] == chunk[|chunk| - 1];
  }

  lemma {:induction false} FewerRemain(chunk: seq<Pubkey>, rest: set<Pubkey>)
    requires Front(chunk, rest) && chunk != []
    ensures |rest - Elements(chunk)| == |rest| - |chunk| < |rest|
  {
    AscendingSize(chunk);
    MoveOver({}, Elements(chunk), rest);
  }

  lemma {:induction false} MoveOver(done: set<Pubkey>, chunk: set<Pubkey>, rest: set<Pubkey>)
    requires chunk <= rest
    ensures (done + chunk) + (rest - chunk) == done + rest && |rest - chunk| == |rest| - |chunk|
  {
    assert chunk + (rest - chunk) == rest;
  }
}
