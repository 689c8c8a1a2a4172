/**
 The fanout-N Merkle root of the accounts hash. The hash function is a parameter `f` on sequences
 of hashes; a hasher is the sequence of hashes fed to it so far.

 `Level` and `Root` are the reference: group the hashes `fanout` at a time, hash each group, and
 repeat until one hash is left. `ComputeMerkleRootFromSlices` is the production form, which reads
 hashes through slices that may end anywhere and may hash three levels in one pass.
 */
module Merkle {
  import opened Common

  function Level<H>(f: seq<H> -> H, fanout: nat, hs: seq<H>): seq<H>
    requires fanout >= 1
    decreases |hs|
  {
    if hs == [] then []
    else if |hs| <= fanout then [f(hs)]
    else [f(hs[..fanout])] + Level(f, fanout, hs[fanout..])
  }

  function Levels<H>(f: seq<H> -> H, fanout: nat, n: nat, hs: seq<H>): seq<H>
    requires fanout >= 1
  {
    if n == 0 then hs else Levels(f, fanout, n - 1, Level(f, fanout, hs))
  }

  function Root<H>(f: seq<H> -> H, fanout: nat, hs: seq<H>): H
    requires fanout >= 2
    decreases |hs|
  {
    if |hs| <= fanout then f(hs)
    else
      LevelShrinks(f, fanout, hs);
      Root(f, fanout, Level(f, fanout, hs))
  }

  // ---------- facts about one level ----------

  lemma {:induction false} LevelShrinks<H>(f: seq<H> -> H, fanout: nat, hs: seq<H>)
    requires fanout >= 2 && |hs| >= 2
    ensures |Level(f, fanout, hs)| < |hs|
  {
    if |hs| > fanout {
      if |hs| > fanout + 1 { LevelShrinks(f, fanout, hs[fanout..]); }
    }
  }

  /** Hash `i` of a level covers the `i`-th group of `fanout` hashes, the last of which may be short. */
  lemma {:induction false} GroupOfLevel<H>(f: seq<H> -> H, fanout: nat, hs: seq<H>, i: nat)
    requires fanout >= 1 && i < |Level(f, fanout, hs)|
    ensures i * fanout < |hs| && Level(f, fanout, hs)[i] == f(hs[i * fanout..Min((i + 1) * fanout, |hs|)])
    decreases |hs|
  {
    if i > 0 {
      var rest := hs[fanout..];
      GroupOfLevel(f, fanout, rest, i - 1);
      assert (i - 1) * fanout + fanout == i * fanout && i * fanout + fanout == (i + 1) * fanout;
      assert rest[(i - 1) * fanout..Min(i * fanout, |rest|)] == hs[i * fanout..Min((i + 1) * fanout, |hs|)];
    } else {
      assert hs[..|hs|] == hs;
    }
  }

  lemma {:induction false} LevelSize<H>(f: seq<H> -> H, fanout: nat, hs: seq<H>, m: nat)
    requires fanout >= 1
    ensures |hs| <= m * fanout <==> |Level(f, fanout, hs)| <= m
    ensures |hs| >= m * fanout ==> |Level(f, fanout, hs)| >= m
    decreases |hs|
  {
    if |hs| > fanout && m > 0 {
      LevelSize(f, fanout, hs[fanout..], m - 1);
      assert m * fanout == (m - 1) * fanout + fanout;
    }
  }

  /** `n` is a multiple of `fanout`. */
  ghost predicate Whole(n: nat, fanout: nat)
    requires fanout >= 1
  {
    n == 0 || (n >= fanout && Whole(n - fanout, fanout))
  }

  lemma {:induction false} MultipleIsWhole(m: nat, fanout: nat)
    requires fanout >= 1
    ensures Whole(m * fanout, fanout)
  {
    if m > 0 {
      MultipleIsWhole(m - 1, fanout);
      assert m * fanout - fanout == (m - 1) * fanout;
    }
  }

  /** Whole groups can be hashed apart from what follows them. */
  lemma {:induction false} LevelAppend<H>(f: seq<H> -> H, fanout: nat, a: seq<H>, b: seq<H>)
    requires fanout >= 1 && Whole(|a|, fanout)
    ensures Level(f, fanout, a + b) == Level(f, fanout, a) + Level(f, fanout, b)
    decreases |a|
  {
    if a == [] {
      assert a + b == b;
    } else if b == [] {
      assert a + b == a;
    } else {
      var head, tail := a[..fanout], a[fanout..];
      LevelAppend(f, fanout, tail, b);
      assert (a + b)[..fanout] == head && (a + b)[fanout..] == tail + b;
      assert Level(f, fanout, a) == [f(head)] + Level(f, fanout, tail) by {
        if tail == [] { assert a == head; }
      }
    }
  }

  lemma {:induction false} Reassociate(m: nat, p: nat, fanout: nat)
    ensures (m * p) * fanout == m * (fanout * p)
  {
  }

  lemma {:induction false} LevelsAppend<H>(f: seq<H> -> H, fanout: nat, n: nat, a: seq<H>, b: seq<H>, m: nat)
    requires fanout >= 1 && |a| == m * Pow(fanout, n)
    ensures Levels(f, fanout, n, a + b) == Levels(f, fanout, n, a) + Levels(f, fanout, n, b)
    decreases n
  {
    if n > 0 {
      var k := m * Pow(fanout, n - 1);
      Reassociate(m, Pow(fanout, n - 1), fanout);
      MultipleIsWhole(k, fanout);
      LevelAppend(f, fanout, a, b);
      LevelSize(f, fanout, a, k);
      LevelsAppend(f, fanout, n - 1, Level(f, fanout, a), Level(f, fanout, b), m);
    }
  }

  lemma {:induction false} LevelsSize<H>(f: seq<H> -> H, fanout: nat, n: nat, hs: seq<H>, m: nat)
    requires fanout >= 1
    ensures |hs| <= m * Pow(fanout, n) <==> |Levels(f, fanout, n, hs)| <= m
    ensures |hs| >= m * Pow(fanout, n) ==> |Levels(f, fanout, n, hs)| >= m
    decreases n
  {
    if n > 0 {
      var k := m * Pow(fanout, n - 1);
      Reassociate(m, Pow(fanout, n - 1), fanout);
      LevelSize(f, fanout, hs, k);
      LevelsSize(f, fanout, n - 1, Level(f, fanout, hs), m);
    }
  }

  lemma {:induction false} LevelsSplit<H>(f: seq<H> -> H, fanout: nat, a: nat, b: nat, hs: seq<H>)
    requires fanout >= 1
    ensures Levels(f, fanout, a + b, hs) == Levels(f, fanout, b, Levels(f, fanout, a, hs))
    decreases a
  {
    if a > 0 { LevelsSplit(f, fanout, a - 1, b, Level(f, fanout, hs)); }
  }

  /** A block of at most fanout^(n+1) hashes becomes one hash, that of its level n. */
  lemma {:induction false} LevelsTop<H>(f: seq<H> -> H, fanout: nat, n: nat, hs: seq<H>)
    requires fanout >= 1 && 0 < |hs| <= fanout * Pow(fanout, n)
    ensures 0 < |Levels(f, fanout, n, hs)| <= fanout
    ensures Levels(f, fanout, n + 1, hs) == [f(Levels(f, fanout, n, hs))]
  {
    LevelsSize(f, fanout, n, hs, 0);
    LevelsSize(f, fanout, n, hs, fanout);
    LevelsSplit(f, fanout, n, 1, hs);
    var top := Levels(f, fanout, n, hs);
    assert Levels(f, fanout, 1, top) == Levels(f, fanout, 0, Level(f, fanout, top));
  }

  /** Passing through n levels that never reach one hash leaves the root alone. */
  lemma {:induction false} RootOfLevels<H>(f: seq<H> -> H, fanout: nat, n: nat, hs: seq<H>)
    requires fanout >= 2 && |hs| > Pow(fanout, n)
    ensures Root(f, fanout, hs) == Root(f, fanout, Levels(f, fanout, n, hs))
    decreases n
  {
    if n > 0 {
      PowGrows(fanout, n - 1);
      LevelSize(f, fanout, hs, Pow(fanout, n - 1));
      RootOfLevels(f, fanout, n - 1, Level(f, fanout, hs));
    }
  }

  lemma {:induction false} PowGrows(b: nat, e: nat)
    requires b >= 1
    ensures Pow(b, e) >= 1 && Pow(b, e + 1) >= b && Pow(b, e + 1) >= Pow(b, e)
  {
    if e > 0 { PowGrows(b, e - 1); }
  }

  // ---------- the simple form ----------

  function Extract<T, H>(extractor: T -> H, items: seq<T>): (r: seq<H>)
    ensures |r| == |items| && forall i :: 0 <= i < |items| ==> r[i] == extractor(items[i])
  {
    seq(|items|, i requires 0 <= i < |items| => extractor(items[i]))
  }

  function DivCeil(x: nat, y: nat): (r: nat)
    requires y > 0
    ensures x <= r * y && (x > 0 ==> (r - 1) * y < x) && (x == 0 ==> r == 0)
  {
    if x % y != 0 then x / y + 1 else x / y
  }

  lemma {:induction false} ChunkBounds(i: nat, chunks: nat, size: nat, total: nat)
    requires size > 0 && i < chunks == DivCeil(total, size)
    ensures i * size < total
    ensures Min((i + 1) * size, total) == Min(i * size + size, total)
  {
    assert i * size <= (chunks - 1) * size;
    assert (i + 1) * size == i * size + size;
  }

  lemma {:induction false} NextGroup<H>(f: seq<H> -> H, fanout: nat, hs: seq<H>, i: nat, start: nat, end: nat)
    requires fanout >= 1 && start == i * fanout && start < end <= |hs| && end <= start + fanout
    ensures Level(f, fanout, hs[..end]) == Level(f, fanout, hs[..start]) + [f(hs[start..end])]
  {
    var a, b := hs[..start], hs[start..end];
    assert a + b == hs[..end];
    MultipleIsWhole(i, fanout);
    LevelAppend(f, fanout, a, b);
  }

  method ComputeMerkleRootLoop<T, H>(f: seq<H> -> H, hashes: seq<T>, fanout: nat, extractor: T -> H)
    returns (root: H)
    requires fanout >= 2
    ensures root == Root(f, fanout, Extract(extractor, hashes))
    ensures |hashes| <= fanout ==> root == f(Extract(extractor, hashes))
    decreases |hashes|
  {
    ghost var hs := Extract(extractor, hashes);
    if |hashes| == 0 {
      assert hs == [];
      return f([]);
    }
    var total := |hashes|;
    var chunks := DivCeil(total, fanout);
    var result: seq<H> := [];
    for i := 0 to chunks
      invariant result == Level(f, fanout, hs[..Min(i * fanout, total)])
    {
      var start := i * fanout;
      ChunkBounds(i, chunks, fanout, total);
      var end := Min(start + fanout, total);
      var hasher: seq<H> := [];
      for j := start to end
        invariant hasher == hs[start..j]
      {
        hasher := hasher + [extractor(hashes[j])];
      }
      NextGroup(f, fanout, hs, i, start, end);
      result := result + [f(hasher)];
    }
    assert hs[..Min(chunks * fanout, total)] == hs;
    if |result| == 1 {
      root := result[0];
      LevelSize(f, fanout, hs, 1);
    } else {
      LevelSize(f, fanout, hs, 1);
      LevelShrinks(f, fanout, hs);
      root := ComputeMerkleRootLoop(f, result, fanout, h => h);
      assert Extract((h: H) => h, result) == result;
    }
  }

  // ---------- hashes read through slices ----------

  /** `get(start)` is some non-empty run of the logical sequence `hs` that starts at `start`. */
  ghost predicate SlicesOf<H>(get: nat --> seq<H>, hs: seq<H>) {
    forall start: nat :: start < |hs| ==>
      get.requires(start) && get(start) != [] && get(start) <= hs[start..]
  }

  /** What is left of `data` from `index` on continues `hs` at `i`. */
  ghost predicate InStep<H>(hs: seq<H>, data: seq<H>, index: nat, i: nat) {
    i <= |hs| && (index < |data| ==> data[index..] <= hs[i..])
  }

  /** The next hash, fetching a new slice at `i` when the current one is used up. */
  method NextHash<H>(get: nat --> seq<H>, data: seq<H>, index: nat, i: nat, ghost hs: seq<H>)
    returns (h: H, data': seq<H>, index': nat)
    requires SlicesOf(get, hs) && i < |hs| && InStep(hs, data, index, i)
    ensures h == hs[i] && InStep(hs, data', index', i + 1)
  {
    data', index' := data, index;
    if index' >= |data'| {
      data' := get(i);
      index' := 0;
    }
    h := data'[index'];
    assert data'[index'..][0] == hs[i..][0];
    index' := index' + 1;
    if index' < |data'| {
      assert data'[index'..] == data'[index' - 1..][1..];
      assert hs[i + 1..] == hs[i..][1..];
    }
  }

  method HashOneLevel<H>(f: seq<H> -> H, get: nat --> seq<H>, first: seq<H>, start: nat, end: nat, ghost hs: seq<H>)
    returns (h: H)
    requires SlicesOf(get, hs) && start <= end <= |hs| && InStep(hs, first, start, start)
    ensures h == f(hs[start..end])
  {
    var data, index := first, start;
    var hasher: seq<H> := [];
    for i := start to end
      invariant hasher == hs[start..i]
      invariant InStep(hs, data, index, i)
    {
      var next;
      next, data, index := NextHash(get, data, index, i, hs);
      hasher := hasher + [next];
    }
    h := f(hasher);
  }

  /** The innermost hasher: one group of up to `fanout` hashes starting at `i`. */
  method HashGroup<H>(f: seq<H> -> H, fanout: nat, get: nat --> seq<H>, data: seq<H>, index: nat,
                      i: nat, end: nat, ghost hs: seq<H>)
    returns (h: H, data': seq<H>, index': nat, i': nat)
    requires SlicesOf(get, hs) && i < end <= |hs| && InStep(hs, data, index, i)
    ensures i' == Min(i + fanout, end) && InStep(hs, data', index', i')
    ensures h == f(hs[i..i'])
  {
    data', index', i' := data, index, i;
    var hasherK: seq<H> := [];
    var count := Min(end - i, fanout);
    for k := 0 to count
      invariant i' == i + k && i' <= end && InStep(hs, data', index', i')
      invariant hasherK == hs[i..i']
    {
      var next;
      next, data', index' := NextHash(get, data', index', i', hs);
      hasherK := hasherK + [next];
      i' := i' + 1;
    }
    h := f(hasherK);
  }

  /** The middle hasher: up to `fanout` groups starting at `i`. */
  method HashBlock<H>(f: seq<H> -> H, fanout: nat, get: nat --> seq<H>, data: seq<H>, index: nat,
                      i: nat, end: nat, ghost hs: seq<H>)
    returns (h: H, data': seq<H>, index': nat, i': nat)
    requires fanout >= 1 && SlicesOf(get, hs) && i < end <= |hs| && InStep(hs, data, index, i)
    ensures i' == Min(i + fanout * fanout, end) && InStep(hs, data', index', i')
    ensures h == f(Level(f, fanout, hs[i..i']))
  {
    data', index', i' := data, index, i;
    var hasherJ: seq<H> := [];
    var j := 0;
    while j < fanout
      invariant j <= fanout && i <= i' < end && InStep(hs, data', index', i')
      invariant i' == i + j * fanout
      invariant hasherJ == Level(f, fanout, hs[i..i'])
    {
      var group := i';
      var next;
      next, data', index', i' := HashGroup(f, fanout, get, data', index', i', end, hs);
      GroupDone(f, fanout, hs, i, group, i', j);
      hasherJ := hasherJ + [next];
      j := j + 1;
      if i' >= end { break; }
    }
    h := f(hasherJ);
  }

  lemma {:induction false} Times(j: nat, fanout: nat)
    requires j < fanout
    ensures (j + 1) * fanout == j * fanout + fanout <= fanout * fanout
  {
  }

  lemma {:induction false} GroupDone<H>(f: seq<H> -> H, fanout: nat, hs: seq<H>, i: nat, group: nat, i': nat, j: nat)
    requires fanout >= 1 && j < fanout && i <= group < i' <= |hs| && group == i + j * fanout && i' <= group + fanout
    ensures Level(f, fanout, hs[i..i']) == Level(f, fanout, hs[i..group]) + [f(hs[group..i'])]
    ensures group + fanout == i + (j + 1) * fanout <= i + fanout * fanout
  {
    var a, b := hs[i..group], hs[group..i'];
    assert a + b == hs[i..i'];
    MultipleIsWhole(j, fanout);
    LevelAppend(f, fanout, a, b);
    Times(j, fanout);
  }

  /** The outermost hasher, over a chunk of at most fanout^3 hashes: three levels at once. */
  method HashThreeLevels<H>(f: seq<H> -> H, fanout: nat, get: nat --> seq<H>, first: seq<H>,
                            start: nat, end: nat, ghost hs: seq<H>)
    returns (h: H)
    requires fanout >= 1 && SlicesOf(get, hs) && InStep(hs, first, start, start)
    requires start < end <= |hs| && end - start <= fanout * fanout * fanout
    ensures [h] == Levels(f, fanout, 3, hs[start..end])
  {
    var data, index, i := first, start, start;
    var hasher: seq<H> := [];
    ghost var blocks: nat := 0;
    LevelsEmpty(f, fanout, 2);
    while i < end
      invariant start <= i <= end && InStep(hs, data, index, i)
      invariant i < end ==> i == start + blocks * (fanout * fanout)
      invariant hasher == Levels(f, fanout, 2, hs[start..i])
    {
      ghost var block := i;
      var next;
      next, data, index, i := HashBlock(f, fanout, get, data, index, i, end, hs);
      BlockStep(f, fanout, hs, start, block, i, end, blocks);
      hasher, blocks := hasher + [next], blocks + 1;
    }
    h := f(hasher);
    ChunkTop(f, fanout, hs[start..end]);
  }

  /** One more middle block of the chunk. */
  lemma {:induction false} BlockStep<H>(f: seq<H> -> H, fanout: nat, hs: seq<H>, start: nat, block: nat, i: nat,
                                        end: nat, blocks: nat)
    requires fanout >= 1 && block == start + blocks * (fanout * fanout) && block < end <= |hs|
    requires i == Min(block + fanout * fanout, end)
    ensures i < end ==> i == start + (blocks + 1) * (fanout * fanout)
    ensures block < i && Levels(f, fanout, 2, hs[start..i]) ==
            Levels(f, fanout, 2, hs[start..block]) + [f(Level(f, fanout, hs[block..i]))]
  {
    MulMonotone(1, fanout, fanout);
    BlockDone(f, fanout, hs[start..block], hs[block..i], blocks);
    assert hs[start..block] + hs[block..i] == hs[start..i];
  }

  lemma {:induction false} ChunkTop<H>(f: seq<H> -> H, fanout: nat, chunk: seq<H>)
    requires fanout >= 1 && 0 < |chunk| <= fanout * fanout * fanout
    ensures Levels(f, fanout, 3, chunk) == [f(Levels(f, fanout, 2, chunk))]
  {
    PowTwo(fanout);
    LevelsTop(f, fanout, 2, chunk);
  }

  lemma {:induction false} PowTwo(fanout: nat)
    ensures Pow(fanout, 1) == fanout && Pow(fanout, 2) == fanout * fanout
    ensures Pow(fanout, 3) == fanout * fanout * fanout
  {
    assert Pow(fanout, 1) == fanout * Pow(fanout, 0);
    assert fanout * (fanout * fanout) == fanout * fanout * fanout;
  }

  /** A finished middle block adds the hash of its first level to the second level of what precedes it. */
  lemma {:induction false} BlockDone<H>(f: seq<H> -> H, fanout: nat, done: seq<H>, block: seq<H>, blocks: nat)
    requires fanout >= 1 && |done| == blocks * (fanout * fanout)
    requires 0 < |block| <= fanout * fanout
    ensures Levels(f, fanout, 2, done + block) == Levels(f, fanout, 2, done) + [f(Level(f, fanout, block))]
  {
    PowTwo(fanout);
    LevelsAppend(f, fanout, 2, done, block, blocks);
    LevelsTop(f, fanout, 1, block);
    assert Levels(f, fanout, 1, block) == Levels(f, fanout, 0, Level(f, fanout, block));
  }

  // ---------- the production form ----------

  function CalculateThreeLevelChunks(total: nat, fanout: nat, maxLevels: Option<nat>, levelCount: Option<nat>)
    : (r: (nat, nat, bool))
    ensures r.1 == (if r.2 then 3 else 1) && r.0 == Pow(fanout, r.1)
    ensures r.2 <==> total >= Pow(fanout, 4) && (maxLevels.Some? ==> maxLevels.value >= 3) &&
                     (levelCount.Some? ==> levelCount.value >= 3)
  {
    var target := fanout * fanout * fanout;
    var threshold := target * fanout;
    var threeLevel := (maxLevels.None? || maxLevels.value >= 3) && total >= threshold &&
                      (levelCount.None? || levelCount.value >= 3);
    PowTwo(fanout);
    assert Pow(fanout, 4) == fanout * Pow(fanout, 3);
    if threeLevel then (target, 3, true) else (fanout, 1, false)
  }

  method ChunkPlan(total: nat, fanout: nat, maxLevels: Option<nat>, levelCount: Option<nat>)
    returns (size: nat, levels: nat)
    requires fanout >= 2 && (levelCount.Some? ==> levelCount.value >= 1)
    ensures levels in {1, 3} && size == Pow(fanout, levels) && (levelCount.Some? ==> levels <= levelCount.value)
    ensures levels == 3 ==> total >= Pow(fanout, 4)
  {
    var chunks := CalculateThreeLevelChunks(total, fanout, maxLevels, levelCount);
    return chunks.0, chunks.1;
  }

  /**
   With no level count, the root of the simple form; with a count, exactly that many levels.
   `emptyHash` stands for the all-zero hash returned beside a vector of intermediate hashes.
   */
  method ComputeMerkleRootFromSlices<H>(
    f: seq<H> -> H, emptyHash: H, total: nat, fanout: nat, maxLevels: Option<nat>,
    get: nat --> seq<H>, levelCount: Option<nat>, ghost hs: seq<H>)
    returns (root: H, level: seq<H>)
    requires fanout >= 2 && total == |hs| && SlicesOf(get, hs)
    requires levelCount.Some? && total > 0 ==> levelCount.value >= 1
    ensures levelCount.None? ==> root == Root(f, fanout, hs) && level == []
    ensures levelCount.Some? ==> level == Levels(f, fanout, levelCount.value, hs)
    ensures levelCount.Some? ==> root == if total == 0 then f([]) else emptyHash
    decreases if levelCount.Some? then levelCount.value else 0
  {
    if total == 0 {
      if levelCount.Some? { LevelsEmpty(f, fanout, levelCount.value); }
      return f([]), [];
    }
    var size, levels := ChunkPlan(total, fanout, maxLevels, levelCount);
    PowGrows(fanout, levels);
    var result := HashChunks(f, total, fanout, size, levels, get, hs);
    if levelCount.Some? {
      LevelsSplit(f, fanout, levels, levelCount.value - levels, hs);
      if levelCount.value == levels {
        return emptyHash, result;
      }
      var rest := result;
      LevelsSize(f, fanout, levels, hs, 0);
      root, level := ComputeMerkleRootFromSlices(f, emptyHash, |rest|, fanout, maxLevels,
        (start: nat) requires start <= |rest| => rest[start..], Some(levelCount.value - levels), rest);
    } else {
      TopOrMore(f, fanout, levels, hs, result);
      if |result| == 1 {
        return result[0], [];
      }
      var top := ComputeMerkleRootLoop(f, result, fanout, h => h);
      assert Extract((h: H) => h, result) == result;
      return top, [];
    }
  }

  /** One hash after a pass is the root; more hashes have the same root as the whole. */
  lemma {:induction false} TopOrMore<H>(f: seq<H> -> H, fanout: nat, levels: nat, hs: seq<H>, result: seq<H>)
    requires fanout >= 2 && hs != [] && levels in {1, 3} && result == Levels(f, fanout, levels, hs)
    requires levels == 3 ==> |hs| >= Pow(fanout, 4)
    ensures result != [] && Root(f, fanout, hs) == if |result| == 1 then result[0] else Root(f, fanout, result)
  {
    if |hs| <= Pow(fanout, levels) {
      PowStrict(fanout, 3);
      OnePass(f, fanout, hs);
    } else {
      LevelsSize(f, fanout, levels, hs, 1);
      RootOfLevels(f, fanout, levels, hs);
    }
  }

  lemma {:induction false} OnePass<H>(f: seq<H> -> H, fanout: nat, hs: seq<H>)
    requires fanout >= 2 && 0 < |hs| <= Pow(fanout, 1)
    ensures var result := Levels(f, fanout, 1, hs); |result| == 1 && Root(f, fanout, hs) == result[0]
  {
    PowTwo(fanout);
    LevelsTop(f, fanout, 0, hs);
  }

  lemma {:induction false} LevelsEmpty<H>(f: seq<H> -> H, fanout: nat, n: nat)
    requires fanout >= 1
    ensures Levels(f, fanout, n, []) == []
  {
    if n > 0 { LevelsEmpty(f, fanout, n - 1); }
  }

  lemma {:induction false} PowStrict(b: nat, e: nat)
    requires b >= 2
    ensures Pow(b, e + 1) > Pow(b, e)
  {
    PowGrows(b, e);
  }

  /** One pass of one or three levels over every chunk; the chunks are independent of each other. */
  method HashChunks<H>(f: seq<H> -> H, total: nat, fanout: nat, size: nat, levels: nat,
                       get: nat --> seq<H>, ghost hs: seq<H>)
    returns (result: seq<H>)
    requires fanout >= 1 && SlicesOf(get, hs) && total == |hs| > 0
    requires levels in {1, 3} && size == Pow(fanout, levels) && size >= 1
    ensures result == Levels(f, fanout, levels, hs)
  {
    PowTwo(fanout);
    var chunks := DivCeil(total, size);
    var first := get(0);
    result := [];
    LevelsEmpty(f, fanout, levels);
    assert hs[..0] == [];
    for i := 0 to chunks
      invariant result == Levels(f, fanout, levels, hs[..Min(i * size, total)])
    {
      var start := i * size;
      ChunkBounds(i, chunks, size, total);
      var end := Min(start + size, total);
      assert InStep(hs, first, start, start) by {
        if start < |first| { assert first <= hs[0..] == hs; }
      }
      var h := HashChunk(f, fanout, levels, get, first, start, end, hs);
      NextChunk(f, fanout, levels, hs, i, start, end);
      result := result + [h];
    }
    assert hs[..Min(chunks * size, total)] == hs;
  }

  method HashChunk<H>(f: seq<H> -> H, fanout: nat, levels: nat, get: nat --> seq<H>, first: seq<H>,
                      start: nat, end: nat, ghost hs: seq<H>)
    returns (h: H)
    requires fanout >= 1 && SlicesOf(get, hs) && InStep(hs, first, start, start)
    requires levels in {1, 3} && start < end <= |hs| && end - start <= Pow(fanout, levels)
    ensures [h] == Levels(f, fanout, levels, hs[start..end])
  {
    PowTwo(fanout);
    if levels == 1 {
      h := HashOneLevel(f, get, first, start, end, hs);
      LevelsTop(f, fanout, 0, hs[start..end]);
    } else {
      h := HashThreeLevels(f, fanout, get, first, start, end, hs);
    }
  }

  lemma {:induction false} NextChunk<H>(f: seq<H> -> H, fanout: nat, levels: nat, hs: seq<H>, i: nat, start: nat,
                                        end: nat)
    requires fanout >= 1 && start == i * Pow(fanout, levels) && start <= end <= |hs|
    ensures Levels(f, fanout, levels, hs[..end])
         == Levels(f, fanout, levels, hs[..start]) + Levels(f, fanout, levels, hs[start..end])
  {
    var a, b := hs[..start], hs[start..end];
    assert a + b == hs[..end];
    LevelsAppend(f, fanout, levels, a, b, i);
  }
}
