/**
 Rent partitions: n subranges of the pubkey space, scanned in turn as slots go by. A pubkey counts
 by its first eight bytes, its prefix. `TileOf` is the simple definition of the partition of a key;
 the 64-bit arithmetic of ranges and of the inverse map is compared with it.
 */
module Partitions {
  import opened Common

  const PREFIX_MAX: nat := U64_MAX

  /** 2^192: what comes after the prefix. */
  const SUFFIX_LIMIT: nat := 0x1_0000000000000000_0000000000000000_0000000000000000

  const MAX_PUBKEY: Pubkey := PUBKEY_LIMIT - 1

  function PrefixFromPubkey(k: Pubkey): (p: nat)
    ensures p <= PREFIX_MAX
  {
    k / SUFFIX_LIMIT
  }

  function Width(n: nat): nat
    requires 0 < n <= PREFIX_MAX
  {
    (PREFIX_MAX - n + 1) / n + 1
  }

  /** n partitions of this width fit the prefixes, and fewer than n prefixes are left over. */
  lemma {:induction false} WidthFits(n: nat)
    requires 0 < n <= PREFIX_MAX
    ensures Width(n) > 0 && n * Width(n) <= PREFIX_MAX + 1 < n * Width(n) + n
  {
    var q := (PREFIX_MAX - n + 1) / n;
    assert q * n <= PREFIX_MAX - n + 1 < q * n + n;
    assert n * Width(n) == q * n + n;
  }

  lemma {:induction false} Quotient(p: nat, w: nat, i: nat)
    requires w > 0
    ensures p / w == i <==> i * w <= p < i * w + w
    ensures p / w < i <==> p < i * w
  {
    var q := p / w;
    assert q * w <= p < q * w + w;
    if q < i { MulMonotone(q + 1, i, w); } else { MulMonotone(i, q, w); }
    if i < q { MulMonotone(i + 1, q, w); }
  }

  /** Prefixes counted off by width; tile `last` takes what is left over. */
  ghost function Tile(p: nat, w: nat, last: nat): (i: nat)
    ensures i <= last
    decreases last
  {
    if p < w || last == 0 then 0 else 1 + Tile(p - w, w, last - 1)
  }

  lemma {:induction false} TileBounds(p: nat, w: nat, last: nat)
    requires w > 0
    ensures var i := Tile(p, w, last); i * w <= p && (i < last ==> p < i * w + w)
    decreases last
  {
    if p >= w && last > 0 {
      TileBounds(p - w, w, last - 1);
      var i := Tile(p - w, w, last - 1);
      assert (i + 1) * w == i * w + w;
    }
  }

  /** The partition of a key. */
  ghost function TileOf(k: Pubkey, n: nat): (i: nat)
    requires 0 < n <= PREFIX_MAX
    ensures i < n
  {
    Tile(PrefixFromPubkey(k), Width(n), n - 1)
  }

  lemma {:induction false} TileDivides(k: Pubkey, n: nat)
    requires 0 < n <= PREFIX_MAX
    ensures Width(n) > 0 && TileOf(k, n) == Min(PrefixFromPubkey(k) / Width(n), n - 1)
  {
    WidthFits(n);
    var p, w := PrefixFromPubkey(k), Width(n);
    var i := Tile(p, w, n - 1);
    TileBounds(p, w, n - 1);
    Quotient(p, w, i);
  }

  // ---------- ranges ----------

  datatype KeyRange = KeyRange(first: Pubkey, last: Pubkey)

  ghost predicate In(k: Pubkey, r: KeyRange) {
    r.first <= k <= r.last
  }

  function StartPrefix(s: nat, e: nat, n: nat): (p: nat)
    requires s <= e < n && 1 < n <= PREFIX_MAX
    ensures p <= PREFIX_MAX
  {
    WidthFits(n);
    if s == 0 && e == 0 then 0
    else if s + 1 == n then PREFIX_MAX
    else MulMonotone(s + 1, n - 1, Width(n)); (s + 1) * Width(n)
  }

  function EndPrefix(e: nat, n: nat): (p: nat)
    requires e < n && 1 < n <= PREFIX_MAX
    ensures p <= PREFIX_MAX
  {
    WidthFits(n);
    MulMonotone(1, e + 1, Width(n));
    if e + 1 == n then PREFIX_MAX
    else MulMonotone(e + 1, n - 1, Width(n)); (e + 1) * Width(n) - 1
  }

  function Key(prefix: nat, suffix: nat): Pubkey
    requires prefix <= PREFIX_MAX && suffix < SUFFIX_LIMIT
  {
    prefix * SUFFIX_LIMIT + suffix
  }

  function PubkeyRangeFromPartition(s: nat, e: nat, n: nat): KeyRange
    requires s <= e < n <= PREFIX_MAX
  {
    if n == 1 then KeyRange(0, MAX_PUBKEY)
    else
      var start, end := StartPrefix(s, e, n), EndPrefix(e, n);
      if s != 0 && s == e then
        if end == PREFIX_MAX then KeyRange(Key(end, SUFFIX_LIMIT - 1), Key(end, SUFFIX_LIMIT - 1))
        else KeyRange(Key(start, 0), Key(start, 0))
      else KeyRange(Key(start, 0), Key(end, SUFFIX_LIMIT - 1))
  }

  lemma {:induction false} BetweenPrefixes(k: Pubkey, a: nat, b: nat)
    requires a <= PREFIX_MAX && b <= PREFIX_MAX
    ensures In(k, KeyRange(Key(a, 0), Key(b, SUFFIX_LIMIT - 1))) <==> a <= PrefixFromPubkey(k) <= b
  {
  }

  /** The range of (s, e) is partitions s + 1 to e, and that of (0, 0) is partition 0. */
  lemma {:induction false} RangeIsTiles(s: nat, e: nat, n: nat, k: Pubkey)
    requires s <= e < n <= PREFIX_MAX && (s == e ==> s == 0)
    ensures In(k, PubkeyRangeFromPartition(s, e, n)) <==> (s < TileOf(k, n) <= e || s == e == TileOf(k, n))
  {
    WidthFits(n);
    TileDivides(k, n);
    if n > 1 {
      var w, p := Width(n), PrefixFromPubkey(k);
      BetweenPrefixes(k, StartPrefix(s, e, n), EndPrefix(e, n));
      Quotient(p, w, s + 1);
      Quotient(p, w, e + 1);
    }
  }

  /** Every key is in exactly one of the ranges (0, 0), (0, 1), ..., (n - 2, n - 1): the one of its partition. */
  lemma {:induction false} RangesTile(n: nat, k: Pubkey, i: nat)
    requires i < n <= PREFIX_MAX
    ensures In(k, PubkeyRangeFromPartition(if i == 0 then 0 else i - 1, i, n)) <==> i == TileOf(k, n)
  {
    RangeIsTiles(if i == 0 then 0 else i - 1, i, n, k);
  }

  /** The pair (i, i) with i != 0, meant to be empty, is the range of one key. */
  lemma {:induction false} NoopRange(i: nat, n: nat, k: Pubkey)
    requires 0 < i < n <= PREFIX_MAX
    ensures In(k, PubkeyRangeFromPartition(i, i, n)) <==>
            k == if i + 1 == n then MAX_PUBKEY else Key(StartPrefix(i, i, n), 0)
  {
    WidthFits(n);
    if i + 1 < n {
      MulMonotone(i + 1, n - 1, Width(n));
      assert (n - 1) * Width(n) == n * Width(n) - Width(n);
    }
  }

  // ---------- the inverse ----------

  function PartitionFromPubkey(k: Pubkey, n: nat): nat
    requires 0 < n <= PREFIX_MAX
  {
    WidthFits(n);
    var p := PrefixFromPubkey(k);
    if n == 1 || p == 0 then 0
    else if p == PREFIX_MAX then n - 1
    else if (p + 1) % Width(n) != 0 then (p + 1) / Width(n)
    else if (p + 1) / Width(n) == 0 then 0
    else (p + 1) / Width(n) - 1
  }

  lemma {:induction false} InverseDivides(k: Pubkey, n: nat)
    requires 1 < n <= PREFIX_MAX && PrefixFromPubkey(k) != PREFIX_MAX
    ensures Width(n) > 0 && PartitionFromPubkey(k, n) == PrefixFromPubkey(k) / Width(n)
  {
    WidthFits(n);
    RoundDown(PrefixFromPubkey(k), Width(n));
  }

  lemma {:induction false} RoundDown(p: nat, w: nat)
    requires w > 0
    ensures p / w == if (p + 1) % w == 0 then (p + 1) / w - 1 else (p + 1) / w
    ensures p / w >= 0
  {
    var q := (p + 1) / w;
    assert p + 1 == q * w + (p + 1) % w;
    Quotient(p, w, if (p + 1) % w == 0 then q - 1 else q);
  }

  /** The inverse map gives the partition of the key except for the prefixes left over after n whole widths. */
  lemma {:induction false} InverseIsExact(k: Pubkey, n: nat)
    requires 0 < n <= PREFIX_MAX
    ensures PartitionFromPubkey(k, n) == TileOf(k, n) <==>
            PrefixFromPubkey(k) < n * Width(n) || PrefixFromPubkey(k) == PREFIX_MAX
  {
    TileDivides(k, n);
    WidthFits(n);
    var p, w := PrefixFromPubkey(k), Width(n);
    Quotient(p, w, n);
    if p != PREFIX_MAX && n > 1 { InverseDivides(k, n); }
    if p == PREFIX_MAX && n > 1 {
      Quotient(p, w, n - 1);
      assert (n - 1) * w == n * w - w;
    }
  }

  /** Whether n + 1 sets are enough to be indexed by the inverse map. */
  predicate SetsSuffice(n: nat)
    requires 0 < n <= PREFIX_MAX
  {
    n == 1 || (n + 1) * Width(n) >= PREFIX_MAX
  }

  /** The inverse map stays within 0..n for every key exactly if one more width covers the prefixes below the last. */
  lemma {:induction false} IndexInBounds(n: nat)
    requires 0 < n <= PREFIX_MAX
    ensures SetsSuffice(n) <==> forall k: Pubkey :: PartitionFromPubkey(k, n) <= n
  {
    WidthFits(n);
    if n > 1 {
      var w := Width(n);
      if SetsSuffice(n) {
        forall k: Pubkey ensures PartitionFromPubkey(k, n) <= n {
          if PrefixFromPubkey(k) != PREFIX_MAX {
            InverseDivides(k, n);
            Quotient(PrefixFromPubkey(k), w, n + 1);
          }
        }
      } else {
        var k := Key(PREFIX_MAX - 1, 0);
        InverseDivides(k, n);
        Quotient(PREFIX_MAX - 1, w, n + 1);
        assert PartitionFromPubkey(k, n) > n;
      }
    }
  }

  /** Up to 2^32 partitions, n + 1 sets are enough. */
  lemma {:induction false} SetsSufficeInPractice(n: nat)
    requires 0 < n <= 0x1_0000_0000
    ensures SetsSuffice(n)
  {
    WidthFits(n);
    var w := Width(n);
    MulMonotone(n, 0x1_0000_0000, n);
    assert n * w + n == (w + 1) * n;
    MulCancel(n, w + 1, n);
    assert n * w + w == (n + 1) * w;
  }

  // ---------- which partitions a slot scans ----------

  datatype Partition = Partition(start: nat, end: nat, count: nat)

  function EndIndexes(p: Partition): seq<nat> {
    if p.start == p.end == 0 then [0]
    else if p.start < p.end then seq(p.end - p.start, i requires i >= 0 => p.start + i + 1)
    else []
  }

  function AllEndIndexes(ps: seq<Partition>): seq<nat> {
    if ps == [] then [] else EndIndexes(ps[0]) + AllEndIndexes(ps[1..])
  }

  /** The numbers from `a` up to, not including, `b`. */
  ghost function UpTo(a: nat, b: nat): (r: seq<nat>)
    requires a <= b
    ensures |r| == b - a && forall i {:trigger r[i]} :: 0 <= i < |r| ==> r[i] == a + i
  {
    seq(b - a, i requires i >= 0 => a + i)
  }

  /**
   What a slot scans. Within a cycle, the indexes after that of the parent; in a later cycle, only the
   first index if the slot begins the cycle, else what was left of the cycle of the parent and what has
   come up of its own. The index of the slot itself is always among them.
   */
  method GetPartitions(slot: Slot, parent: Slot, n: nat) returns (partitions: seq<Partition>)
    requires n > 0
    ensures partitions == PartitionsOf(slot, parent, n)
    ensures forall p :: p in partitions ==> p.count == n
    ensures parent / n >= slot / n ==> partitions == [Partition(parent % n, slot % n, n)]
    ensures parent / n < slot / n && slot % n == 0 ==> partitions == [Partition(0, 0, n)]
    ensures parent / n < slot / n && slot % n > 0 ==>
              partitions == [Partition(parent % n, n - 1, n), Partition(0, 0, n), Partition(0, slot % n, n)]
    ensures parent < slot && parent / n == slot / n ==> AllEndIndexes(partitions) == UpTo(parent % n + 1, slot % n + 1)
    ensures parent < slot && parent / n < slot / n && slot % n == 0 ==> AllEndIndexes(partitions) == [0]
    ensures parent < slot && parent / n < slot / n && slot % n > 0 ==>
              AllEndIndexes(partitions) == UpTo(parent % n + 1, n) + UpTo(0, slot % n + 1)
    ensures parent < slot ==> slot % n in AllEndIndexes(partitions)
    ensures parent < slot ==> (AllEndIndexes(partitions) == Turns(parent, slot, n) <==> NoneSkipped(parent, slot, n))
  {
    var parentCycle, currentCycle := parent / n, slot / n;
    var parentIndex, currentIndex := parent % n, slot % n;
    partitions := [];
    if parentCycle < currentCycle {
      if currentIndex > 0 {
        partitions := partitions + [Partition(parentIndex, n - 1, n)];
        partitions := partitions + [Partition(0, 0, n)];
      }
      parentIndex := 0;
    }
    partitions := partitions + [Partition(parentIndex, currentIndex, n)];
    if parent < slot {
      ScannedIndexes(parent, slot, n);
      EndIndexesAreTurns(parent, slot, n);
    }
  }

  ghost function IndexesOf(parent: Slot, slot: Slot, n: nat): seq<nat>
    requires n > 0 && (parent / n == slot / n ==> parent % n <= slot % n)
  {
    if parent / n == slot / n then UpTo(parent % n + 1, slot % n + 1)
    else if slot % n == 0 then [0]
    else UpTo(parent % n + 1, n) + UpTo(0, slot % n + 1)
  }

  lemma {:induction false} ScannedIndexes(parent: Slot, slot: Slot, n: nat)
    requires n > 0 && parent < slot
    ensures parent / n <= slot / n && (parent / n == slot / n ==> parent % n < slot % n)
    ensures AllEndIndexes(PartitionsOf(slot, parent, n)) == IndexesOf(parent, slot, n)
    ensures slot % n in IndexesOf(parent, slot, n)
  {
    CyclesApart(parent, slot, n);
    var pi, ci := parent % n, slot % n;
    if parent / n == slot / n {
      assert AllEndIndexes([Partition(pi, ci, n)]) == EndIndexes(Partition(pi, ci, n)) == UpTo(pi + 1, ci + 1);
      assert UpTo(pi + 1, ci + 1)[ci - pi - 1] == ci;
    } else if ci == 0 {
      assert AllEndIndexes([Partition(0, 0, n)]) == [0];
    } else {
      LaterIndexes(pi, ci, n);
      assert UpTo(0, ci + 1)[ci] == ci;
    }
  }

  lemma {:induction false} LaterIndexes(pi: nat, ci: nat, n: nat)
    requires pi < n && 0 < ci < n
    ensures AllEndIndexes([Partition(pi, n - 1, n), Partition(0, 0, n), Partition(0, ci, n)])
         == UpTo(pi + 1, n) + UpTo(0, ci + 1)
  {
    ThreeParts(Partition(pi, n - 1, n), Partition(0, 0, n), Partition(0, ci, n));
    assert EndIndexes(Partition(pi, n - 1, n)) == UpTo(pi + 1, n);
    assert EndIndexes(Partition(0, 0, n)) + EndIndexes(Partition(0, ci, n)) == UpTo(0, ci + 1);
  }

  function PartitionsOf(slot: Slot, parent: Slot, n: nat): seq<Partition>
    requires n > 0
  {
    if parent / n >= slot / n then [Partition(parent % n, slot % n, n)]
    else if slot % n == 0 then [Partition(0, 0, n)]
    else [Partition(parent % n, n - 1, n), Partition(0, 0, n), Partition(0, slot % n, n)]
  }

  /** The partitions of the slots after `parent` up to `slot`, one for each. */
  ghost function Turns(parent: Slot, slot: Slot, n: nat): (t: seq<nat>)
    requires n > 0 && parent <= slot
    ensures |t| == slot - parent && forall i {:trigger t[i]} :: 0 <= i < |t| ==> t[i] == (parent + 1 + i) % n
  {
    seq(slot - parent, i requires i >= 0 => (parent + 1 + i) % n)
  }

  /** No whole cycle is skipped, and a cycle is not left early by a slot that starts the next one. */
  predicate NoneSkipped(parent: Slot, slot: Slot, n: nat)
    requires n > 0
  {
    parent / n == slot / n || (parent / n + 1 == slot / n && (slot % n > 0 || parent + 1 == slot))
  }

  lemma {:induction false} Modulo(x: nat, n: nat, q: nat, r: nat)
    requires n > 0 && x == q * n + r && r < n
    ensures x % n == r && x / n == q
  {
    Quotient(x, n, q);
    assert x == (x / n) * n + x % n;
  }

  /** The turns within one cycle. */
  lemma {:induction false} PartInCycle(q: nat, r: nat, e: nat, n: nat)
    requires n > 0 && r <= e < n && (r == e ==> r > 0)
    ensures EndIndexes(Partition(r, e, n)) == Turns(q * n + r, q * n + e, n)
  {
    var t := Turns(q * n + r, q * n + e, n);
    forall i | 0 <= i < |t| ensures t[i] == r + 1 + i {
      Modulo(q * n + r + 1 + i, n, q, r + 1 + i);
    }
  }

  lemma {:induction false} FirstOfCycle(q: nat, n: nat)
    requires n > 0 && q > 0
    ensures q * n > 0 && EndIndexes(Partition(0, 0, n)) == Turns(q * n - 1, q * n, n)
  {
    MulMonotone(1, q, n);
    Modulo(q * n, n, q, 0);
  }

  /** How far apart slots in different cycles are. */
  lemma {:induction false} CyclesApart(parent: Slot, slot: Slot, n: nat)
    requires n > 0 && parent < slot
    ensures parent == parent / n * n + parent % n && slot == slot / n * n + slot % n && parent / n <= slot / n
    ensures parent / n + 2 <= slot / n ==> slot - parent >= 2 * n + slot % n - parent % n
  {
    var pc, cc := parent / n, slot / n;
    MulCancel(pc, cc + 1, n);
    if pc + 2 <= cc { MulMonotone(pc + 2, cc, n); }
  }

  /** The scanned end indexes are those of the slots since the parent, in order, exactly if none is skipped. */
  lemma {:induction false} EndIndexesAreTurns(parent: Slot, slot: Slot, n: nat)
    requires n > 0 && parent < slot
    ensures AllEndIndexes(PartitionsOf(slot, parent, n)) == Turns(parent, slot, n) <==> NoneSkipped(parent, slot, n)
  {
    if NoneSkipped(parent, slot, n) {
      AllTurns(parent, slot, n);
    } else {
      CyclesApart(parent, slot, n);
      IndexCount(parent, slot, n);
    }
  }

  lemma {:induction false} AllTurns(parent: Slot, slot: Slot, n: nat)
    requires n > 0 && parent < slot && NoneSkipped(parent, slot, n)
    ensures AllEndIndexes(PartitionsOf(slot, parent, n)) == Turns(parent, slot, n)
  {
    CyclesApart(parent, slot, n);
    var pc, cc, ci := parent / n, slot / n, slot % n;
    if pc == cc {
      PartInCycle(pc, parent % n, ci, n);
      assert AllEndIndexes([Partition(parent % n, ci, n)]) == EndIndexes(Partition(parent % n, ci, n));
    } else if ci > 0 {
      NextCycle(parent, slot, n);
    } else {
      assert AllEndIndexes([Partition(0, 0, n)]) == EndIndexes(Partition(0, 0, n));
      FirstOfCycle(cc, n);
    }
  }

  lemma {:induction false} NextCycle(parent: Slot, slot: Slot, n: nat)
    requires n > 0 && parent < slot && parent / n + 1 == slot / n && slot % n > 0
    ensures AllEndIndexes(PartitionsOf(slot, parent, n)) == Turns(parent, slot, n)
  {
    CyclesApart(parent, slot, n);
    ThreeParts(Partition(parent % n, n - 1, n), Partition(0, 0, n), Partition(0, slot % n, n));
    AcrossCycles(parent / n, parent % n, slot % n, n);
  }

  /** The rest of one cycle, the start of the next, and some more of it. */
  lemma {:induction false} AcrossCycles(q: nat, r: nat, e: nat, n: nat)
    requires r < n && 0 < e < n
    ensures q * n + r <= (q + 1) * n + e
    ensures EndIndexes(Partition(r, n - 1, n)) + EndIndexes(Partition(0, 0, n)) + EndIndexes(Partition(0, e, n))
         == Turns(q * n + r, (q + 1) * n + e, n)
  {
    var start, next := q * n + r, (q + 1) * n;
    assert next == q * n + n;
    PartInCycle(q, r, n - 1, n);
    FirstOfCycle(q + 1, n);
    PartInCycle(q + 1, 0, e, n);
    TurnsJoin(start, next - 1, next, n);
    TurnsJoin(start, next, next + e, n);
  }

  lemma {:induction false} ThreeParts(p: Partition, q: Partition, r: Partition)
    ensures AllEndIndexes([p, q, r]) == EndIndexes(p) + EndIndexes(q) + EndIndexes(r)
  {
    assert [p, q, r][1..] == [q, r] && [q, r][1..] == [r] && [r][1..] == [];
    assert AllEndIndexes([r]) == EndIndexes(r);
  }

  /** Over a skipped cycle, or a jump to the start of a cycle, fewer indexes are scanned than slots passed. */
  lemma {:induction false} IndexCount(parent: Slot, slot: Slot, n: nat)
    requires n > 0 && parent / n < slot / n && parent + 1 < slot
    requires slot % n == 0 || slot - parent >= 2 * n + slot % n - parent % n
    ensures |AllEndIndexes(PartitionsOf(slot, parent, n))| < slot - parent
  {
    var pi, ci := parent % n, slot % n;
    if ci == 0 {
      assert AllEndIndexes([Partition(0, 0, n)]) == [0];
    } else {
      ThreeParts(Partition(pi, n - 1, n), Partition(0, 0, n), Partition(0, ci, n));
    }
  }

  /** From slot 0 straight to slot n, all partitions but the first are passed over. */
  lemma {:induction false} JumpSkips(n: nat, i: nat)
    requires 0 < i < n
    ensures i in Turns(0, n, n) && i !in AllEndIndexes(PartitionsOf(n, 0, n)) && !NoneSkipped(0, n, n)
  {
    Modulo(n, n, 1, 0);
    Modulo(i, n, 0, i);
    Modulo(0, n, 0, 0);
    assert Turns(0, n, n)[i - 1] == i;
    assert AllEndIndexes([Partition(0, 0, n)]) == [0];
  }

  // ---------- whole cycles ----------

  /** A fork: every slot after its parent, skipping none in the sense above. */
  ghost predicate Chain(slots: seq<Slot>, n: nat)
    requires n > 0
  {
    slots != [] && forall i, j :: 0 <= i < |slots| && j == i + 1 < |slots| ==>
                     slots[i] < slots[j] && NoneSkipped(slots[i], slots[j], n)
  }

  /** All partitions scanned along a fork. */
  function Scanned(slots: seq<Slot>, n: nat): seq<Partition>
    requires n > 0
  {
    if |slots| < 2 then []
    else Scanned(slots[..|slots| - 1], n) + PartitionsOf(slots[|slots| - 1], slots[|slots| - 2], n)
  }

  lemma {:induction false} AllEndIndexesAppend(a: seq<Partition>, b: seq<Partition>)
    ensures AllEndIndexes(a + b) == AllEndIndexes(a) + AllEndIndexes(b)
  {
    if a == [] {
      assert a + b == b;
    } else {
      assert (a + b)[1..] == a[1..] + b;
      AllEndIndexesAppend(a[1..], b);
    }
  }

  lemma {:induction false} ChainScansTurns(slots: seq<Slot>, n: nat)
    requires n > 0 && Chain(slots, n)
    ensures slots[0] <= slots[|slots| - 1]
    ensures AllEndIndexes(Scanned(slots, n)) == Turns(slots[0], slots[|slots| - 1], n)
  {
    if |slots| > 1 {
      var rest, k := slots[..|slots| - 1], |slots| - 1;
      ChainScansTurns(rest, n);
      EndIndexesAreTurns(slots[k - 1], slots[k], n);
      AllEndIndexesAppend(Scanned(rest, n), PartitionsOf(slots[k], slots[k - 1], n));
      TurnsJoin(slots[0], slots[k - 1], slots[k], n);
    }
  }

  lemma {:induction false} TurnsJoin(a: Slot, b: Slot, c: Slot, n: nat)
    requires n > 0 && a <= b <= c
    ensures Turns(a, c, n) == Turns(a, b, n) + Turns(b, c, n)
  {
    var x, y, z := Turns(a, b, n), Turns(b, c, n), Turns(a, c, n);
    forall i | 0 <= i < |z| ensures z[i] == (x + y)[i] {
      if i >= |x| { assert y[i - |x|] == (b + 1 + (i - |x|)) % n; }
    }
  }

  /** In n consecutive turns every partition comes up exactly once. */
  lemma {:induction false} FullTurn(a: Slot, n: nat, i: nat)
    requires i < n
    ensures multiset(Turns(a, a + n, n))[i] == 1
  {
    var t := Turns(a, a + n, n);
    var at := (i - a - 1) % n;
    TurnAt(a, n, i);
    forall j | 0 <= j < |t| && j != at ensures t[j] != i { TurnsDiffer(a, n, j, at); }
    Once(t, at, i);
  }

  lemma {:induction false} Once(s: seq<nat>, at: nat, x: nat)
    requires at < |s| && s[at] == x && forall j :: 0 <= j < |s| && j != at ==> s[j] != x
    ensures multiset(s)[x] == 1
  {
    var before, after := s[..at], s[at + 1..];
    assert s == before + [x] + after;
    assert x !in multiset(before) && x !in multiset(after);
  }

  lemma {:induction false} TurnAt(a: Slot, n: nat, i: nat)
    requires i < n
    ensures 0 <= (i - a - 1) % n < n && (a + 1 + (i - a - 1) % n) % n == i
  {
    var q, at := (i - a - 1) / n, (i - a - 1) % n;
    assert i - a - 1 == q * n + at;
    assert a + 1 + at == (-q) * n + i;
    assert (-q + 1) * n == (-q) * n + n;
    MulCancel(0, -q + 1, n);
    Modulo(a + 1 + at, n, -q, i);
  }

  lemma {:induction false} TurnsDiffer(a: Slot, n: nat, i: nat, j: nat)
    requires i < n && j < n && i != j
    ensures (a + 1 + i) % n != (a + 1 + j) % n
    decreases i > j
  {
    var p, q := (a + 1 + i) / n, (a + 1 + j) / n;
    if i > j {
      TurnsDiffer(a, n, j, i);
    } else if (a + 1 + i) % n == (a + 1 + j) % n {
      assert a + 1 + i - p * n == a + 1 + j - q * n && (q - p) * n == j - i;
      MulCancel(0, q - p, n);
      MulCancel(q - p, 1, n);
    }
  }

  // ---------- how often a key is scanned ----------

  /** A partition whose range is valid; a pair (i, i) with i != 0 only at the end of a cycle. */
  ghost predicate Scannable(p: Partition, n: nat) {
    p.count == n && p.start <= p.end < n <= PREFIX_MAX && (p.start == p.end ==> p.start == 0 || p.start == n - 1)
  }

  ghost predicate AllScannable(ps: seq<Partition>, n: nat) {
    forall i :: 0 <= i < |ps| ==> Scannable(ps[i], n)
  }

  ghost predicate Covers(p: Partition, k: Pubkey)
    requires p.start <= p.end < p.count <= PREFIX_MAX
  {
    In(k, PubkeyRangeFromPartition(p.start, p.end, p.count))
  }

  predicate Noop(p: Partition) {
    p.start == p.end != 0
  }

  ghost function ScanCount(ps: seq<Partition>, n: nat, k: Pubkey): nat
    requires AllScannable(ps, n)
  {
    if ps == [] then 0
    else
      assert Scannable(ps[0], n);
      (if Covers(ps[0], k) then 1 else 0) + ScanCount(ps[1..], n, k)
  }

  ghost function NoopCount(ps: seq<Partition>): nat {
    if ps == [] then 0 else (if Noop(ps[0]) then 1 else 0) + NoopCount(ps[1..])
  }

  lemma {:induction false} CoversIsIndex(p: Partition, n: nat, k: Pubkey)
    requires Scannable(p, n)
    ensures (if Covers(p, k) then 1 else 0)
         == multiset(EndIndexes(p))[TileOf(k, n)] + if Noop(p) && k == MAX_PUBKEY then 1 else 0
  {
    var e, tile := EndIndexes(p), TileOf(k, n);
    if Noop(p) {
      NoopRange(p.start, n, k);
    } else {
      RangeIsTiles(p.start, p.end, n, k);
      if Covers(p, k) {
        Once(e, if p.end == 0 then 0 else tile - p.start - 1, tile);
      } else {
        assert tile !in multiset(e);
      }
    }
  }

  /** Ranges scanned and end indexes visited agree, but for the last key in a pair meant to be empty. */
  lemma {:induction false} ScanCountIsIndexCount(ps: seq<Partition>, n: nat, k: Pubkey)
    requires 0 < n <= PREFIX_MAX && AllScannable(ps, n)
    ensures ScanCount(ps, n, k)
         == multiset(AllEndIndexes(ps))[TileOf(k, n)] + if k == MAX_PUBKEY then NoopCount(ps) else 0
  {
    if ps != [] {
      CoversIsIndex(ps[0], n, k);
      ScanCountIsIndexCount(ps[1..], n, k);
    }
  }

  lemma {:induction false} ScannedIsScannable(slots: seq<Slot>, n: nat)
    requires 0 < n <= PREFIX_MAX && Chain(slots, n)
    ensures AllScannable(Scanned(slots, n), n)
  {
    if |slots| > 1 {
      var k := |slots| - 1;
      ScannedIsScannable(slots[..k], n);
      CyclesApart(slots[k - 1], slots[k], n);
    }
  }

  /** Along a fork, n slots scan every key exactly once; only the largest key may be scanned again. */
  lemma {:induction false} FullCycle(slots: seq<Slot>, n: nat, k: Pubkey)
    requires 0 < n <= PREFIX_MAX && Chain(slots, n) && slots[|slots| - 1] == slots[0] + n
    ensures AllScannable(Scanned(slots, n), n)
    ensures ScanCount(Scanned(slots, n), n, k) == 1 + if k == MAX_PUBKEY then NoopCount(Scanned(slots, n)) else 0
  {
    ScannedIsScannable(slots, n);
    ChainScansTurns(slots, n);
    CycleScansOnce(Scanned(slots, n), slots[0], n, k);
  }

  /** Partitions whose end indexes are n consecutive turns. */
  lemma {:induction false} CycleScansOnce(ps: seq<Partition>, a: Slot, n: nat, k: Pubkey)
    requires 0 < n <= PREFIX_MAX && AllScannable(ps, n) && AllEndIndexes(ps) == Turns(a, a + n, n)
    ensures ScanCount(ps, n, k) == 1 + if k == MAX_PUBKEY then NoopCount(ps) else 0
  {
    FullTurn(a, n, TileOf(k, n));
    ScanCountIsIndexCount(ps, n, k);
  }

  // ---------- accounts by partition ----------

  datatype Panic = IndexOutOfBounds

  class RentPayingAccountsByPartition {
    var accounts: seq<set<Pubkey>>
    const n: nat

    ghost predicate Valid() reads this {
      && 0 < n <= PREFIX_MAX && |accounts| == n + 1
      && forall i, k :: 0 <= i < |accounts| && k in accounts[i] ==> PartitionFromPubkey(k, n) == i
    }

    /** All keys added so far. */
    ghost function Contents(): set<Pubkey>
      reads this
    {
      set i, k | 0 <= i < |accounts| && k in accounts[i] :: k
    }

    constructor (partitionCount: nat)
      requires 0 < partitionCount <= PREFIX_MAX
      ensures Valid() && n == partitionCount && Contents() == {}
    {
      n := partitionCount;
      accounts := seq(partitionCount + 1, i => {});
    }

    method AddAccount(pubkey: Pubkey) returns (r: Result<(), Panic>)
      requires Valid()
      modifies this
      ensures Valid() && (r.Err? <==> PartitionFromPubkey(pubkey, n) > n)
      ensures Contents() == old(Contents()) + if r.Ok? then {pubkey} else {}
    {
      var index := PartitionFromPubkey(pubkey, n);
      if index >= |accounts| {
        return Err(IndexOutOfBounds);
      }
      ghost var was := accounts;
      accounts := accounts[index := accounts[index] + {pubkey}];
      assert forall i, k :: 0 <= i < |accounts| ==> (k in accounts[i] <==> k in was[i] || (i == index && k == pubkey));
      return Ok(());
    }

    method GetPubkeysInPartitionIndex(index: nat) returns (keys: set<Pubkey>)
      requires Valid()
      ensures keys == set k | k in Contents() && PartitionFromPubkey(k, n) == index
    {
      keys := if index < |accounts| then accounts[index] else {};
    }
  }

  /** A key with a left-over prefix is filed under an index that no partition asks for. */
  lemma {:induction false} LeftoverIsNeverAskedFor(k: Pubkey, n: nat, p: Partition)
    requires 0 < n <= PREFIX_MAX && Scannable(p, n)
    requires n * Width(n) <= PrefixFromPubkey(k) < PREFIX_MAX
    ensures PartitionFromPubkey(k, n) !in EndIndexes(p) && TileOf(k, n) == n - 1
  {
    TileDivides(k, n);
    WidthFits(n);
    Quotient(PrefixFromPubkey(k), Width(n), n);
    InverseDivides(k, n);
  }

  /** With 432000 partitions, the slots of an epoch, there are such keys. */
  lemma {:induction false} LeftoverExists() returns (k: Pubkey)
    ensures var n := 432_000;
            && n * Width(n) <= PrefixFromPubkey(k) < PREFIX_MAX
            && PartitionFromPubkey(k, n) == n && TileOf(k, n) == n - 1
  {
    var n, w := 432_000, 42_700_796_466_920;
    assert Width(n) == w;
    k := Key(n * w, 0);
    InverseDivides(k, n);
    Quotient(n * w, w, n);
    TileDivides(k, n);
  }
}
