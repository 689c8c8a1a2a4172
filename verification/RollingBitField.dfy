/**
 The set of slots behind the alive roots and the ancestors: a window of consecutive slots kept as
 bits at their address modulo the width, and an excess set for members below the window.
 */
module RollingBitFields {
  import opened Common

  lemma {:induction false} SmallMultiple(d: int, width: nat)
    requires 0 <= d * width < width
    ensures d == 0
  {
  }

  lemma {:induction false} Difference(p: nat, q: nat, width: nat)
    ensures q * width - p * width == (q - p) * width
  {
  }

  lemma {:induction false} DistinctAddresses(a: nat, b: nat, width: nat)
    requires width > 0 && a <= b < a + width && a % width == b % width
    ensures a == b
  {
    var p, q := a / width, b / width;
    Difference(p, q, width);
    SmallMultiple(q - p, width);
  }

  class RollingBitField {
    const maxWidth: nat
    const bits: array<bool>
    var min: nat
    var maxExclusive: nat
    var count: nat
    var excess: set<nat>

    function Address(key: nat): (a: nat)
      requires maxWidth > 0
      ensures a < maxWidth
    {
      key % maxWidth
    }

    ghost function Window(): set<nat>
      requires maxWidth > 0 && bits.Length == maxWidth
      reads this`min, this`maxExclusive, bits
    {
      set k | min <= k < maxExclusive && bits[Address(k)]
    }

    ghost function Contents(): set<nat>
      requires maxWidth > 0 && bits.Length == maxWidth
      reads this, bits
    {
      excess + Window()
    }

    /** Address `a` belongs to a slot of the window. */
    ghost predicate Live(lo: nat, hi: nat, a: nat)
      requires maxWidth > 0
    {
      exists k :: lo <= k < hi && Address(k) == a
    }

    ghost predicate NoStaleBits()
      requires maxWidth > 0 && bits.Length == maxWidth
      reads this`min, this`maxExclusive, bits
    {
      forall a {:trigger Live(min, maxExclusive, a)} :: 0 <= a < maxWidth && bits[a] ==> Live(min, maxExclusive, a)
    }

    /** Everything but that `min` is the least member of the window; excess members stay below `limit`. */
    ghost predicate Loose(limit: nat)
      reads this, bits
    {
      && maxWidth > 0 && bits.Length == maxWidth
      && min <= maxExclusive <= min + maxWidth
      && (forall e :: e in excess ==> e <= min && e !in Window() && e + 1 < limit)
      && NoStaleBits()
      && count == |excess| + |Window()|
    }

    ghost predicate ValidBelow(limit: nat)
      reads this, bits
    {
      && Loose(limit)
      && (forall e :: e in excess ==> e < min)
      && if Window() == {} then min == maxExclusive else bits[Address(min)]
    }

    ghost predicate Valid()
      reads this, bits
    {
      ValidBelow(maxExclusive)
    }

    constructor (maxWidth: nat)
      requires maxWidth > 0
      ensures Valid() && Contents() == {} && fresh(bits) && this.maxWidth == maxWidth && maxExclusive == 0
    {
      this.maxWidth := maxWidth;
      bits := new bool[maxWidth](_ => false);
      min, maxExclusive, count, excess := 0, 0, 0, {};
      new;
      assert Window() == {};
    }

    function Contains(key: nat): (r: bool)
      requires maxWidth > 0 && bits.Length == maxWidth
      reads this, bits
      ensures Valid() ==> (r <==> key in Contents())
    {
      if key < maxExclusive then if key >= min then bits[Address(key)] else key in excess else false
    }

    function MaxInclusive(): (m: nat)
      reads this, bits
      ensures Valid() ==> forall k :: k in Contents() ==> k <= m
      ensures m == 0 || m + 1 == maxExclusive
      ensures maxExclusive > 0 ==> m + 1 == maxExclusive
    {
      if maxExclusive == 0 then 0 else maxExclusive - 1
    }

    predicate AllItemsInExcess()
      reads this`excess, this`count
    {
      |excess| == count
    }

    /** What a caller can observe agrees with the set `s`. */
    ghost predicate Represents(s: set<nat>)
      requires maxWidth > 0 && bits.Length == maxWidth
      reads this, bits
    {
      (forall k: nat :: Contains(k) <==> k in s) && count == |s|
    }

    /** The addresses of two slots of one window differ. */
    lemma {:induction false} Distinct(j: nat, k: nat)
      requires maxWidth > 0 && Address(j) == Address(k) && j < k + maxWidth && k < j + maxWidth
      ensures j == k
    {
      if j <= k { DistinctAddresses(j, k, maxWidth); } else { DistinctAddresses(k, j, maxWidth); }
    }

    /** Clears the bit of a member of the window. */
    method ClearBit(key: nat)
      requires maxWidth > 0 && bits.Length == maxWidth && maxExclusive <= min + maxWidth && key in Window()
      modifies bits
      ensures Window() == old(Window()) - {key}
      ensures forall a :: 0 <= a < maxWidth && bits[a] ==> old(bits[a]) && a != Address(key)
    {
      ghost var before := Window();
      bits[Address(key)] := false;
      forall k | min <= k < maxExclusive ensures k in Window() <==> k in before - {key} {
        if Address(k) == Address(key) { Distinct(k, key); }
      }
    }

    /** The first slot from `start` on whose bit is set, or the end of the window. */
    method FirstSet(start: nat) returns (k: nat)
      requires maxWidth > 0 && bits.Length == maxWidth && start <= maxExclusive
      ensures start <= k <= maxExclusive && (k < maxExclusive ==> bits[Address(k)])
      ensures forall j :: start <= j < k ==> !bits[Address(j)]
    {
      k := start;
      while k < maxExclusive
        invariant start <= k <= maxExclusive && forall j :: start <= j < k ==> !bits[Address(j)]
      {
        if bits[Address(k)] { return; }
        k := k + 1;
      }
    }

    /** A higher `min` that skips no member leaves the window as it is. */
    lemma {:induction false} RaiseMin(m: nat, limit: nat)
      requires Loose(limit) && min <= m <= maxExclusive && forall k :: k in Window() ==> m <= k
      ensures Window() == set k | m <= k < maxExclusive && bits[Address(k)]
      ensures forall a {:trigger Live(m, maxExclusive, a)} :: 0 <= a < maxWidth && bits[a] ==> Live(m, maxExclusive, a)
    {
      forall a | 0 <= a < maxWidth && bits[a] ensures Live(m, maxExclusive, a) {
        assert Live(min, maxExclusive, a);
        var k :| min <= k < maxExclusive && Address(k) == a;
        assert k in Window();
      }
    }

    method SetMin(m: nat, ghost limit: nat)
      requires Loose(limit) && min <= m <= maxExclusive && forall k :: k in Window() ==> m <= k
      modifies this`min
      ensures min == m && Loose(limit) && Window() == old(Window())
    {
      RaiseMin(m, limit);
      ghost var window := Window();
      min := m;
      assert Window() == window;
    }

    /** Makes `min` right again after `key` has left the window. */
    method Purge(key: nat, ghost limit: nat)
      requires Loose(limit) && key !in Window()
      requires key != min ==> (forall e :: e in excess ==> e < min) && (Window() != {} ==> bits[Address(min)])
      requires key == min ==> min < maxExclusive
      modifies this`min
      ensures ValidBelow(limit) && Window() == old(Window()) && min >= old(min)
    {
      if count > 0 && !AllItemsInExcess() {
        assert Window() != {};
        if key == min {
          var k := FirstSet(min + 1);
          assert forall j :: j in Window() ==> k <= j;
          SetMin(k, limit);
          assert min < maxExclusive;
        }
      } else {
        assert Window() == {};
        SetMin(maxExclusive, limit);
      }
    }

    /** Moves the least member of the window to the excess set. */
    method MoveMinToExcess(ghost limit: nat)
      requires ValidBelow(limit) && Window() != {} && min + 1 < limit
      modifies this`min, this`excess, bits
      ensures ValidBelow(limit) && Contents() == old(Contents()) && min > old(min)
    {
      ghost var window, all := Window(), Contents();
      excess := excess + {min};
      var key := min;
      assert key in Window();
      ClearBit(key);
      assert NoStaleBits() by { Unstale(key, old(bits[..])); }
      assert window == Window() + {key};
      Purge(key, limit);
    }

    /** No bit is stale after the bit of `key` is cleared, if none was before. */
    lemma {:induction false} Unstale(key: nat, before: seq<bool>)
      requires maxWidth > 0 && bits.Length == maxWidth == |before|
      requires forall a {:trigger Live(min, maxExclusive, a)} :: 0 <= a < maxWidth && before[a] ==>
               Live(min, maxExclusive, a)
      requires forall a :: 0 <= a < maxWidth && bits[a] ==> before[a]
      ensures NoStaleBits()
    {
    }

    /** Shifts the window up until it can hold `newMax - 1`, or is empty. */
    method MakeRoom(newMax: nat)
      requires ValidBelow(newMax) && Window() != {} && maxExclusive < newMax
      modifies this`min, this`excess, bits
      ensures ValidBelow(newMax) && Contents() == old(Contents())
      ensures Window() == {} || newMax <= min + maxWidth
    {
      while newMax - min > maxWidth
        invariant ValidBelow(newMax) && Contents() == old(Contents()) && Window() != {}
        decreases newMax - min
      {
        MoveMinToExcess(newMax);
        if AllItemsInExcess() { break; }
      }
    }

    /** A set bit at the address of a slot that fits the window is the slot's own. */
    lemma {:induction false} OwnBit(key: nat, limit: nat)
      requires Loose(limit) && min <= key < min + maxWidth && bits[Address(key)]
      ensures key in Window()
    {
      assert Live(min, maxExclusive, Address(key));
      var k :| min <= k < maxExclusive && Address(k) == Address(key);
      Distinct(k, key);
    }

    /** Sets the bit of `key` in a window that has room for it. */
    method SetBit(key: nat)
      requires maxWidth > 0 && bits.Length == maxWidth && maxExclusive <= min + maxWidth && NoStaleBits()
      requires min <= key < min + maxWidth && !bits[Address(key)]
      modifies this`maxExclusive, bits
      ensures maxExclusive == (if key < old(maxExclusive) then old(maxExclusive) else key + 1)
      ensures Window() == old(Window()) + {key} && NoStaleBits()
      ensures forall a :: 0 <= a < maxWidth ==> bits[a] == (old(bits[a]) || a == Address(key))
    {
      ghost var window, max := Window(), maxExclusive;
      bits[Address(key)] := true;
      maxExclusive := if maxExclusive < key + 1 then key + 1 else maxExclusive;
      forall k | min <= k < maxExclusive ensures k in Window() <==> k in window + {key} {
        if Address(k) == Address(key) {
          Distinct(k, key);
        } else if k >= max && bits[Address(k)] {
          assert Live(min, max, Address(k));
          var j :| min <= j < max && Address(j) == Address(k);
          Distinct(j, k);
        }
      }
      forall a | 0 <= a < maxWidth && bits[a] ensures Live(min, maxExclusive, a) {
        if a == Address(key) {
          assert min <= key < maxExclusive;
        } else {
          assert Live(min, max, a);
        }
      }
    }

    /** The condition under which an insertion is remembered as a set would. */
    ghost predicate Safe(key: nat)
      requires maxWidth > 0 && bits.Length == maxWidth
      reads this, bits
    {
      Window() == {} ==> forall e :: e in excess ==> e < key
    }

    /** Restarts the window at `key`. */
    method InsertIntoEmpty(key: nat, ghost limit: nat)
      requires ValidBelow(limit) && Window() == {}
      modifies this`min, this`maxExclusive, this`count, bits
      ensures maxWidth > 0 && bits.Length == maxWidth && Window() == {key} && NoStaleBits()
      ensures min == key && maxExclusive == key + 1 && bits[Address(key)] && count == old(count) + 1
    {
      forall a | 0 <= a < maxWidth ensures !bits[a] { assert !Live(min, maxExclusive, a); }
      bits[Address(key)] := true;
      min, maxExclusive, count := key, key + 1, count + 1;
      assert Window() == {key};
      assert NoStaleBits() by {
        assert min <= key < maxExclusive;
      }
    }

    /** The members of a valid field are counted once and found. */
    lemma {:induction false} ValidRepresents()
      requires Valid()
      ensures Represents(Contents())
    {
      forall k: nat ensures Contains(k) <==> k in Contents() { }
    }

    /** A window restarted at or below an excess member loses that member or counts it twice. */
    lemma {:induction false} UnsafeForgets(all: set<nat>, e: nat)
      requires maxWidth > 0 && bits.Length == maxWidth && maxExclusive == min + 1
      requires e in all && all == excess && e >= min && count == |all| + 1
      ensures !Represents(all + {min})
    {
      if e == min {
        assert all + {min} == all;
      } else {
        assert !Contains(e);
      }
    }

    method InsertBelowWindow(key: nat)
      requires Valid() && Window() != {} && key < min
      modifies this`excess, this`count
      ensures Valid() && Contents() == old(Contents()) + {key}
    {
      if key !in excess {
        excess := excess + {key};
        count := count + 1;
      }
    }

    method InsertInsideWindow(key: nat, ghost limit: nat)
      requires ValidBelow(limit) && Window() != {} && min <= key < min + maxWidth
      requires limit <= maxExclusive || limit == key + 1
      modifies this`maxExclusive, this`count, bits
      ensures Valid() && Contents() == old(Contents()) + {key}
      ensures maxExclusive == (if key < old(maxExclusive) then old(maxExclusive) else key + 1)
    {
      if !bits[Address(key)] {
        ghost var window := Window();
        assert key !in window && min < maxExclusive;
        SetBit(key);
        count := count + 1;
        assert |Window()| == |window| + 1;
        assert forall e :: e in excess ==> e < min <= key && e !in window;
      } else {
        OwnBit(key, limit);
      }
    }

    /** Inserts into a field whose window is not empty. */
    method InsertIntoWindow(key: nat)
      requires Valid() && Window() != {}
      modifies this, bits
      ensures Valid() && Contents() == old(Contents()) + {key}
      ensures maxExclusive == (if key < old(maxExclusive) then old(maxExclusive) else key + 1)
    {
      if key < min {
        InsertBelowWindow(key);
      } else if key < maxExclusive {
        InsertInsideWindow(key, maxExclusive);
      } else {
        MakeRoom(key + 1);
        if AllItemsInExcess() {
          InsertIntoEmpty(key, key + 1);
        } else {
          InsertInsideWindow(key, key + 1);
        }
      }
    }

    method Insert(key: nat)
      requires Valid()
      modifies this, bits
      ensures old(Safe(key)) ==> Valid() && Contents() == old(Contents()) + {key}
      ensures maxWidth > 0 && bits.Length == maxWidth
      ensures Represents(old(Contents()) + {key}) <==> old(Safe(key))
      ensures old(MaxInclusive()) <= key ==> MaxInclusive() == key
    {
      ghost var all, safe := Contents(), Safe(key);
      if count == 0 || AllItemsInExcess() {
        InsertIntoEmpty(key, maxExclusive);
        if !safe {
          var e :| e in excess && e >= key;
          UnsafeForgets(all, e);
        }
      } else {
        InsertIntoWindow(key);
      }
      if safe { ValidRepresents(); }
    }

    method RemoveFromWindow(key: nat)
      requires Valid() && key in Window()
      modifies this`min, this`count, bits
      ensures Valid() && Contents() == old(Contents()) - {key}
    {
      ghost var window := Window();
      count := count - 1;
      ClearBit(key);
      Unstale(key, old(bits[..]));
      assert window == Window() + {key};
      if key != min {
        assert min in window;
        assert min in Window();
      }
      Purge(key, maxExclusive);
      assert key !in excess;
    }

    method RemoveFromExcess(key: nat)
      requires Valid() && key in excess
      modifies this`excess, this`count
      ensures Valid() && Contents() == old(Contents()) - {key}
    {
      ghost var before, window := excess, Window();
      assert key !in window;
      excess := excess - {key};
      count := count - 1;
      assert before == excess + {key};
      assert Window() == window;
    }

    /** Removes `key` and says whether it was there. The maximum is kept. */
    method Remove(key: nat) returns (removed: bool)
      requires Valid()
      modifies this, bits
      ensures Valid() && Contents() == old(Contents()) - {key}
      ensures removed <==> key in old(Contents())
      ensures maxExclusive == old(maxExclusive)
    {
      if key >= min {
        if key < maxExclusive {
          removed := bits[Address(key)];
          if removed { RemoveFromWindow(key); }
        } else {
          removed := false;
        }
      } else {
        removed := key in excess;
        if removed { RemoveFromExcess(key); }
      }
    }

    method GetAll() returns (all: set<nat>)
      requires maxWidth > 0 && bits.Length == maxWidth
      ensures all == Contents()
    {
      var window := {};
      for k := Min(min, maxExclusive) to maxExclusive
        invariant window == set j | j in Window() && j < k
      {
        if bits[Address(k)] { window := window + {k}; }
      }
      all := excess + window;
    }

    /** A slot not below the greatest slot ever inserted is always safe: the order in which roots are added. */
    lemma {:induction false} AppendingIsSafe(key: nat)
      requires Valid() && key >= MaxInclusive()
      ensures Safe(key)
    {
    }
  }

  /** An unsafe insertion: with width 1, after 5 and 7 came and 7 went, inserting 3 makes the field forget 5. */
  method UnsafeInsertion() returns (field: RollingBitField)
    ensures field.maxWidth > 0 && field.bits.Length == field.maxWidth && !field.Represents({3, 5})
  {
    field := new RollingBitField(1);
    field.AppendingIsSafe(5);
    field.Insert(5);
    field.AppendingIsSafe(7);
    field.Insert(7);
    var removed := field.Remove(7);
    assert field.Contents() == {5} && 5 in field.excess;
    field.Insert(3);
    assert {5} + {3} == {3, 5};
  }
}
