/**
 Replacing the storage of a slot while others read it. A shrink registers the new store in a second
 map, later puts it in place of the old one in the main map, and then removes it from the second map.
 A reader looks in the main map, in the second map, and in the main map again. All these are separate
 atomic steps of a shared state; what holds is proved over every interleaving.
 */
module ShrinkHandover {
  import opened Common

  datatype Store = Store(id: nat, accounts: nat)

  // ---------- the two maps ----------

  datatype Panic = ShrinkInProgress | SlotOccupied | NoStorage | DuplicateCall | WrongStorage | NotShrinking

  function Find(m: map<Slot, Store>, slot: Slot, id: nat): (r: Option<Store>)
    ensures r.Some? ==> slot in m && m[slot] == r.value && r.value.id == id
  {
    if slot in m && m[slot].id == id then Some(m[slot]) else None
  }

  // ---------- interleaved steps ----------

  datatype Phase = Looked | Registered | Swapped

  /**
   A shrink under way. `removed` records that its slot was removed since it looked up the old store,
   `replaced` that another shrink has put its own new store there.
   */
  datatype Shrink = Shrink(slot: Slot, oldStore: Store, newStore: Store, phase: Phase, removed: bool, replaced: bool)

  datatype Look = First | Second | Third | Done(result: Option<Store>)

  /**
   A lookup under way. `stable` records that the store was there when the lookup began and that
   since then its slot was not removed nor the store replaced by another shrink.
   */
  datatype Reader = Reader(slot: Slot, id: nat, look: Look, stable: bool)

  /** An insertion that has found no shrink in progress and has yet to write. */
  datatype Insertion = Insertion(slot: Slot, store: Store)

  datatype State = State(
    stores: map<Slot, Store>,
    shrinking: map<Slot, Store>,
    inserts: map<nat, Insertion>,
    shrinks: map<nat, Shrink>,
    readers: map<nat, Reader>,
    usedIds: set<nat>)

  datatype Step =
    | CheckStep(t: nat, slot: Slot, store: Store)
    | InsertStep(t: nat)
    | RemoveStep(slot: Slot)
    | LookStep(t: nat, slot: Slot, newStore: Store)
    | RegisterStep(t: nat)
    | SwapStep(t: nat)
    | FinishStep(t: nat)
    | ReadStep(r: nat, slot: Slot, id: nat)
    | LookupStep(r: nat)

  /** The shrink has registered its new store for the slot. */
  ghost predicate Holds(s: State, t: nat, slot: Slot) {
    t in s.shrinks && s.shrinks[t].slot == slot && !s.shrinks[t].phase.Looked?
  }

  /** The store can be found and no removal of its slot is pending. */
  ghost predicate Available(s: State, slot: Slot, id: nat) {
    || Find(s.stores, slot, id).Some?
    || (Find(s.shrinking, slot, id).Some? && forall t :: Holds(s, t, slot) ==> !s.shrinks[t].removed)
  }

  /** Whether the step may be taken: the source's assertions, and unique store ids. */
  ghost predicate Enabled(s: State, step: Step) {
    match step
    case CheckStep(t, slot, store) => t !in s.inserts && s.shrinking == map[] && store.id !in s.usedIds
    case InsertStep(t) => t in s.inserts && s.inserts[t].slot !in s.stores
    case RemoveStep(slot) => true
    case LookStep(t, slot, newStore) => t !in s.shrinks && slot in s.stores && newStore.id !in s.usedIds
    case RegisterStep(t) => t in s.shrinks && s.shrinks[t].phase.Looked? && s.shrinks[t].slot !in s.shrinking
    case SwapStep(t) => t in s.shrinks && s.shrinks[t].phase.Registered? && ReplacesOld(s, t)
    case FinishStep(t) => t in s.shrinks && s.shrinks[t].phase.Swapped?
    case ReadStep(r, slot, id) => r !in s.readers
    case LookupStep(r) => r in s.readers && !s.readers[r].look.Done?
  }

  /** The assertion when a shrink is dropped: it replaces the store it looked up. */
  ghost predicate ReplacesOld(s: State, t: nat)
    requires t in s.shrinks
  {
    Find(s.stores, s.shrinks[t].slot, s.shrinks[t].oldStore.id).Some?
  }

  function AfterRemoval(shrinks: map<nat, Shrink>, slot: Slot): map<nat, Shrink> {
    map t | t in shrinks :: if shrinks[t].slot == slot then shrinks[t].(removed := true) else shrinks[t]
  }

  function AfterSwap(shrinks: map<nat, Shrink>, t: nat): map<nat, Shrink>
    requires t in shrinks
  {
    map u | u in shrinks ::
      if u == t then shrinks[u].(phase := Swapped)
      else if shrinks[u].slot == shrinks[t].slot then shrinks[u].(replaced := true)
      else shrinks[u]
  }

  /** Lookups for which the slot now holds another store, or none. */
  function Disturbed(readers: map<nat, Reader>, slot: Slot, current: Option<nat>): map<nat, Reader> {
    map r | r in readers ::
      if readers[r].slot == slot && current != Some(readers[r].id) then readers[r].(stable := false) else readers[r]
  }

  ghost function LookedUp(s: State, reader: Reader): Look
    requires !reader.look.Done?
  {
    var found := Find(if reader.look.Second? then s.shrinking else s.stores, reader.slot, reader.id);
    match reader.look
    case First => if found.Some? then Done(found) else Second
    case Second => if found.Some? then Done(found) else Third
    case Third => Done(found)
  }

  ghost function Next(s: State, step: Step): State
    requires Enabled(s, step)
  {
    match step
    case CheckStep(t, slot, store) =>
      s.(inserts := s.inserts[t := Insertion(slot, store)], usedIds := s.usedIds + {store.id})
    case InsertStep(t) => s.(stores := s.stores[s.inserts[t].slot := s.inserts[t].store], inserts := s.inserts - {t})
    case RemoveStep(slot) =>
      s.(stores := s.stores - {slot}, shrinks := AfterRemoval(s.shrinks, slot),
         readers := Disturbed(s.readers, slot, None))
    case LookStep(t, slot, newStore) =>
      s.(shrinks := s.shrinks[t := Shrink(slot, s.stores[slot], newStore, Looked, false, false)],
         usedIds := s.usedIds + {newStore.id})
    case RegisterStep(t) =>
      var k := s.shrinks[t];
      s.(shrinking := s.shrinking[k.slot := k.newStore], shrinks := s.shrinks[t := k.(phase := Registered)])
    case SwapStep(t) =>
      var k := s.shrinks[t];
      s.(stores := s.stores[k.slot := k.newStore], shrinks := AfterSwap(s.shrinks, t),
         readers := Disturbed(s.readers, k.slot, Some(k.newStore.id)))
    case FinishStep(t) =>
      s.(shrinking := s.shrinking - {s.shrinks[t].slot}, shrinks := s.shrinks - {t})
    case ReadStep(r, slot, id) =>
      s.(readers := s.readers[r := Reader(slot, id, First, Available(s, slot, id))])
    case LookupStep(r) =>
      s.(readers := s.readers[r := s.readers[r].(look := LookedUp(s, s.readers[r]))])
  }

  ghost predicate TwoSteps(s: State, first: Step, second: Step) {
    Enabled(s, first) && Enabled(Next(s, first), second)
  }

  ghost function After(s: State, first: Step, second: Step): State
    requires TwoSteps(s, first, second)
  {
    Next(Next(s, first), second)
  }

  // ---------- the invariant ----------

  ghost predicate ShrinkOk(s: State, t: nat)
    requires t in s.shrinks
  {
    var k := s.shrinks[t];
    && (!k.phase.Looked? ==> k.slot in s.shrinking && s.shrinking[k.slot] == k.newStore)
    && (k.phase.Swapped? && !k.removed ==> k.slot in s.stores && s.stores[k.slot] == k.newStore)
    && (!k.removed ==> k.slot in s.stores)
    && (!k.phase.Swapped? ==> (ReplacesOld(s, t) <==> !k.removed && !k.replaced))
  }

  /** The new store of a shrink that has not put it in place is known nowhere else. */
  ghost predicate NewOk(s: State, t: nat)
    requires t in s.shrinks
  {
    var k := s.shrinks[t];
    && k.oldStore.id in s.usedIds && k.newStore.id in s.usedIds
    && (forall u :: u in s.shrinks && s.shrinks[u].newStore.id == k.newStore.id ==> u == t)
    && (!k.phase.Swapped? ==>
          && (forall slot :: slot in s.stores ==> s.stores[slot].id != k.newStore.id)
          && (forall u :: u in s.shrinks ==> s.shrinks[u].oldStore.id != k.newStore.id))
  }

  ghost predicate ReaderOk(s: State, r: nat)
    requires r in s.readers
  {
    var reader := s.readers[r];
    && (reader.stable && !reader.look.Done? ==> Available(s, reader.slot, reader.id))
    && (reader.stable && reader.look.Third? ==> Find(s.stores, reader.slot, reader.id).Some?)
    && (reader.stable && reader.look.Done? ==> reader.look.result.Some?)
    && (reader.look.Done? && reader.look.result.Some? ==> reader.look.result.value.id == reader.id)
  }

  /** The store of a pending insertion is known nowhere else. */
  ghost predicate InsertOk(s: State, t: nat)
    requires t in s.inserts
  {
    var id := s.inserts[t].store.id;
    && id in s.usedIds && (forall slot :: slot in s.stores ==> s.stores[slot].id != id)
    && (forall u :: u in s.shrinks ==> s.shrinks[u].oldStore.id != id && s.shrinks[u].newStore.id != id)
    && (forall u :: u in s.inserts && s.inserts[u].store.id == id ==> u == t)
  }

  /** One shrink of a slot is registered at a time. */
  ghost predicate OneEach(s: State) {
    forall t, u, slot :: Holds(s, t, slot) && Holds(s, u, slot) ==> t == u
  }

  /** Every registered store belongs to a shrink under way. */
  ghost predicate Owned(s: State, slot: Slot) {
    exists t :: Holds(s, t, slot)
  }

  ghost predicate Inv(s: State) {
    && OneEach(s)
    && (forall slot :: slot in s.stores ==> s.stores[slot].id in s.usedIds)
    && (forall slot :: slot in s.shrinking ==> Owned(s, slot))
    && (forall t {:trigger InsertOk(s, t)} :: t in s.inserts ==> InsertOk(s, t))
    && (forall t {:trigger ShrinkOk(s, t)} :: t in s.shrinks ==> ShrinkOk(s, t))
    && (forall t {:trigger NewOk(s, t)} :: t in s.shrinks ==> NewOk(s, t))
    && (forall r {:trigger ReaderOk(s, r)} :: r in s.readers ==> ReaderOk(s, r))
  }

  ghost predicate Init(s: State) {
    && s.shrinking == map[] && s.inserts == map[] && s.shrinks == map[] && s.readers == map[]
    && forall slot :: slot in s.stores ==> s.stores[slot].id in s.usedIds
  }

  lemma {:induction false} InitInv(s: State)
    requires Init(s)
    ensures Inv(s)
  {
  }

  lemma {:induction false} NextKeeps(s: State, step: Step)
    requires Inv(s) && Enabled(s, step)
    ensures Inv(Next(s, step))
  {
    var s' := Next(s, step);
    MapsKept(s, step);
    forall t | t in s'.inserts ensures InsertOk(s', t) { InsertKept(s, step, t); }
    forall t | t in s'.shrinks ensures ShrinkOk(s', t) && NewOk(s', t) {
      ShrinkKept(s, step, t);
      NewKept(s, step, t);
    }
    forall r | r in s'.readers ensures ReaderOk(s', r) { ReaderKept(s, step, r); }
    forall slot | slot in s'.shrinking ensures Owned(s', slot) { OwnedKept(s, step, slot); }
  }

  lemma {:induction false} MapsKept(s: State, step: Step)
    requires Inv(s) && Enabled(s, step)
    ensures OneEach(Next(s, step))
    ensures forall slot :: slot in Next(s, step).stores ==> Next(s, step).stores[slot].id in Next(s, step).usedIds
  {
    if step.SwapStep? { assert NewOk(s, step.t); }
    if step.InsertStep? { assert InsertOk(s, step.t); }
    OneEachKept(s, step);
  }

  lemma {:induction false} OneEachKept(s: State, step: Step)
    requires Inv(s) && Enabled(s, step)
    ensures OneEach(Next(s, step))
  {
    var s' := Next(s, step);
    forall t, slot | Holds(s', t, slot) ensures Holds(s, t, slot) || step == RegisterStep(t) { }
    forall t, slot | Holds(s, t, slot) ensures slot in s.shrinking { assert ShrinkOk(s, t); }
  }

  lemma {:induction false} InsertKept(s: State, step: Step, t: nat)
    requires Inv(s) && Enabled(s, step) && t in Next(s, step).inserts
    ensures InsertOk(Next(s, step), t)
  {
    if t in s.inserts { assert InsertOk(s, t); }
    if step.CheckStep? {
      forall u | u in s.inserts ensures s.inserts[u].store.id in s.usedIds { assert InsertOk(s, u); }
      forall u | u in s.shrinks ensures s.shrinks[u].oldStore.id in s.usedIds && s.shrinks[u].newStore.id in s.usedIds {
        assert NewOk(s, u);
      }
    }
  }

  lemma {:induction false} NewKept(s: State, step: Step, t: nat)
    requires Inv(s) && Enabled(s, step) && t in Next(s, step).shrinks
    ensures NewOk(Next(s, step), t)
  {
    if step.InsertStep? { assert InsertOk(s, step.t); }
    if t in s.shrinks { assert NewOk(s, t); }
    if step.LookStep? {
      forall u | u in s.shrinks ensures s.shrinks[u].oldStore.id in s.usedIds && s.shrinks[u].newStore.id in s.usedIds {
        assert NewOk(s, u);
      }
    }
  }

  lemma {:induction false} ShrinkKept(s: State, step: Step, t: nat)
    requires Inv(s) && Enabled(s, step) && t in Next(s, step).shrinks
    ensures ShrinkOk(Next(s, step), t)
  {
    if step.InsertStep? { assert InsertOk(s, step.t); }
    if t in s.shrinks { assert ShrinkOk(s, t); }
    if step.SwapStep? || step.FinishStep? || step.RegisterStep? {
      assert ShrinkOk(s, step.t) && NewOk(s, step.t);
      assert Holds(s, step.t, s.shrinks[step.t].slot) || step.RegisterStep?;
    }
    if t in s.shrinks && !s.shrinks[t].phase.Looked? { assert Holds(s, t, s.shrinks[t].slot); }
  }

  /** A store that can be found, with no removal pending, is at a slot that is taken. */
  lemma {:induction false} SlotIsTaken(s: State, slot: Slot, id: nat)
    requires Inv(s)
    ensures Available(s, slot, id) ==> slot in s.stores
  {
    if Find(s.shrinking, slot, id).Some? {
      assert Owned(s, slot);
      var t :| Holds(s, t, slot);
      assert ShrinkOk(s, t);
    }
  }

  lemma {:induction false} ReaderKept(s: State, step: Step, r: nat)
    requires Inv(s) && Enabled(s, step) && r in Next(s, step).readers
    ensures ReaderOk(Next(s, step), r)
  {
    if r in s.readers {
      assert ReaderOk(s, r);
      if step.InsertStep? { SlotIsTaken(s, s.readers[r].slot, s.readers[r].id); }
    }
    if step.SwapStep? || step.FinishStep? || step.RegisterStep? { assert ShrinkOk(s, step.t); }
  }

  lemma {:induction false} OwnedKept(s: State, step: Step, slot: Slot)
    requires Inv(s) && Enabled(s, step) && slot in Next(s, step).shrinking
    ensures Owned(Next(s, step), slot)
  {
    var s' := Next(s, step);
    if step.RegisterStep? && s.shrinks[step.t].slot == slot {
      assert Holds(s', step.t, slot);
    } else {
      var t :| Holds(s, t, slot);
      if step.FinishStep? { assert Holds(s, step.t, s.shrinks[step.t].slot); }
      assert Holds(s', t, slot);
    }
  }

  // ---------- runs ----------

  ghost predicate StepAt(states: seq<State>, steps: seq<Step>, i: int)
    requires 0 <= i < |steps| && |states| == |steps| + 1
  {
    Enabled(states[i], steps[i]) && states[i + 1] == Next(states[i], steps[i])
  }

  ghost predicate Run(states: seq<State>, steps: seq<Step>) {
    && |states| == |steps| + 1
    && forall i {:trigger StepAt(states, steps, i)} :: 0 <= i < |steps| ==> StepAt(states, steps, i)
  }

  lemma {:induction false} RunInv(states: seq<State>, steps: seq<Step>, i: nat)
    requires Run(states, steps) && Inv(states[0]) && i <= |steps|
    ensures Inv(states[i])
  {
    if i > 0 {
      RunInv(states, steps, i - 1);
      assert StepAt(states, steps, i - 1);
      NextKeeps(states[i - 1], steps[i - 1]);
    }
  }

  /** The step does not remove the slot, nor put another store than `id` into it. */
  ghost predicate Keeps(s: State, step: Step, slot: Slot, id: nat)
    requires Enabled(s, step)
  {
    && (step.RemoveStep? ==> step.slot != slot)
    && (step.SwapStep? && s.shrinks[step.t].slot == slot ==> s.shrinks[step.t].newStore.id == id)
  }

  lemma {:induction false} StaysStable(states: seq<State>, steps: seq<Step>, r: nat, slot: Slot, id: nat, i: nat)
    requires Run(states, steps) && Inv(states[0]) && 0 < i <= |steps|
    requires steps[0] == ReadStep(r, slot, id) && Available(states[0], slot, id)
    requires forall j :: 0 <= j < i ==> StepAt(states, steps, j) && Keeps(states[j], steps[j], slot, id)
    ensures Stable(states[i], r, slot, id)
  {
    assert StepAt(states, steps, i - 1);
    if i > 1 {
      StaysStable(states, steps, r, slot, id, i - 1);
      StableStep(states[i - 1], steps[i - 1], r, slot, id);
    }
  }

  ghost predicate Stable(s: State, r: nat, slot: Slot, id: nat) {
    r in s.readers && s.readers[r].slot == slot && s.readers[r].id == id && s.readers[r].stable
  }

  lemma {:induction false} StableStep(s: State, step: Step, r: nat, slot: Slot, id: nat)
    requires Enabled(s, step) && Keeps(s, step, slot, id) && Stable(s, r, slot, id)
    ensures Stable(Next(s, step), r, slot, id)
  {
  }

  /**
   A lookup that begins once the store is registered, or in place, finds it: however the three lookups
   are interleaved with the rest, unless the slot is removed or the store itself replaced meanwhile.
   */
  lemma {:induction false} LookupFinds(states: seq<State>, steps: seq<Step>, r: nat, slot: Slot, id: nat)
    requires Run(states, steps) && Inv(states[0]) && |steps| > 0
    requires steps[0] == ReadStep(r, slot, id) && Available(states[0], slot, id)
    requires forall j :: 0 <= j < |steps| ==> StepAt(states, steps, j) && Keeps(states[j], steps[j], slot, id)
    ensures var last := states[|steps|];
            && r in last.readers
            && (last.readers[r].look.Done? ==>
                  last.readers[r].look.result.Some? && last.readers[r].look.result.value.id == id)
  {
    StaysStable(states, steps, r, slot, id, |steps|);
    RunInv(states, steps, |steps|);
    assert ReaderOk(states[|steps|], r);
  }

  /** From registering to the end of the shrink, the new store is available as long as the slot is not removed. */
  lemma {:induction false} RegisteredIsAvailable(s: State, t: nat)
    requires Inv(s) && t in s.shrinks && !s.shrinks[t].phase.Looked? && !s.shrinks[t].removed
    ensures Available(s, s.shrinks[t].slot, s.shrinks[t].newStore.id)
  {
    assert ShrinkOk(s, t) && Holds(s, t, s.shrinks[t].slot);
  }

  /** Whatever else happened, no lookup returns a store with another id. */
  lemma {:induction false} LookupReturnsId(states: seq<State>, steps: seq<Step>, r: nat)
    requires Run(states, steps) && Init(states[0]) && r in states[|steps|].readers
    ensures var look := states[|steps|].readers[r].look;
            look.Done? && look.result.Some? ==> look.result.value.id == states[|steps|].readers[r].id
  {
    InitInv(states[0]);
    RunInv(states, steps, |steps|);
    assert ReaderOk(states[|steps|], r);
  }

  ghost predicate Removes(steps: seq<Step>, slot: Slot) {
    exists i :: 0 <= i < |steps| && steps[i] == RemoveStep(slot)
  }

  /** The shrink with handle `t` begins with the first step and is still under way at the end. */
  ghost predicate ShrinkRun(states: seq<State>, steps: seq<Step>, t: nat) {
    && Run(states, steps) && Inv(states[0]) && |steps| > 0 && steps[0].LookStep? && steps[0].t == t
    && forall i :: 0 < i < |steps| ==> steps[i] != FinishStep(t)
  }

  lemma {:induction false} RemovedTracks(states: seq<State>, steps: seq<Step>, t: nat, i: nat)
    requires ShrinkRun(states, steps, t) && 0 < i <= |steps|
    ensures t in states[i].shrinks && states[i].shrinks[t].slot == steps[0].slot
    ensures states[i].shrinks[t].removed <==> Removes(steps[..i], steps[0].slot)
  {
    assert StepAt(states, steps, i - 1);
    assert steps[..i] == steps[..i - 1] + [steps[i - 1]];
    if i > 1 {
      RemovedTracks(states, steps, t, i - 1);
      if Removes(steps[..i - 1], steps[0].slot) {
        var j :| 0 <= j < i - 1 && steps[..i - 1][j] == RemoveStep(steps[0].slot);
        assert steps[..i][j] == RemoveStep(steps[0].slot);
      }
      if steps[i - 1] == RemoveStep(steps[0].slot) { assert steps[..i][i - 1] == RemoveStep(steps[0].slot); }
    }
  }

  /** Step i is the swap of another shrink of the slot. */
  ghost predicate SwapsAt(states: seq<State>, steps: seq<Step>, i: int, slot: Slot, t: nat)
    requires 0 <= i < |steps| <= |states|
  {
    steps[i].SwapStep? && steps[i].t != t && Holds(states[i], steps[i].t, slot)
  }

  /** One of the first n steps is. */
  ghost predicate Swaps(states: seq<State>, steps: seq<Step>, n: nat, slot: Slot, t: nat)
    requires n <= |steps| <= |states|
  {
    exists i :: 0 <= i < n && SwapsAt(states, steps, i, slot, t)
  }

  lemma {:induction false} ReplacedTracks(states: seq<State>, steps: seq<Step>, t: nat, i: nat)
    requires ShrinkRun(states, steps, t) && 0 < i <= |steps|
    ensures t in states[i].shrinks && states[i].shrinks[t].slot == steps[0].slot
    ensures states[i].shrinks[t].replaced <==> Swaps(states, steps, i, steps[0].slot, t)
  {
    assert StepAt(states, steps, i - 1);
    if i == 1 {
      assert !SwapsAt(states, steps, 0, steps[0].slot, t);
    } else {
      ReplacedTracks(states, steps, t, i - 1);
      assert Swaps(states, steps, i, steps[0].slot, t) <==>
             Swaps(states, steps, i - 1, steps[0].slot, t) || SwapsAt(states, steps, i - 1, steps[0].slot, t);
    }
  }

  /**
   The assertions of a shrink. Registering finds the slot free exactly if no other shrink of it is
   registered. At the drop it replaces the store it looked up exactly if since then the slot was not
   removed and no other shrink of it swapped. That the new store is registered holds in any case.
   */
  lemma {:induction false} DropAssertions(states: seq<State>, steps: seq<Step>, t: nat)
    requires ShrinkRun(states, steps, t)
    ensures var last, slot := states[|steps|], steps[0].slot;
            && t in last.shrinks && last.shrinks[t].slot == slot
            && (last.shrinks[t].phase.Looked? ==> (slot !in last.shrinking <==> !Owned(last, slot)))
            && (last.shrinks[t].phase.Registered? ==>
                  (ReplacesOld(last, t) <==> !Removes(steps, slot) && !Swaps(states, steps, |steps|, slot, t)))
            && (last.shrinks[t].phase.Swapped? ==> slot in last.shrinking)
  {
    RemovedTracks(states, steps, t, |steps|);
    ReplacedTracks(states, steps, t, |steps|);
    assert steps[..|steps|] == steps;
    RunInv(states, steps, |steps|);
    var last, slot := states[|steps|], steps[0].slot;
    assert ShrinkOk(last, t);
    if Owned(last, slot) {
      var u :| Holds(last, u, slot);
      assert ShrinkOk(last, u);
    }
  }

  /** Two shrinks that look up the same store: the second one to register fails at its drop. */
  lemma {:induction false} OverlapBreaksDrop(s: State, slot: Slot, t: nat, a: Store, u: nat, b: Store)
    requires Inv(s) && slot in s.stores && slot !in s.shrinking && t != u && t !in s.shrinks && u !in s.shrinks
    requires a.id !in s.usedIds && b.id !in s.usedIds && a.id != b.id
    ensures var s1 := Next(s, LookStep(t, slot, a));
            Enabled(s1, LookStep(u, slot, b)) &&
            var s2 := Next(s1, LookStep(u, slot, b));
            Enabled(s2, RegisterStep(t)) && !Enabled(Next(s2, RegisterStep(t)), RegisterStep(u)) &&
            TwoSteps(Next(s2, RegisterStep(t)), SwapStep(t), FinishStep(t)) &&
            var s3 := After(Next(s2, RegisterStep(t)), SwapStep(t), FinishStep(t));
            Enabled(s3, RegisterStep(u)) && !ReplacesOld(Next(s3, RegisterStep(u)), u)
  {
  }

  /** From every state with a registered shrink, removing its slot makes the assertion at its end fail. */
  lemma {:induction false} RemovalBreaksDrop(s: State, t: nat)
    requires Inv(s) && t in s.shrinks && s.shrinks[t].phase.Registered?
    ensures Enabled(s, RemoveStep(s.shrinks[t].slot))
    ensures var s' := Next(s, RemoveStep(s.shrinks[t].slot));
            t in s'.shrinks && s'.shrinks[t].phase.Registered? && !ReplacesOld(s', t) && !Enabled(s', SwapStep(t))
  {
  }

  /**
   The third lookup is needed. In any state with a registered shrink, a lookup of the new store may look
   in the main map before the swap and in the second map after the end, and find it in neither.
   */
  lemma {:induction false} ThirdLookupIsNeeded(s: State, t: nat, r: nat)
    requires Inv(s) && t in s.shrinks && s.shrinks[t].phase.Registered? && r !in s.readers
    requires !s.shrinks[t].removed && !s.shrinks[t].replaced
    ensures var slot, id := s.shrinks[t].slot, s.shrinks[t].newStore.id;
            var s1 := Next(s, ReadStep(r, slot, id));
            Enabled(s1, LookupStep(r)) &&
            var s2 := Next(s1, LookupStep(r));
            Enabled(s2, SwapStep(t)) &&
            var s3 := Next(s2, SwapStep(t));
            Enabled(s3, FinishStep(t)) &&
            var s4 := Next(s3, FinishStep(t));
            Enabled(s4, LookupStep(r)) &&
            var s5 := Next(s4, LookupStep(r));
            s5.readers[r].look.Third? && s5.readers[r].stable
  {
    assert ShrinkOk(s, t) && NewOk(s, t) && Holds(s, t, s.shrinks[t].slot);
  }

  // ---------- the operations ----------

  class AccountStorage {
    var stores: map<Slot, Store>
    var shrinking: map<Slot, Store>

    /** The object holds the two maps of a state of the step system. */
    ghost predicate Shows(s: State) reads this {
      s.stores == stores && s.shrinking == shrinking
    }

    constructor ()
      ensures stores == map[] && shrinking == map[]
    {
      stores, shrinking := map[], map[];
    }

    /** With nobody else at work, finds the store wherever it is, in the steps of one reader. */
    method GetAccountStorageEntry(slot: Slot, id: nat, ghost s: State, ghost reader: nat) returns (r: Option<Store>)
      ensures r.Some? <==> Find(stores, slot, id).Some? || Find(shrinking, slot, id).Some?
      ensures r.Some? ==> r.value.id == id && (r == Find(stores, slot, id) || r == Find(shrinking, slot, id))
      ensures Shows(s) && reader !in s.readers ==> ReadsAlone(Next(s, ReadStep(reader, slot, id)), reader) == r
    {
      r := Find(stores, slot, id);
      if r.None? { r := Find(shrinking, slot, id); }
      if r.None? { r := Find(stores, slot, id); }
      if Shows(s) && reader !in s.readers { ReadingAlone(s, reader, slot, id); }
    }

    /** Tests for shrinks, then writes: two steps. */
    method Insert(slot: Slot, store: Store, ghost s: State, ghost t: nat) returns (r: Result<(), Panic>)
      modifies this
      ensures shrinking == old(shrinking)
      ensures r.Ok? <==> old(shrinking) == map[] && slot !in old(stores)
      ensures stores == if old(shrinking) == map[] then old(stores)[slot := store] else old(stores)
      ensures r.Ok? && old(Shows(s)) && t !in s.inserts && store.id !in s.usedIds ==>
                var check, insert := CheckStep(t, slot, store), InsertStep(t);
                TwoSteps(s, check, insert) && Shows(After(s, check, insert))
    {
      if shrinking != map[] { return Err(ShrinkInProgress); }
      var occupied := slot in stores;
      stores := stores[slot := store];
      return if occupied then Err(SlotOccupied) else Ok(());
    }

    method Remove(slot: Slot, shrinkCanBeActive: bool, ghost s: State) returns (r: Result<Option<Store>, Panic>)
      modifies this
      ensures shrinking == old(shrinking)
      ensures r.Ok? <==> shrinkCanBeActive || old(shrinking) == map[]
      ensures r.Ok? ==> r.value == (if slot in old(stores) then Some(old(stores)[slot]) else None)
      ensures stores == if r.Ok? then old(stores) - {slot} else old(stores)
      ensures r.Ok? && old(Shows(s)) ==> Shows(Next(s, RemoveStep(slot)))
    {
      if !shrinkCanBeActive && shrinking != map[] { return Err(ShrinkInProgress); }
      r := Ok(if slot in stores then Some(stores[slot]) else None);
      stores := stores - {slot};
    }

    /** Looks up the store to be replaced, then registers the new one: two steps. */
    method ShrinkingInProgress(slot: Slot, newStore: Store, ghost s: State, ghost t: nat)
      returns (r: Result<Store, Panic>)
      modifies this
      ensures stores == old(stores)
      ensures r.Ok? <==> slot in old(stores) && slot !in old(shrinking)
      ensures r.Ok? ==> r.value == old(stores)[slot]
      ensures shrinking == if slot in old(stores) then old(shrinking)[slot := newStore] else old(shrinking)
      ensures r.Ok? && old(Shows(s)) && t !in s.shrinks && newStore.id !in s.usedIds ==>
                var look, register := LookStep(t, slot, newStore), RegisterStep(t);
                TwoSteps(s, look, register) && Shows(After(s, look, register))
    {
      if slot !in stores { return Err(NoStorage); }
      var oldStore := stores[slot];
      var duplicate := slot in shrinking;
      shrinking := shrinking[slot := newStore];
      return if duplicate then Err(DuplicateCall) else Ok(oldStore);
    }

    /** Ends a shrink: the new store takes the place of the old one, and then leaves the second map. Two steps. */
    method DropShrink(slot: Slot, oldStore: Store, newStore: Store, ghost s: State, ghost t: nat)
      returns (r: Result<(), Panic>)
      modifies this
      ensures stores == old(stores)[slot := newStore]
      ensures r.Ok? <==> Find(old(stores), slot, oldStore.id).Some? && slot in old(shrinking)
      ensures shrinking ==
              if Find(old(stores), slot, oldStore.id).Some? then old(shrinking) - {slot} else old(shrinking)
      ensures r.Ok? && old(Shows(s)) && Shrinks(s, t, slot, oldStore, newStore) ==>
                TwoSteps(s, SwapStep(t), FinishStep(t)) && Shows(After(s, SwapStep(t), FinishStep(t)))
    {
      var replaced := Find(stores, slot, oldStore.id);
      stores := stores[slot := newStore];
      if replaced.None? { return Err(WrongStorage); }
      var found := slot in shrinking;
      shrinking := shrinking - {slot};
      return if found then Ok(()) else Err(NotShrinking);
    }
  }

  ghost predicate Shrinks(s: State, t: nat, slot: Slot, oldStore: Store, newStore: Store) {
    && t in s.shrinks && s.shrinks[t].phase.Registered?
    && s.shrinks[t].slot == slot && s.shrinks[t].oldStore == oldStore && s.shrinks[t].newStore == newStore
  }

  function LookupsLeft(look: Look): nat {
    match look
    case First => 3
    case Second => 2
    case Third => 1
    case Done(_) => 0
  }

  /** What a reader finds whose lookups follow each other at once. */
  ghost function ReadsAlone(s: State, reader: nat): Option<Store>
    requires reader in s.readers
    decreases LookupsLeft(s.readers[reader].look)
  {
    if s.readers[reader].look.Done?
    then s.readers[reader].look.result
    else ReadsAlone(Next(s, LookupStep(reader)), reader)
  }

  lemma {:induction false} ReadingAlone(s: State, reader: nat, slot: Slot, id: nat)
    requires reader !in s.readers
    ensures ReadsAlone(Next(s, ReadStep(reader, slot, id)), reader)
         == if Find(s.stores, slot, id).Some? then Find(s.stores, slot, id) else Find(s.shrinking, slot, id)
  {
    var s1 := Next(s, ReadStep(reader, slot, id));
    var s2 := Next(s1, LookupStep(reader));
    if s2.readers[reader].look.Second? {
      var s3 := Next(s2, LookupStep(reader));
      assert ReadsAlone(s2, reader) == ReadsAlone(s3, reader);
      if s3.readers[reader].look.Third? {
        assert ReadsAlone(s3, reader) == ReadsAlone(Next(s3, LookupStep(reader)), reader);
      }
    }
  }

  /** A whole shrink with nobody else at work puts the new store in place and leaves no trace. */
  method ShrinkAlone(storage: AccountStorage, slot: Slot, newStore: Store) returns (r: Result<(), Panic>)
    requires slot in storage.stores && slot !in storage.shrinking
    modifies storage
    ensures r.Ok? && storage.stores == old(storage.stores)[slot := newStore]
            && storage.shrinking == old(storage.shrinking)
  {
    ghost var s := State(storage.stores, storage.shrinking, map[], map[], map[], {});
    var began := storage.ShrinkingInProgress(slot, newStore, s, 0);
    r := storage.DropShrink(slot, began.value, newStore, s, 0);
    assert old(storage.shrinking)[slot := newStore] - {slot} == old(storage.shrinking);
  }
}
