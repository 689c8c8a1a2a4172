/**
 Whole runs of the scan protocol. Main results: over every run, exactly when a scan sees the same of a
 pubkey all the time; and that it finds the same accounts as long as cleans without a bound read slot
 lists only while the root of the scan is the greatest root. That its bank is removed the scan reports
 at its end.
 */
module ScanRuns {
  import opened Common
  import opened SlotLists
  import opened ZeroPurges
  import opened Forks
  import opened ScanProtocol
  import opened ScanMarks
  import opened ScanViews

  ghost predicate StepAt<V>(states: seq<State<V>>, steps: seq<Step<V>>, i: int)
    requires 0 <= i < |steps| && |states| == |steps| + 1
  {
    Next(states[i], steps[i], states[i + 1])
  }

  ghost predicate Run<V>(states: seq<State<V>>, steps: seq<Step<V>>) {
    && |states| == |steps| + 1 && Init(states[0])
    && forall i {:trigger StepAt(states, steps, i)} :: 0 <= i < |steps| ==> StepAt(states, steps, i)
  }

  lemma {:induction false} RunInv<V>(states: seq<State<V>>, steps: seq<Step<V>>, i: nat)
    requires Run(states, steps) && i < |states|
    ensures StateInv(states[i]) && MarksOk(states[i])
  {
    if i == 0 {
      InitInv(states[0]);
    } else {
      RunInv(states, steps, i - 1);
      assert StepAt(states, steps, i - 1);
      NextKeepsMarks(states[i - 1], steps[i - 1], states[i]);
    }
  }

  lemma {:induction false} RemovedGrows<V>(states: seq<State<V>>, steps: seq<Step<V>>, i: nat, j: nat)
    requires Run(states, steps) && i <= j < |states|
    ensures states[i].tree.removed <= states[j].tree.removed
    decreases j
  {
    if i < j {
      RemovedGrows(states, steps, i, j - 1);
      assert StepAt(states, steps, j - 1);
      RemovedStay(states[j - 1], steps[j - 1], states[j]);
    }
  }

  /** The scan is under way from state i to state j, and its bank has not been removed by then. */
  ghost predicate Scanning<V>(states: seq<State<V>>, steps: seq<Step<V>>, i: nat, j: nat, id: ScanId) {
    && Run(states, steps) && i <= j < |states| && (forall k :: i <= k <= j ==> id in states[k].scans)
    && states[i].scans[id].bank !in states[j].tree.removed
  }

  /** The step at k leaves what the scan sees as it is. */
  ghost predicate Leaves<V>(states: seq<State<V>>, steps: seq<Step<V>>, k: nat, id: ScanId, key: Pubkey)
    requires k < |steps| && |states| == |steps| + 1
  {
    && !Hides(states[k], steps[k], id, key)
    && !Clears(states[k], steps[k], id, key)
    && !Shifts(states[k], steps[k], id, key)
  }

  lemma {:induction false} SameScan<V>(states: seq<State<V>>, steps: seq<Step<V>>, i: nat, j: nat, id: ScanId)
    requires Scanning(states, steps, i, j, id)
    ensures states[j].scans[id] == states[i].scans[id]
    decreases j
  {
    if i < j {
      RemovedGrows(states, steps, j - 1, j);
      SameScan(states, steps, i, j - 1, id);
      assert StepAt(states, steps, j - 1);
      ScanGoesOn(states[j - 1], steps[j - 1], states[j], id);
    }
  }

  lemma {:induction false} StepOfScan<V>(states: seq<State<V>>, steps: seq<Step<V>>, i: nat, j: nat, k: nat, id: ScanId,
                                         key: Pubkey)
    requires Scanning(states, steps, i, j, id) && i <= k < j
    ensures var scan := states[i].scans[id];
            && states[k].scans[id] == states[k + 1].scans[id] == scan
            && (View(states[k + 1], scan, key) != View(states[k], scan, key) <==> !Leaves(states, steps, k, id, key))
  {
    RemovedGrows(states, steps, k, j);
    RemovedGrows(states, steps, k + 1, j);
    SameScan(states, steps, i, k, id);
    RunInv(states, steps, k);
    assert StepAt(states, steps, k);
    StepChangesView(states[k], steps[k], states[k + 1], id, key);
  }

  lemma {:induction false} StableWhileLeft<V>(states: seq<State<V>>, steps: seq<Step<V>>, i: nat, j: nat, k: nat,
                                              id: ScanId, key: Pubkey)
    requires Scanning(states, steps, i, j, id) && i <= k <= j
    requires forall n :: i <= n < k ==> Leaves(states, steps, n, id, key)
    ensures View(states[k], states[i].scans[id], key) == View(states[i], states[i].scans[id], key)
    decreases k
  {
    if i < k {
      StableWhileLeft(states, steps, i, j, k - 1, id, key);
      StepOfScan(states, steps, i, j, k - 1, id, key);
    }
  }

  /**
   Over every run, from any moment of a scan to any later one: it sees the same slot and version of a
   pubkey all the time exactly if no step in between hides, clears or shifts it.
   */
  lemma {:induction false} StableExactly<V>(states: seq<State<V>>, steps: seq<Step<V>>, i: nat, j: nat, id: ScanId,
                                            key: Pubkey)
    requires Scanning(states, steps, i, j, id)
    ensures (forall k :: i <= k <= j ==>
               View(states[k], states[i].scans[id], key) == View(states[i], states[i].scans[id], key))
            <==> forall k :: i <= k < j ==> Leaves(states, steps, k, id, key)
  {
    if forall k :: i <= k < j ==> Leaves(states, steps, k, id, key) {
      forall k | i <= k <= j
        ensures View(states[k], states[i].scans[id], key) == View(states[i], states[i].scans[id], key)
      {
        StableWhileLeft(states, steps, i, j, k, id, key);
      }
    } else {
      var k :| i <= k < j && !Leaves(states, steps, k, id, key);
      StepOfScan(states, steps, i, j, k, id, key);
      assert View(states[k], states[i].scans[id], key) != View(states[k + 1], states[i].scans[id], key);
    }
  }

  // ---------- guarded runs ----------

  /** A clean without a bound reads slot lists only while the root of the scan is the greatest root. */
  ghost predicate Guarded<V>(s: State<V>, step: Step<V>, id: ScanId) {
    (step.DoClean? || step.DoMarkZero?) && step.clean in s.cleans && s.cleans[step.clean].None? &&
    s.tree.root in s.tree.banks && id in s.scans ==>
      s.scans[id].root == RootSlot(s.tree)
  }

  /** What the scan sees up to the bound of the mark has zero lamports. */
  ghost predicate SafeFrom<V>(s: State<V>, scan: Scan, m: (CleanId, Pubkey))
    requires m in s.marks
  {
    var seen := View(s, scan, m.1);
    s.marks[m].top <= scan.root && (seen.Some? && seen.value.0 <= s.marks[m].top ==> seen.value.1.zero)
  }

  ghost predicate Safe<V>(s: State<V>, scan: Scan, key: Pubkey) {
    forall m {:trigger SafeFrom(s, scan, m)} :: m in s.marks && m.1 == key ==> SafeFrom(s, scan, m)
  }

  /** A scan that has just begun is safe from all marks there are. */
  lemma {:induction false} BeginsSafe<V>(s: State<V>, s': State<V>, id: ScanId, b: BankId, key: Pubkey)
    requires StateInv(s) && StateInv(s') && MarksOk(s') && BeginScan(s, s', id, b) && Live(s.tree, b)
    ensures Safe(s', s'.scans[id], key)
  {
    var scan, t := s'.scans[id], s'.tree;
    ScanIsSheltered(s', id, key);
    assert BankOk(t, t.root);
    forall r | r in s'.roots ensures r <= scan.root { assert Accounted(t, r); }
    forall m | m in s'.marks && m.1 == key ensures SafeFrom(s', scan, m) {
      assert MarkOk(s', m);
      MarkedAnswerIsZero(ListOf(s'.lists, key), s'.roots, s'.marks[m], QueryOf(scan));
    }
  }

  lemma {:induction false} MarksSafely<V>(s: State<V>, s': State<V>, clean: CleanId, key: Pubkey, id: ScanId)
    requires StateInv(s) && MarkZero(s, s', clean, key) && id in s.scans && Live(s.tree, s.scans[id].bank)
    requires Guarded(s, DoMarkZero(clean, key), id)
    ensures SafeFrom(s', s.scans[id], (clean, key))
  {
    CleanHasBound(s, clean);
    ScanIsSheltered(s, id, key);
    ReadAnswerIsZero(ListOf(s.lists, key), s.cleans[clean], BoundOf(s, clean), s.roots, QueryOf(s.scans[id]));
  }

  /** The same version, or nothing any more where it had zero lamports. */
  ghost predicate Lasts<V>(before: Option<Version<V>>, after: Option<Version<V>>) {
    after == before || (after.None? && before.value.zero)
  }

  lemma {:induction false} ClearedSafely<V>(s: State<V>, s': State<V>, clean: CleanId, id: ScanId, key: Pubkey)
    requires StateInv(s) && MarksOk(s) && PurgeZero(s, s', clean, key)
    requires id in s.scans && Live(s.tree, s.scans[id].bank) && Safe(s, s.scans[id], key)
    ensures Safe(s', s.scans[id], key) && Lasts(Found(s, s.scans[id], key), Found(s', s.scans[id], key))
  {
    var scan := s.scans[id];
    assert SafeFrom(s, scan, (clean, key));
    ClearsUpToBound(s, s', clean, id, key);
    forall m | m in s'.marks && m.1 == key ensures SafeFrom(s', scan, m) { assert SafeFrom(s, scan, m); }
  }

  lemma {:induction false} SameSafety<V>(s: State<V>, s': State<V>, scan: Scan, key: Pubkey)
    requires Safe(s, scan, key) && View(s', scan, key) == View(s, scan, key)
    requires forall m :: m in s'.marks && m.1 == key ==> m in s.marks && s'.marks[m] == s.marks[m]
    ensures Safe(s', scan, key)
  {
    forall m | m in s'.marks && m.1 == key ensures SafeFrom(s', scan, m) { assert SafeFrom(s, scan, m); }
  }

  lemma {:induction false} MarkStepIsSafe<V>(s: State<V>, s': State<V>, clean: CleanId, k: Pubkey, id: ScanId,
                                             key: Pubkey)
    requires StateInv(s) && MarkZero(s, s', clean, k) && id in s.scans && Live(s.tree, s.scans[id].bank)
    requires Safe(s, s.scans[id], key) && Guarded(s, DoMarkZero(clean, k), id)
    ensures Safe(s', s.scans[id], key)
  {
    forall m | m in s'.marks && m.1 == key ensures SafeFrom(s', s.scans[id], m) {
      if m == (clean, k) { MarksSafely(s, s', clean, k, id); } else { assert SafeFrom(s, s.scans[id], m); }
    }
  }

  lemma {:induction false} MoveStepIsSafe<V>(s: State<V>, s': State<V>, k: Pubkey, i: nat, to: Slot, scan: Scan,
                                             key: Pubkey)
    requires Move(s, s', k, i, to) && Safe(s, scan, key)
    ensures Safe(s', scan, key)
  {
    if k != key { SameSafety(s, s', scan, key); }
  }

  lemma {:induction false} MarksOnlyGo<V>(s: State<V>, step: Step<V>, s': State<V>)
    requires Next(s, step, s') && !step.DoMarkZero?
    ensures forall m :: m in s'.marks ==> m in s.marks && s'.marks[m] == s.marks[m]
  {
  }

  /** A guarded step does not take an account with lamports from a safe scan, and leaves it safe. */
  lemma {:induction false} GuardedStep<V>(s: State<V>, step: Step<V>, s': State<V>, id: ScanId, key: Pubkey)
    requires StateInv(s) && MarksOk(s) && Next(s, step, s') && id in s.scans && Live(s.tree, s.scans[id].bank)
    requires ViewRule(s, step, s', id, key) && Guarded(s, step, id) && Safe(s, s.scans[id], key)
    ensures !Hides(s, step, id, key)
    ensures Safe(s', s.scans[id], key) && Lasts(Found(s, s.scans[id], key), Found(s', s.scans[id], key))
  {
    if step.DoClean? && step.clean in s.cleans && s.cleans[step.clean].None? {
      CurrentRootIsSafe(s, step, s', id, key);
    }
    if step.DoMarkZero? {
      MarkStepIsSafe(s, s', step.clean, step.key, id, key);
    } else if step.DoMove? {
      MoveStepIsSafe(s, s', step.key, step.i, step.to, s.scans[id], key);
    } else if step.DoPurgeZero? && step.key == key {
      ClearedSafely(s, s', step.clean, id, key);
    } else {
      MarksOnlyGo(s, step, s');
      SameSafety(s, s', s.scans[id], key);
    }
  }

  /** The scan begins with step b and is under way up to state j, and every step in between is guarded. */
  ghost predicate GuardedScan<V>(states: seq<State<V>>, steps: seq<Step<V>>, b: nat, j: nat, id: ScanId, bank: BankId) {
    && b < j && Scanning(states, steps, b + 1, j, id) && steps[b] == DoBeginScan(id, bank)
    && forall k :: b < k < j ==> Guarded(states[k], steps[k], id)
  }

  lemma {:induction false} StepOfGuardedScan<V>(states: seq<State<V>>, steps: seq<Step<V>>, b: nat, j: nat, k: nat,
                                                id: ScanId, bank: BankId, key: Pubkey)
    requires GuardedScan(states, steps, b, j, id, bank) && b < k < j && Safe(states[k], states[k].scans[id], key)
    ensures var scan := states[k].scans[id];
            && states[k + 1].scans[id] == scan && Safe(states[k + 1], scan, key)
            && Lasts(Found(states[k], scan, key), Found(states[k + 1], scan, key))
            && !Hides(states[k], steps[k], id, key)
  {
    RemovedGrows(states, steps, k, j);
    RemovedGrows(states, steps, k + 1, j);
    SameScan(states, steps, b + 1, k, id);
    RunInv(states, steps, k);
    assert StepAt(states, steps, k);
    ScanIsLive(states[k], id);
    StepChangesView(states[k], steps[k], states[k + 1], id, key);
    GuardedStep(states[k], steps[k], states[k + 1], id, key);
  }

  lemma {:induction false} GuardedScanIsSafe<V>(states: seq<State<V>>, steps: seq<Step<V>>, b: nat, j: nat, k: nat,
                                                id: ScanId, bank: BankId, key: Pubkey)
    requires GuardedScan(states, steps, b, j, id, bank) && b < k <= j
    ensures Safe(states[k], states[k].scans[id], key)
    decreases k
  {
    if k == b + 1 {
      RunInv(states, steps, b);
      RunInv(states, steps, k);
      assert StepAt(states, steps, b);
      RemovedGrows(states, steps, b, j);
      BeginsSafe(states[b], states[k], id, bank, key);
    } else {
      GuardedScanIsSafe(states, steps, b, j, k - 1, id, bank, key);
      StepOfGuardedScan(states, steps, b, j, k - 1, id, bank, key);
    }
  }

  lemma {:induction false} FindsTheSame<V>(states: seq<State<V>>, steps: seq<Step<V>>, b: nat, i: nat, k: nat, j: nat,
                                           id: ScanId, bank: BankId, key: Pubkey)
    requires GuardedScan(states, steps, b, j, id, bank) && b < i <= k <= j
    ensures states[k].scans[id] == states[i].scans[id]
    ensures Lasts(Found(states[i], states[i].scans[id], key), Found(states[k], states[k].scans[id], key))
    decreases k
  {
    if i < k {
      FindsTheSame(states, steps, b, i, k - 1, j, id, bank, key);
      GuardedScanIsSafe(states, steps, b, j, k - 1, id, bank, key);
      StepOfGuardedScan(states, steps, b, j, k - 1, id, bank, key);
    }
  }

  /**
   Scan stability. In every run in which cleans without a bound are guarded since the scan began, from
   any moment of the scan to any later one it finds the same version of every pubkey, or nothing any
   more if that version has zero lamports; and at the same slot unless it is moved.
   */
  lemma {:induction false} ScanStability<V>(states: seq<State<V>>, steps: seq<Step<V>>, b: nat, i: nat, j: nat,
                                            id: ScanId, bank: BankId, key: Pubkey)
    requires GuardedScan(states, steps, b, j, id, bank) && b < i <= j
    ensures states[j].scans[id] == states[i].scans[id]
    ensures Lasts(Found(states[i], states[i].scans[id], key), Found(states[j], states[j].scans[id], key))
    ensures (forall k :: i <= k < j ==>
               !Clears(states[k], steps[k], id, key) && !Shifts(states[k], steps[k], id, key)) ==>
              View(states[j], states[j].scans[id], key) == View(states[i], states[i].scans[id], key)
  {
    FindsTheSame(states, steps, b, i, j, j, id, bank, key);
    if forall k :: i <= k < j ==> !Clears(states[k], steps[k], id, key) && !Shifts(states[k], steps[k], id, key) {
      forall k | i <= k < j ensures Leaves(states, steps, k, id, key) {
        GuardedScanIsSafe(states, steps, b, j, k, id, bank, key);
        StepOfGuardedScan(states, steps, b, j, k, id, bank, key);
      }
      RemovedGrows(states, steps, i, j);
      SameScan(states, steps, b + 1, i, id);
      StableWhileLeft(states, steps, i, j, j, id, key);
    }
  }

  lemma {:induction false} ActiveUntilEnd<V>(states: seq<State<V>>, steps: seq<Step<V>>, i: nat, k: nat, id: ScanId,
                                             b: BankId)
    requires Run(states, steps) && i < k < |states| && steps[i] == DoBeginScan(id, b)
    requires forall n :: i < n < k ==> steps[n] != DoEndScan(id)
    ensures id in states[i + 1].scans && id in states[k].scans && states[k].scans[id] == states[i + 1].scans[id]
    decreases k
  {
    assert StepAt(states, steps, k - 1);
    if i + 1 < k {
      ActiveUntilEnd(states, steps, i, k - 1, id, b);
    }
  }

  /** The version found, if it has lamports. */
  function Funded<V>(s: State<V>, scan: Scan, key: Pubkey): Option<Version<V>> {
    var found := Found(s, scan, key);
    if found.Some? && found.value.zero then None else found
  }

  /**
   The checked scan of the index: begun at step i and ended at step j without a report that its
   bank was removed, it has read one consistent set of accounts with lamports, whatever it read when.
   */
  lemma {:induction false} CheckedScan<V>(states: seq<State<V>>, steps: seq<Step<V>>, i: nat, j: nat, id: ScanId,
                                          b: BankId, k: nat, key: Pubkey)
    requires Run(states, steps) && i < k <= j < |steps|
    requires steps[i] == DoBeginScan(id, b) && steps[j] == DoEndScan(id)
    requires forall n :: i < n < j ==> steps[n] != DoEndScan(id) && Guarded(states[n], steps[n], id)
    requires b !in states[j + 1].tree.removed
    ensures id in states[k].scans && id in states[i + 1].scans
    ensures Funded(states[k], states[k].scans[id], key) == Funded(states[i + 1], states[i + 1].scans[id], key)
  {
    forall n | i + 1 <= n <= k ensures id in states[n].scans {
      ActiveUntilEnd(states, steps, i, n, id, b);
    }
    assert StepAt(states, steps, i);
    RemovedGrows(states, steps, k, j + 1);
    ScanStability(states, steps, i, i + 1, k, id, b, key);
  }
}
