/**
 Reader/writer locks on accounts, taken and given back for batches of transactions. The table holds
 only a set of write-locked keys and a count for every read-locked key; `held` is what it stands for:
 the transactions that hold locks.
 */
module AccountLocking {
  import opened Common

  datatype Transaction = Transaction(writable: seq<Pubkey>, readonly: seq<Pubkey>)

  datatype TransactionError = AccountInUse | NotLoaded(code: nat)

  /** No key both to be written and read. */
  ghost predicate KeepsApart(tx: Transaction) {
    forall k :: k in tx.writable ==> k !in tx.readonly
  }

  /** Two transactions that cannot hold their locks together. */
  ghost predicate Conflict(a: Transaction, b: Transaction) {
    exists k: Pubkey ::
      (k in a.writable && (k in b.writable || k in b.readonly)) || (k in a.readonly && k in b.writable)
  }

  // ---------- what the table stands for ----------

  type Held = map<nat, Transaction>

  /** Where the holders ask to read the key; a transaction may ask more than once. */
  ghost function Readers(held: Held, k: Pubkey): set<(nat, nat)> {
    set id, i | id in held && 0 <= i < |held[id].readonly| && held[id].readonly[i] == k :: (id, i)
  }

  ghost function Places(id: nat, keys: seq<Pubkey>, k: Pubkey): set<(nat, nat)> {
    set i | 0 <= i < |keys| && keys[i] == k :: (id, i)
  }

  lemma {:induction false} PlacesCount(id: nat, keys: seq<Pubkey>, k: Pubkey)
    ensures |Places(id, keys, k)| == multiset(keys)[k]
  {
    if keys != [] {
      var n := |keys| - 1;
      PlacesCount(id, keys[..n], k);
      assert keys == keys[..n] + [keys[n]];
      assert Places(id, keys, k) == Places(id, keys[..n], k) + if keys[n] == k then {(id, n)} else {};
    }
  }

  ghost function WriteKeys(held: Held): set<Pubkey> {
    set id, k | id in held && k in held[id].writable :: k
  }

  function Count(locks: map<Pubkey, nat>, k: Pubkey): nat {
    if k in locks then locks[k] else 0
  }

  ghost predicate NoneZero(locks: map<Pubkey, nat>) {
    forall k :: k in locks ==> locks[k] > 0
  }

  /** Every read count is the number of reads the holders ask for. */
  ghost predicate CountsHolders(locks: map<Pubkey, nat>, held: Held) {
    NoneZero(locks) && forall k {:trigger Count(locks, k)} :: Count(locks, k) == |Readers(held, k)|
  }

  ghost predicate Compatible(held: Held) {
    forall id, other :: id in held && other in held && id != other ==> !Conflict(held[id], held[other])
  }

  lemma {:induction false} AddHolder(held: Held, id: nat, tx: Transaction, k: Pubkey)
    requires id !in held
    ensures |Readers(held[id := tx], k)| == |Readers(held, k)| + multiset(tx.readonly)[k]
    ensures k in WriteKeys(held[id := tx]) <==> k in WriteKeys(held) || k in tx.writable
  {
    var before, after := Readers(held, k), Readers(held[id := tx], k);
    assert after == before + Places(id, tx.readonly, k) && before !! Places(id, tx.readonly, k);
    PlacesCount(id, tx.readonly, k);
    if k in WriteKeys(held) {
      var other :| other in held && k in held[other].writable;
      assert other in held[id := tx] && k in held[id := tx][other].writable;
    }
    if k in tx.writable { assert k in held[id := tx][id].writable; }
  }

  /** A held transaction's keys as the table shows them. */
  lemma {:induction false} ShownInTable(writeLocks: set<Pubkey>, readonlyLocks: map<Pubkey, nat>, held: Held, k: Pubkey)
    requires writeLocks == WriteKeys(held) && CountsHolders(readonlyLocks, held)
    ensures k in writeLocks <==> exists id :: id in held && k in held[id].writable
    ensures k in readonlyLocks <==> exists id :: id in held && k in held[id].readonly
  {
    assert Count(readonlyLocks, k) == |Readers(held, k)|;
    if id :| id in held && k in held[id].readonly {
      var i :| 0 <= i < |held[id].readonly| && held[id].readonly[i] == k;
      assert (id, i) in Readers(held, k);
    }
    if k in readonlyLocks {
      assert Readers(held, k) != {};
      var place :| place in Readers(held, k);
      assert place.0 in held && k in held[place.0].readonly;
    }
  }

  /** The holders determine the table. */
  lemma {:induction false} TableIsUnique(a: map<Pubkey, nat>, b: map<Pubkey, nat>, held: Held)
    requires CountsHolders(a, held) && CountsHolders(b, held)
    ensures a == b
  {
    forall k: Pubkey ensures (k in a <==> k in b) && (k in a ==> a[k] == b[k]) {
      assert Count(a, k) == |Readers(held, k)| == Count(b, k);
    }
  }

  class AccountLocks {
    var writeLocks: set<Pubkey>
    var readonlyLocks: map<Pubkey, nat>
    ghost var held: Held

    ghost predicate Valid() reads this {
      writeLocks == WriteKeys(held) && CountsHolders(readonlyLocks, held) && Compatible(held)
    }

    constructor ()
      ensures Valid() && held == map[] && writeLocks == {} && readonlyLocks == map[]
    {
      writeLocks, readonlyLocks, held := {}, map[], map[];
    }

    /** Counts one more reader of a key that has readers. */
    method LockReadonly(k: Pubkey) returns (ok: bool)
      modifies `readonlyLocks
      ensures ok <==> k in old(readonlyLocks)
      ensures readonlyLocks == if ok then old(readonlyLocks)[k := old(readonlyLocks)[k] + 1] else old(readonlyLocks)
    {
      if k !in readonlyLocks { return false; }
      readonlyLocks := readonlyLocks[k := readonlyLocks[k] + 1];
      return true;
    }

    method InsertNewReadonly(k: Pubkey)
      requires k !in readonlyLocks
      modifies `readonlyLocks
      ensures readonlyLocks == old(readonlyLocks)[k := 1]
    {
      readonlyLocks := readonlyLocks[k := 1];
    }

    method UnlockReadonly(k: Pubkey)
      requires k in readonlyLocks && NoneZero(readonlyLocks)
      modifies `readonlyLocks
      ensures NoneZero(readonlyLocks)
      ensures forall x {:trigger Count(readonlyLocks, x)} ::
                Count(readonlyLocks, x) == Count(old(readonlyLocks), x) - if x == k then 1 else 0
    {
      var count := readonlyLocks[k] - 1;
      readonlyLocks := if count == 0 then readonlyLocks - {k} else readonlyLocks[k := count];
    }

    /** Whether the locks of `tx` are free, as the table shows it. */
    method IsFree(tx: Transaction) returns (free: bool)
      requires Valid()
      ensures free <==> forall id :: id in held ==> !Conflict(tx, held[id])
    {
      var i := 0;
      while i < |tx.writable|
        invariant i <= |tx.writable|
        invariant forall k :: k in tx.writable[..i] ==> k !in writeLocks && k !in readonlyLocks
      {
        if tx.writable[i] in writeLocks || tx.writable[i] in readonlyLocks {
          ShownInTable(writeLocks, readonlyLocks, held, tx.writable[i]);
          return false;
        }
        i := i + 1;
      }
      i := 0;
      while i < |tx.readonly|
        invariant i <= |tx.readonly|
        invariant forall k :: k in tx.readonly[..i] ==> k !in writeLocks
      {
        if tx.readonly[i] in writeLocks {
          ShownInTable(writeLocks, readonlyLocks, held, tx.readonly[i]);
          return false;
        }
        i := i + 1;
      }
      forall id | id in held ensures !Conflict(tx, held[id]) {
        forall k: Pubkey
          ensures !(k in tx.writable && (k in held[id].writable || k in held[id].readonly))
          ensures !(k in tx.readonly && k in held[id].writable)
        {
          ShownInTable(writeLocks, readonlyLocks, held, k);
        }
      }
      return true;
    }

    /** Enters the locks of `tx` into the table. */
    method Enter(tx: Transaction)
      requires NoneZero(readonlyLocks)
      modifies `writeLocks, `readonlyLocks
      ensures NoneZero(readonlyLocks)
      ensures forall k :: k in writeLocks <==> k in old(writeLocks) || k in tx.writable
      ensures forall k {:trigger Count(readonlyLocks, k)} ::
                Count(readonlyLocks, k) == Count(old(readonlyLocks), k) + multiset(tx.readonly)[k]
    {
      var i := 0;
      while i < |tx.writable|
        invariant i <= |tx.writable| && readonlyLocks == old(readonlyLocks)
        invariant forall k :: k in writeLocks <==> k in old(writeLocks) || k in tx.writable[..i]
      {
        writeLocks := writeLocks + {tx.writable[i]};
        i := i + 1;
      }
      i := 0;
      label Written:
      while i < |tx.readonly|
        invariant i <= |tx.readonly| && writeLocks == old@Written(writeLocks) && NoneZero(readonlyLocks)
        invariant forall k {:trigger Count(readonlyLocks, k)} ::
                    Count(readonlyLocks, k) == Count(old(readonlyLocks), k) + multiset(tx.readonly[..i])[k]
      {
        ghost var before := readonlyLocks;
        var ok := LockReadonly(tx.readonly[i]);
        if !ok { InsertNewReadonly(tx.readonly[i]); }
        assert forall k {:trigger Count(readonlyLocks, k)} ::
            Count(readonlyLocks, k) == Count(before, k) + if k == tx.readonly[i] then 1 else 0;
        assert tx.readonly[..i + 1] == tx.readonly[..i] + [tx.readonly[i]];
        i := i + 1;
      }
      assert tx.readonly[..|tx.readonly|] == tx.readonly;
    }

    /** Locks all accounts of a transaction or, if one of them is in use, none. */
    method LockAccount(tx: Transaction) returns (r: Result<(), TransactionError>, ghost id: nat)
      requires Valid()
      modifies this
      ensures Valid()
      ensures r.Ok? <==> forall other :: other in old(held) ==> !Conflict(tx, old(held)[other])
      ensures r.Ok? <==>
              forall other, k: Pubkey :: other in old(held) ==>
                && !(k in tx.writable && (k in old(held)[other].writable || k in old(held)[other].readonly))
                && !(k in tx.readonly && k in old(held)[other].writable)
      ensures r.Ok? ==> id !in old(held) && held == old(held)[id := tx]
      ensures r.Err? ==> r.error == AccountInUse && unchanged(this)
    {
      id := Fresh(held.Keys);
      var free := IsFree(tx);
      if !free { return Err(AccountInUse), id; }
      Enter(tx);
      held := held[id := tx];
      HoldersAdded(old(held), id, tx, old(writeLocks), old(readonlyLocks), writeLocks, readonlyLocks);
      return Ok(()), id;
    }

    /** Takes the locks of `tx` out of the table. */
    method Leave(tx: Transaction)
      requires NoneZero(readonlyLocks)
      requires forall k {:trigger Count(readonlyLocks, k)} :: Count(readonlyLocks, k) >= multiset(tx.readonly)[k]
      modifies `writeLocks, `readonlyLocks
      ensures NoneZero(readonlyLocks)
      ensures forall k :: k in writeLocks <==> k in old(writeLocks) && k !in tx.writable
      ensures forall k {:trigger Count(readonlyLocks, k)} ::
                Count(readonlyLocks, k) == Count(old(readonlyLocks), k) - multiset(tx.readonly)[k]
    {
      var i := 0;
      while i < |tx.writable|
        invariant i <= |tx.writable| && readonlyLocks == old(readonlyLocks)
        invariant forall k :: k in writeLocks <==> k in old(writeLocks) && k !in tx.writable[..i]
      {
        writeLocks := writeLocks - {tx.writable[i]};
        i := i + 1;
      }
      i := 0;
      label Written:
      while i < |tx.readonly|
        invariant i <= |tx.readonly| && writeLocks == old@Written(writeLocks) && NoneZero(readonlyLocks)
        invariant forall k {:trigger Count(readonlyLocks, k)} ::
                    Count(readonlyLocks, k) == Count(old(readonlyLocks), k) - multiset(tx.readonly[..i])[k]
      {
        assert tx.readonly[..i + 1] == tx.readonly[..i] + [tx.readonly[i]];
        assert tx.readonly == tx.readonly[..i + 1] + tx.readonly[i + 1..];
        assert Count(readonlyLocks, tx.readonly[i]) > 0;
        ghost var before := readonlyLocks;
        UnlockReadonly(tx.readonly[i]);
        assert forall k {:trigger Count(readonlyLocks, k)} ::
            Count(readonlyLocks, k) == Count(before, k) - if k == tx.readonly[i] then 1 else 0;
        i := i + 1;
      }
      assert tx.readonly[..|tx.readonly|] == tx.readonly;
    }

    /** Gives back the locks of a transaction that holds them. */
    method UnlockAccount(tx: Transaction, ghost id: nat)
      requires Valid() && id in held && held[id] == tx
      modifies this
      ensures Valid() && held == old(held) - {id}
    {
      forall k: Pubkey ensures Count(readonlyLocks, k) >= multiset(tx.readonly)[k] { HolderCounts(held, id, k); }
      Leave(tx);
      held := held - {id};
      HolderRemoved(old(held), id, old(writeLocks), old(readonlyLocks), writeLocks, readonlyLocks);
    }
  }

  lemma {:induction false} HolderCounts(held: Held, id: nat, k: Pubkey)
    requires id in held
    ensures |Readers(held, k)| == |Readers(held - {id}, k)| + multiset(held[id].readonly)[k]
  {
    assert (held - {id})[id := held[id]] == held;
    AddHolder(held - {id}, id, held[id], k);
  }

  // ---------- batches ----------

  type Batch = seq<Result<Transaction, TransactionError>>
  type Outcome = seq<Result<(), TransactionError>>

  /** Entry `i` of the batch got its locks, under handle `ids[i]`. */
  ghost predicate Took(batch: Batch, results: Outcome, ids: seq<nat>, i: int, id: nat) {
    && 0 <= i < |results| && |results| == |ids| <= |batch|
    && results[i].Ok? && batch[i].Ok? && ids[i] == id
  }

  /** What is held is what was held before and what the batch took, under new and different handles. */
  ghost predicate Holding(before: Held, held: Held, batch: Batch, results: Outcome, ids: seq<nat>) {
    && |results| == |ids| <= |batch| && (forall i :: 0 <= i < |results| && results[i].Ok? ==> batch[i].Ok?)
    && (forall id :: id in before ==> id in held && held[id] == before[id])
    && (forall id :: id in held ==> id in before || exists i :: Took(batch, results, ids, i, id))
    && (forall i, id :: Took(batch, results, ids, i, id) ==> id !in before && id in held && held[id] == batch[i].value)
    && (forall i, j, id :: Took(batch, results, ids, i, id) && Took(batch, results, ids, j, id) ==> i == j)
  }

  /** Entry `i` gets its locks exactly if it conflicts with nothing held before and nothing the batch took before it. */
  ghost predicate Admission(before: Held, batch: Batch, results: Outcome, i: int)
    requires 0 <= i < |results| <= |batch| && forall j :: 0 <= j < |results| && results[j].Ok? ==> batch[j].Ok?
  {
    match batch[i]
    case Err(e) => results[i] == Err(e)
    case Ok(tx) =>
      && (results[i].Err? ==> results[i].error == AccountInUse)
      && (results[i].Ok? <==>
            && (forall id :: id in before ==> !Conflict(tx, before[id]))
            && (forall j :: 0 <= j < i && results[j].Ok? ==> !Conflict(tx, batch[j].value)))
  }

  /** A batch, entry by entry. */
  method LockAccounts(locks: AccountLocks, batch: Batch) returns (results: Outcome, ghost ids: seq<nat>)
    requires locks.Valid()
    modifies locks
    ensures locks.Valid() && |results| == |batch|
    ensures Holding(old(locks.held), locks.held, batch, results, ids)
    ensures forall i :: 0 <= i < |batch| ==> Admission(old(locks.held), batch, results, i)
  {
    results, ids := [], [];
    while |results| < |batch|
      invariant locks.Valid() && |results| <= |batch|
      invariant Holding(old(locks.held), locks.held, batch, results, ids)
      invariant forall i :: 0 <= i < |results| ==> Admission(old(locks.held), batch, results, i)
    {
      ghost var before := locks.held;
      var r, id := LockEntry(locks, batch[|results|]);
      LockedOne(old(locks.held), before, locks.held, batch, results, ids, r, id);
      results, ids := results + [r], ids + [id];
    }
  }

  method LockEntry(locks: AccountLocks, entry: Result<Transaction, TransactionError>)
    returns (r: Result<(), TransactionError>, ghost id: nat)
    requires locks.Valid()
    modifies locks
    ensures locks.Valid()
    ensures r.Err? ==> locks.held == old(locks.held) && r.error == if entry.Ok? then AccountInUse else entry.error
    ensures r.Ok? ==> entry.Ok? && id !in old(locks.held) && locks.held == old(locks.held)[id := entry.value]
    ensures entry.Ok? ==>
              (r.Ok? <==> forall id :: id in old(locks.held) ==> !Conflict(entry.value, old(locks.held)[id]))
  {
    match entry
    case Ok(tx) => r, id := locks.LockAccount(tx);
    case Err(e) => r, id := Err(e), 0;
  }

  lemma {:induction false} LockedOne(before: Held, held: Held, held': Held, batch: Batch, results: Outcome,
                                     ids: seq<nat>, r: Result<(), TransactionError>, id: nat)
    requires |results| < |batch| && Holding(before, held, batch, results, ids)
    requires forall i :: 0 <= i < |results| ==> Admission(before, batch, results, i)
    requires var entry := batch[|results|];
             && (r.Err? ==> held' == held && r.error == if entry.Ok? then AccountInUse else entry.error)
             && (r.Ok? ==> entry.Ok? && id !in held && held' == held[id := entry.value])
             && (entry.Ok? ==> (r.Ok? <==> forall id :: id in held ==> !Conflict(entry.value, held[id])))
    ensures Holding(before, held', batch, results + [r], ids + [id])
    ensures forall i :: 0 <= i <= |results| ==> Admission(before, batch, results + [r], i)
  {
    var n := |results|;
    HoldingOne(before, held, held', batch, results, ids, r, id);
    forall i | 0 <= i < n ensures Admission(before, batch, results + [r], i) {
      assert Admission(before, batch, results, i);
    }
    AdmittedOne(before, held, batch, results, ids, r);
  }

  lemma {:induction false} HoldingOne(before: Held, held: Held, held': Held, batch: Batch, results: Outcome,
                                      ids: seq<nat>, r: Result<(), TransactionError>, id: nat)
    requires |results| < |batch| && Holding(before, held, batch, results, ids)
    requires r.Err? ==> held' == held
    requires r.Ok? ==> batch[|results|].Ok? && id !in held && held' == held[id := batch[|results|].value]
    ensures Holding(before, held', batch, results + [r], ids + [id])
  {
    var rs, hs := results + [r], ids + [id];
    forall i, x | Took(batch, rs, hs, i, x)
      ensures if i < |results| then Took(batch, results, ids, i, x) else x == id && r.Ok?
    {
    }
    forall x | x in held' && x !in before ensures exists i :: Took(batch, rs, hs, i, x) {
      if x in held {
        var i :| Took(batch, results, ids, i, x);
        assert Took(batch, rs, hs, i, x);
      } else {
        assert Took(batch, rs, hs, |results|, x);
      }
    }
  }

  lemma {:induction false} AdmittedOne(before: Held, held: Held, batch: Batch, results: Outcome, ids: seq<nat>,
                    r: Result<(), TransactionError>)
    requires |results| < |batch| && Holding(before, held, batch, results, ids) && (r.Ok? ==> batch[|results|].Ok?)
    requires var entry := batch[|results|];
             && (r.Err? ==> r.error == if entry.Ok? then AccountInUse else entry.error)
             && (entry.Ok? ==> (r.Ok? <==> forall id :: id in held ==> !Conflict(entry.value, held[id])))
    ensures Admission(before, batch, results + [r], |results|)
  {
    var n, rs := |results|, results + [r];
    if batch[n].Ok? {
      var tx := batch[n].value;
      if r.Ok? {
        forall j | 0 <= j < n && rs[j].Ok? ensures !Conflict(tx, batch[j].value) {
          assert Took(batch, results, ids, j, ids[j]);
        }
      } else {
        var id :| id in held && Conflict(tx, held[id]);
        if id !in before {
          var j :| Took(batch, results, ids, j, id);
          assert rs[j].Ok? && Conflict(tx, batch[j].value);
        }
      }
    }
  }

  /** The batch still holds what it took, whatever else was locked or unlocked since. */
  ghost predicate StillHeld(held: Held, batch: Batch, results: Outcome, ids: seq<nat>) {
    && |results| == |ids| <= |batch| && (forall i :: 0 <= i < |results| && results[i].Ok? ==> batch[i].Ok?)
    && (forall i, id :: Took(batch, results, ids, i, id) ==> id in held && held[id] == batch[i].value)
    && (forall i, j, id :: Took(batch, results, ids, i, id) && Took(batch, results, ids, j, id) ==> i == j)
  }

  /** The handles of the first `n` entries that got their locks. */
  ghost function Handles(results: Outcome, ids: seq<nat>, n: nat): set<nat>
    requires n <= |results| == |ids|
  {
    set i | 0 <= i < n && results[i].Ok? :: ids[i]
  }

  /** Gives back exactly what the batch took. */
  method UnlockAccounts(locks: AccountLocks, batch: Batch, results: Outcome, ghost ids: seq<nat>)
    requires locks.Valid() && StillHeld(locks.held, batch, results, ids)
    modifies locks
    ensures locks.Valid() && locks.held == old(locks.held) - Handles(results, ids, |results|)
  {
    var i := 0;
    while i < |results|
      invariant i <= |results| && locks.Valid()
      invariant locks.held == old(locks.held) - Handles(results, ids, i)
    {
      if results[i].Ok? {
        assert Took(batch, results, ids, i, ids[i]);
        forall j | 0 <= j < i && results[j].Ok? ensures ids[j] != ids[i] {
          assert Took(batch, results, ids, j, ids[j]);
        }
        locks.UnlockAccount(batch[i].value, ids[i]);
      }
      assert Handles(results, ids, i + 1) == Handles(results, ids, i) + if results[i].Ok? then {ids[i]} else {};
      i := i + 1;
    }
  }

  lemma {:induction false} HoldingIsStillHeld(before: Held, held: Held, batch: Batch, results: Outcome, ids: seq<nat>)
    requires Holding(before, held, batch, results, ids)
    ensures StillHeld(held, batch, results, ids) && held - Handles(results, ids, |results|) == before
  {
    var taken := Handles(results, ids, |results|);
    forall id | id in taken ensures id !in before {
      var i :| 0 <= i < |results| && results[i].Ok? && ids[i] == id;
      assert Took(batch, results, ids, i, id);
    }
    forall id | id in held && id !in before ensures id in taken {
      var i :| Took(batch, results, ids, i, id);
      assert ids[i] in taken;
    }
  }

  /** Locking a batch and unlocking it with its own results restores the table. */
  method LockAndUnlock(locks: AccountLocks, batch: Batch) returns (results: Outcome)
    requires locks.Valid()
    modifies locks
    ensures locks.Valid() && locks.held == old(locks.held)
    ensures locks.writeLocks == old(locks.writeLocks) && locks.readonlyLocks == old(locks.readonlyLocks)
  {
    ghost var ids;
    results, ids := LockAccounts(locks, batch);
    HoldingIsStillHeld(old(locks.held), locks.held, batch, results, ids);
    UnlockAccounts(locks, batch, results, ids);
    TableIsUnique(old(locks.readonlyLocks), locks.readonlyLocks, locks.held);
  }

  /** A key both write-locked and read-locked is a key one holder has both ways. */
  lemma {:induction false} LockedBothWays(writeLocks: set<Pubkey>, readonlyLocks: map<Pubkey, nat>, held: Held,
                                          k: Pubkey)
    requires writeLocks == WriteKeys(held) && CountsHolders(readonlyLocks, held) && Compatible(held)
    ensures k in writeLocks && k in readonlyLocks <==>
            exists id :: id in held && k in held[id].writable && k in held[id].readonly
  {
    ShownInTable(writeLocks, readonlyLocks, held, k);
    if k in writeLocks && k in readonlyLocks {
      var id :| id in held && k in held[id].writable;
      var other :| other in held && k in held[other].readonly;
      assert id != other ==> Conflict(held[id], held[other]);
    }
  }

  /** Write-locked and read-locked keys are disjoint exactly if no holder has a key both ways. */
  lemma {:induction false} LocksAreExclusive(writeLocks: set<Pubkey>, readonlyLocks: map<Pubkey, nat>, held: Held)
    requires writeLocks == WriteKeys(held) && CountsHolders(readonlyLocks, held) && Compatible(held)
    ensures writeLocks !! readonlyLocks.Keys <==> forall id :: id in held ==> KeepsApart(held[id])
  {
    if k :| k in writeLocks && k in readonlyLocks {
      LockedBothWays(writeLocks, readonlyLocks, held, k);
      var id :| id in held && k in held[id].writable && k in held[id].readonly;
      assert !KeepsApart(held[id]);
    }
    if id :| id in held && !KeepsApart(held[id]) {
      var k :| k in held[id].writable && k in held[id].readonly;
      LockedBothWays(writeLocks, readonlyLocks, held, k);
      assert k in writeLocks * readonlyLocks.Keys;
    }
  }

  lemma {:induction false} HoldersAdded(held: Held, id: nat, tx: Transaction, w: set<Pubkey>, r: map<Pubkey, nat>,
                     w': set<Pubkey>, r': map<Pubkey, nat>)
    requires id !in held && w == WriteKeys(held) && CountsHolders(r, held) && NoneZero(r')
    requires forall k :: k in w' <==> k in w || k in tx.writable
    requires forall k {:trigger Count(r', k)} :: Count(r', k) == Count(r, k) + multiset(tx.readonly)[k]
    ensures w' == WriteKeys(held[id := tx]) && CountsHolders(r', held[id := tx])
  {
    forall k: Pubkey ensures k in w' <==> k in WriteKeys(held[id := tx]) { AddHolder(held, id, tx, k); }
    forall k: Pubkey ensures Count(r', k) == |Readers(held[id := tx], k)| {
      AddHolder(held, id, tx, k);
      assert Count(r, k) == |Readers(held, k)|;
    }
  }

  lemma {:induction false} HolderRemoved(held: Held, id: nat, w: set<Pubkey>, r: map<Pubkey, nat>, w': set<Pubkey>,
                                         r': map<Pubkey, nat>)
    requires id in held && w == WriteKeys(held) && CountsHolders(r, held) && Compatible(held) && NoneZero(r')
    requires forall k :: k in w' <==> k in w && k !in held[id].writable
    requires forall k {:trigger Count(r', k)} :: Count(r', k) == Count(r, k) - multiset(held[id].readonly)[k]
    ensures w' == WriteKeys(held - {id}) && CountsHolders(r', held - {id})
  {
    var rest, tx := held - {id}, held[id];
    assert rest[id := tx] == held;
    forall k: Pubkey ensures k in w' <==> k in WriteKeys(rest) {
      AddHolder(rest, id, tx, k);
      if k in tx.writable && k in WriteKeys(rest) {
        var other :| other in rest && k in rest[other].writable;
        assert Conflict(held[id], held[other]);
      }
    }
    forall k: Pubkey ensures Count(r', k) == |Readers(rest, k)| {
      AddHolder(rest, id, tx, k);
      assert Count(r, k) == |Readers(held, k)|;
    }
  }

  ghost function Fresh(ids: set<nat>): (id: nat)
    ensures id !in ids
  {
    SomeFresh(ids);
    var id :| id !in ids;
    id
  }

  lemma {:induction false} SomeFresh(ids: set<nat>)
    ensures exists bound :: bound !in ids && forall id :: id in ids ==> id < bound
  {
    if ids == {} {
      assert 0 !in ids;
    } else {
      var x :| x in ids;
      SomeFresh(ids - {x});
      var b :| b !in ids - {x} && forall id :: id in ids - {x} ==> id < b;
      var bound := if x < b then b else x + 1;
      assert forall id :: id in ids ==> id == x || id in ids - {x};
      assert bound !in ids;
    }
  }
}
