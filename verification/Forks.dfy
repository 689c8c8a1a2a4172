/**
 The banks of a validator as a tree: a new bank is made from a parent, the root moves to a
 descendant, forks that are abandoned are removed. Every bank keeps the set of ancestor slots it
 was made with. The facts proved here are the ones a scan relies on when it decides whether to use
 the ancestors it was given.
 */
module Forks {
  import opened Common

  type BankId = nat

  /** `lineage` is the bank itself and all banks it descends from. */
  datatype Bank = Bank(slot: Slot, frozen: bool, ancestors: set<Slot>, lineage: set<BankId>)

  datatype Tree = Tree(banks: map<BankId, Bank>, removed: set<BankId>, root: BankId)

  ghost predicate Live(t: Tree, b: BankId) {
    b in t.banks && b !in t.removed
  }

  function RootSlot(t: Tree): Slot
    requires t.root in t.banks
  {
    t.banks[t.root].slot
  }

  /** `b` descends from the root, or is it. */
  ghost predicate OnRoot(t: Tree, b: BankId)
    requires b in t.banks
  {
    t.root in t.banks[b].lineage
  }

  // ---------- the invariant ----------

  /** Some bank of `lineage` is at slot `a`. */
  ghost predicate AtSlot(t: Tree, lineage: set<BankId>, a: Slot) {
    exists x :: x in lineage && x in t.banks && t.banks[x].slot == a
  }

  ghost predicate BankOk(t: Tree, b: BankId)
    requires b in t.banks
  {
    var bank := t.banks[b];
    && b in bank.lineage && bank.lineage <= t.banks.Keys
    && (forall x :: x in bank.lineage && x != b ==> t.banks[x].slot < bank.slot && t.banks[x].frozen)
    && (forall a {:trigger AtSlot(t, bank.lineage, a)} :: a in bank.ancestors ==> AtSlot(t, bank.lineage, a))
  }

  /** Going back from a bank gives the same banks whichever descendant one starts from. */
  ghost predicate Nested(t: Tree, b: BankId, x: BankId)
    requires b in t.banks && x in t.banks
  {
    forall y :: y in t.banks[x].lineage <==>
                y in t.banks[b].lineage && y in t.banks && t.banks[y].slot <= t.banks[x].slot
  }

  /** A descendant of the root has in its ancestors every slot of its lineage from the root on. */
  ghost predicate SeesSinceRoot(t: Tree, b: BankId)
    requires b in t.banks && t.root in t.banks
  {
    OnRoot(t, b) ==> forall x :: x in t.banks[b].lineage && x in t.banks && t.banks[x].slot >= RootSlot(t) ==>
      t.banks[x].slot in t.banks[b].ancestors
  }

  /** A live bank has no removed bank in its lineage and shares its slot with no other live bank. */
  ghost predicate LiveOk(t: Tree, b: BankId)
    requires b in t.banks
  {
    && (forall x :: x in t.banks[b].lineage ==> x !in t.removed)
    && (forall c :: Live(t, c) && t.banks[c].slot == t.banks[b].slot ==> c == b)
  }

  ghost predicate Inv(t: Tree) {
    && Live(t, t.root) && t.banks[t.root].frozen
    && (forall b {:trigger BankOk(t, b)} :: b in t.banks ==> BankOk(t, b))
    && (forall b, x {:trigger Nested(t, b, x)} :: b in t.banks && x in t.banks && x in t.banks[b].lineage ==>
          Nested(t, b, x))
    && (forall b {:trigger SeesSinceRoot(t, b)} :: b in t.banks ==> SeesSinceRoot(t, b))
    && (forall b {:trigger LiveOk(t, b)} :: Live(t, b) ==> LiveOk(t, b))
  }

  // ---------- the steps ----------

  /** A new unfrozen bank on a live descendant of the root; the parent is frozen. */
  ghost predicate NewBank(t: Tree, t': Tree, b: BankId, parent: BankId, slot: Slot, ancestors: set<Slot>) {
    && b !in t.banks && Live(t, parent) && OnRoot(t, parent) && slot > t.banks[parent].slot
    && (forall c :: Live(t, c) ==> t.banks[c].slot != slot)
    && (forall x :: x in t.banks[parent].lineage && x in t.banks && t.root in t.banks &&
                    t.banks[x].slot >= RootSlot(t) ==>
          t.banks[x].slot in ancestors)
    && slot in ancestors
    && (forall a {:trigger AtSlot(t, t.banks[parent].lineage, a)} :: a in ancestors && a != slot ==>
          AtSlot(t, t.banks[parent].lineage, a))
    && t' == t.(banks := t.banks[parent := t.banks[parent].(frozen := true)]
                            [b := Bank(slot, false, ancestors, t.banks[parent].lineage + {b})])
  }

  ghost predicate Freeze(t: Tree, t': Tree, b: BankId) {
    Live(t, b) && t' == t.(banks := t.banks[b := t.banks[b].(frozen := true)])
  }

  /** The root moves one bank down a live fork; squashing also freezes the new root. */
  ghost predicate MoveRoot(t: Tree, t': Tree, b: BankId) {
    && Live(t, b) && OnRoot(t, b) && t.root in t.banks
    && (forall x :: x in t.banks[b].lineage && x in t.banks && t.banks[x].slot > RootSlot(t) ==>
          t.banks[x].slot >= t.banks[b].slot)
    && t' == t.(root := b, banks := t.banks[b := t.banks[b].(frozen := true)])
  }

  /** Abandoned banks are removed with everything that descends from them; rooted banks never are. */
  ghost predicate Remove(t: Tree, t': Tree, bs: set<BankId>) {
    && bs <= t.banks.Keys && t.root in t.banks && bs !! t.banks[t.root].lineage
    && (forall b, x :: b in t.banks && x in t.banks[b].lineage && x in bs ==> b in bs + t.removed)
    && t' == t.(removed := t.removed + bs)
  }

  // ---------- preservation ----------

  lemma {:induction false} NewBankKeeps(t: Tree, t': Tree, b: BankId, parent: BankId, slot: Slot, ancestors: set<Slot>)
    requires Inv(t) && NewBank(t, t', b, parent, slot, ancestors)
    ensures Inv(t')
  {
    assert BankOk(t, parent) && LiveOk(t, parent);
    forall c | c in t'.banks ensures BankOk(t', c) {
      if c != b { OldBankOk(t, t', c); } else { NewBankOk(t, t', b, parent, slot, ancestors); }
    }
    forall c, x | c in t'.banks && x in t'.banks && x in t'.banks[c].lineage ensures Nested(t', c, x) {
      NewNested(t, t', b, parent, slot, ancestors, c, x);
    }
    forall c | c in t'.banks ensures SeesSinceRoot(t', c) {
      if c != b { assert SeesSinceRoot(t, c) && BankOk(t, c); }
    }
    forall c | Live(t', c) ensures LiveOk(t', c) {
      NewLive(t, t', b, parent, slot, ancestors, c);
    }
  }

  lemma {:induction false} NewLive(t: Tree, t': Tree, b: BankId, parent: BankId, slot: Slot, ancestors: set<Slot>,
                                   c: BankId)
    requires Inv(t) && NewBank(t, t', b, parent, slot, ancestors) && Live(t', c)
    ensures LiveOk(t', c)
  {
    assert LiveOk(t, parent);
    if c != b {
      assert Live(t, c) && LiveOk(t, c);
    } else {
      assert b !in t.removed;
    }
  }

  /** Freezing banks and adding new ones leaves an old bank in order. */
  lemma {:induction false} OldBankOk(t: Tree, t': Tree, c: BankId)
    requires c in t.banks && BankOk(t, c) && t.banks.Keys <= t'.banks.Keys
    requires forall x :: x in t.banks ==> t'.banks[x] == t.banks[x] || t'.banks[x] == t.banks[x].(frozen := true)
    ensures BankOk(t', c)
  {
    forall a | a in t.banks[c].ancestors ensures AtSlot(t', t.banks[c].lineage, a) {
      assert AtSlot(t, t.banks[c].lineage, a);
    }
  }

  lemma {:induction false} NewBankOk(t: Tree, t': Tree, b: BankId, parent: BankId, slot: Slot, ancestors: set<Slot>)
    requires NewBank(t, t', b, parent, slot, ancestors) && BankOk(t, parent)
    ensures BankOk(t', b)
  {
    var lineage := t.banks[parent].lineage + {b};
    forall a | a in ancestors ensures AtSlot(t', lineage, a) {
      if a == slot {
        assert b in lineage && t'.banks[b].slot == a;
      } else {
        assert AtSlot(t, t.banks[parent].lineage, a);
        var x :| x in t.banks[parent].lineage && x in t.banks && t.banks[x].slot == a;
        assert x in lineage && t'.banks[x].slot == a;
      }
    }
  }

  lemma {:induction false} NewNested(t: Tree, t': Tree, b: BankId, parent: BankId, slot: Slot, ancestors: set<Slot>,
                                     c: BankId, x: BankId)
    requires Inv(t) && NewBank(t, t', b, parent, slot, ancestors)
    requires c in t'.banks && x in t'.banks && x in t'.banks[c].lineage
    ensures Nested(t', c, x)
  {
    assert BankOk(t, parent);
    if c != b {
      assert BankOk(t, c) && Nested(t, c, x);
    } else if x != b {
      assert Nested(t, parent, x);
    }
  }

  lemma {:induction false} FreezeKeeps(t: Tree, t': Tree, b: BankId)
    requires Inv(t) && Freeze(t, t', b)
    ensures Inv(t')
  {
    SameShape(t, t');
  }

  /** The tree with some more banks frozen. */
  lemma {:induction false} SameShape(t: Tree, t': Tree)
    requires Inv(t) && t'.removed == t.removed && t'.root == t.root && t'.banks.Keys == t.banks.Keys
    requires forall x :: x in t.banks ==> t'.banks[x] == t.banks[x] || t'.banks[x] == t.banks[x].(frozen := true)
    ensures Inv(t')
  {
    forall c | c in t'.banks ensures BankOk(t', c) { assert BankOk(t, c); OldBankOk(t, t', c); }
    forall c, x | c in t'.banks && x in t'.banks && x in t'.banks[c].lineage ensures Nested(t', c, x) {
      assert Nested(t, c, x);
    }
    forall c | c in t'.banks ensures SeesSinceRoot(t', c) { assert SeesSinceRoot(t, c); }
    forall c | Live(t', c) ensures LiveOk(t', c) { assert Live(t, c) && LiveOk(t, c); }
  }

  lemma {:induction false} MoveRootKeeps(t: Tree, t': Tree, b: BankId)
    requires Inv(t) && MoveRoot(t, t', b)
    ensures Inv(t')
  {
    var t1 := t.(banks := t'.banks);
    SameShape(t, t1);
    assert BankOk(t, b);
    forall c | c in t'.banks ensures BankOk(t', c) {
      assert BankOk(t1, c);
      OldBankOk(t1, t', c);
    }
    forall c, x | c in t'.banks && x in t'.banks && x in t'.banks[c].lineage ensures Nested(t', c, x) {
      assert Nested(t1, c, x);
    }
    forall c | c in t'.banks ensures SeesSinceRoot(t', c) {
      assert SeesSinceRoot(t1, c);
      if b in t.banks[c].lineage { assert Nested(t, c, b) && Nested(t, b, t.root); }
    }
    forall c | Live(t', c) ensures LiveOk(t', c) { assert Live(t1, c) && LiveOk(t1, c); }
  }

  lemma {:induction false} RemoveKeeps(t: Tree, t': Tree, bs: set<BankId>)
    requires Inv(t) && Remove(t, t', bs)
    ensures Inv(t')
  {
    assert BankOk(t, t.root);
    forall c | c in t'.banks ensures BankOk(t', c) { assert BankOk(t, c); OldBankOk(t, t', c); }
    forall c | c in t'.banks ensures SeesSinceRoot(t', c) { assert SeesSinceRoot(t, c); }
    forall c, x | c in t'.banks && x in t'.banks && x in t'.banks[c].lineage ensures Nested(t', c, x) {
      assert Nested(t, c, x);
    }
    forall c | Live(t', c) ensures LiveOk(t', c) { assert Live(t, c) && LiveOk(t, c); }
  }

  // ---------- what a scan relies on ----------

  /** Every bank descended from the root has the root's slot in its ancestors. */
  lemma {:induction false} DescendantsSeeRoot(t: Tree, b: BankId)
    requires Inv(t) && b in t.banks && OnRoot(t, b)
    ensures RootSlot(t) in t.banks[b].ancestors
  {
    assert BankOk(t, b) && SeesSinceRoot(t, b);
  }

  /** A live bank whose ancestors hold the root's slot descends from the root. */
  lemma {:induction false} SeesRootIsDescendant(t: Tree, b: BankId)
    requires Inv(t) && Live(t, b) && RootSlot(t) in t.banks[b].ancestors
    ensures OnRoot(t, b)
  {
    assert BankOk(t, b) && LiveOk(t, b) && LiveOk(t, t.root);
    assert AtSlot(t, t.banks[b].lineage, RootSlot(t));
    var x :| x in t.banks[b].lineage && x in t.banks && t.banks[x].slot == RootSlot(t);
    assert Live(t, x);
  }

  /** And then its ancestors up to the root's slot are all slots of the rooted lineage. */
  lemma {:induction false} OldAncestorsAreRooted(t: Tree, b: BankId, a: Slot)
    requires Inv(t) && Live(t, b) && RootSlot(t) in t.banks[b].ancestors
    requires a in t.banks[b].ancestors && a <= RootSlot(t)
    ensures AtSlot(t, t.banks[t.root].lineage, a)
  {
    SeesRootIsDescendant(t, b);
    assert BankOk(t, b) && Nested(t, b, t.root);
    assert AtSlot(t, t.banks[b].lineage, a);
    var x :| x in t.banks[b].lineage && x in t.banks && t.banks[x].slot == a;
    assert x in t.banks[t.root].lineage;
  }

  /** Nothing is written at a slot of the lineage of a live frozen bank. */
  lemma {:induction false} FrozenLineage(t: Tree, b: BankId, a: Slot, writer: BankId)
    requires Inv(t) && Live(t, b) && t.banks[b].frozen && AtSlot(t, t.banks[b].lineage, a)
    requires Live(t, writer) && !t.banks[writer].frozen
    ensures a != t.banks[writer].slot
  {
    assert BankOk(t, b) && LiveOk(t, b) && LiveOk(t, writer);
    var x :| x in t.banks[b].lineage && x in t.banks && t.banks[x].slot == a;
    assert Live(t, x);
  }
}
