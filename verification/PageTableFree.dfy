/**
 * The reference counts while a user page table is freed
 * (`free_user_page_table` in kernel/src/memory/virtual.rs).
 */
module PageTableFree {
  import opened PageTree

  function One(b: bool): nat {
    if b then 1 else 0
  }

  /** How many references the table `t` holds on frame `f`: its leaf slots, and one if `f` is one of its tables. */
  ghost function Holds(k: set<nat>, ram: Ram, level: nat, t: nat, f: nat): nat
    requires Shape(k, ram, level, t)
  {
    Leaves(k, ram, level, t, f) + One(f in Tables(k, ram, level, t))
  }

  /** Every reference the table holds is counted. */
  ghost predicate Owned(k: set<nat>, ram: Ram, refs: seq<nat>, level: nat, t: nat) {
    && Tree(k, ram, level, t)
    && forall f: nat :: 0 < Holds(k, ram, level, t, f) ==> f < |refs| && Holds(k, ram, level, t, f) <= refs[f]
  }

  ghost function BelowFirst(k: set<nat>, ram: Ram, level: nat, t: nat, n: nat): set<nat>
    requires Shape(k, ram, level, t)
  {
    set i: nat, f | i < n && f in Below(k, ram, level, t, i) :: f
  }

  /** The references held under the first `n` slots have been dropped. */
  ghost predicate Dropped(k: set<nat>, ram: Ram, oldRefs: seq<nat>, refs: seq<nat>, level: nat, t: nat, n: nat)
    requires Shape(k, ram, level, t)
  {
    && |refs| == |oldRefs|
    && forall f: nat :: f < |refs| ==>
         refs[f] + Count(k, ram, level, t, n, f) + One(f in BelowFirst(k, ram, level, t, n)) == oldRefs[f]
  }

  lemma DropStart(k: set<nat>, ram: Ram, refs: seq<nat>, level: nat, t: nat)
    requires Shape(k, ram, level, t)
    ensures Dropped(k, ram, refs, refs, level, t, 0)
  {
    assert BelowFirst(k, ram, level, t, 0) == {};
  }

  lemma BelowNext(k: set<nat>, ram: Ram, level: nat, t: nat, n: nat)
    requires Tree(k, ram, level, t) && n < ENTRIES
    ensures BelowFirst(k, ram, level, t, n + 1) == BelowFirst(k, ram, level, t, n) + Below(k, ram, level, t, n)
    ensures BelowFirst(k, ram, level, t, n) !! Below(k, ram, level, t, n)
    ensures Below(k, ram, level, t, n) <= Tables(k, ram, level, t)
    ensures t !in Below(k, ram, level, t, n)
  {
    var a, b, c := BelowFirst(k, ram, level, t, n), Below(k, ram, level, t, n), BelowFirst(k, ram, level, t, n + 1);
    assert forall x :: x in b ==> x in c;
    forall x | x in c ensures x in a + b {
      var i: nat :| i < n + 1 && x in Below(k, ram, level, t, i);
    }
    SubTables(k, ram, level, t, n);
  }

  /** The references held under slot `n` alone. */
  ghost function SlotHolds(k: set<nat>, ram: Ram, level: nat, t: nat, n: nat, f: nat): nat
    requires Shape(k, ram, level, t)
  {
    SlotCount(k, ram, level, t, n, f) + One(f in Below(k, ram, level, t, n))
  }

  /** They are still counted when the first `n` slots are done. */
  lemma SlotOwned(k: set<nat>, ram: Ram, oldRefs: seq<nat>, refs: seq<nat>, level: nat, t: nat, n: nat, f: nat)
    requires Owned(k, ram, oldRefs, level, t) && Dropped(k, ram, oldRefs, refs, level, t, n) && n < ENTRIES
    requires 0 < SlotHolds(k, ram, level, t, n, f)
    ensures f < |refs| && SlotHolds(k, ram, level, t, n, f) <= refs[f]
  {
    BelowNext(k, ram, level, t, n);
    CountMono(k, ram, level, t, n + 1, |ram[t]|, f);
    assert Count(k, ram, level, t, n, f) + SlotCount(k, ram, level, t, n, f) <= Leaves(k, ram, level, t, f);
    assert f in BelowFirst(k, ram, level, t, n) ==> f in Tables(k, ram, level, t);
    assert 0 < Holds(k, ram, level, t, f);
  }

  lemma DropSlot(k: set<nat>, ram: Ram, oldRefs: seq<nat>, refs: seq<nat>, refs2: seq<nat>, level: nat, t: nat, n: nat)
    requires Owned(k, ram, oldRefs, level, t) && Dropped(k, ram, oldRefs, refs, level, t, n) && n < ENTRIES
    requires |refs2| == |refs|
    requires forall f: nat :: f < |refs| ==> refs2[f] + SlotHolds(k, ram, level, t, n, f) == refs[f]
    ensures Dropped(k, ram, oldRefs, refs2, level, t, n + 1)
  {
    var m := n + 1;
    BelowNext(k, ram, level, t, n);
    forall f: nat | f < |refs2|
      ensures refs2[f] + Count(k, ram, level, t, m, f) + One(f in BelowFirst(k, ram, level, t, m)) == oldRefs[f]
    {
      assert refs2[f] + SlotHolds(k, ram, level, t, n, f) == refs[f];
    }
  }

  /** The last step drops the table itself. */
  lemma DropRoot(k: set<nat>, ram: Ram, oldRefs: seq<nat>, refs: seq<nat>, level: nat, t: nat)
    requires Owned(k, ram, oldRefs, level, t) && Dropped(k, ram, oldRefs, refs, level, t, |ram[t]|)
    ensures t < |refs| && 1 <= refs[t]
    ensures forall f: nat :: f < |refs| ==>
              refs[t := refs[t] - 1][f] + Holds(k, ram, level, t, f) == oldRefs[f]
  {
    var all := BelowFirst(k, ram, level, t, |ram[t]|);
    assert Tables(k, ram, level, t) == {t} + all;
    assert t !in all;
    assert 0 < Holds(k, ram, level, t, t);
  }

  /** Slot `n` holds a leaf: one reference. */
  lemma LeafHolds(k: set<nat>, ram: Ram, t: nat, n: nat, f: nat)
    requires Shape(k, ram, 1, t) && n < ENTRIES && Good(ram[t][n])
    ensures SlotHolds(k, ram, 1, t, n, f) == One(f == ram[t][n].frame)
  {
  }

  /** Slot `n` holds a table: everything that table holds. */
  lemma DirectoryHolds(k: set<nat>, ram: Ram, level: nat, t: nat, n: nat, f: nat)
    requires Shape(k, ram, level, t) && 1 < level && n < ENTRIES && Descends(k, ram, level, t, n)
    ensures SlotHolds(k, ram, level, t, n, f) == Holds(k, ram, level - 1, ram[t][n].frame, f)
  {
  }

  lemma NothingHolds(k: set<nat>, ram: Ram, level: nat, t: nat, n: nat, f: nat)
    requires Shape(k, ram, level, t) && n < ENTRIES && !Descends(k, ram, level, t, n)
    ensures SlotHolds(k, ram, level, t, n, f) == 0
  {
  }
}
