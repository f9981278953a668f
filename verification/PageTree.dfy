/**
 * Four-level page tables as values: what a root in physical memory maps, which
 * frames hold its tables and how often each frame is a leaf
 * (kernel/src/memory/virtual.rs).
 */
module PageTree {
  import opened Wrappers

  const ENTRIES: nat := 512

  /** A page table entry; `rest` stands for the flag bits that are only copied. */
  datatype Pte = Pte(frame: nat, present: bool, writable: bool, cow: bool, huge: bool, rest: nat)

  /** `is_unused`: the raw entry is zero. */
  const UNUSED: Pte := Pte(0, false, false, false, false, 0)

  /** `frame()` succeeds. */
  predicate Good(e: Pte) {
    e.present && !e.huge
  }

  /** The contents of the frames that are, or once were, page tables. */
  type Ram = map<nat, seq<Pte>>

  /** `is_kernel_pml4_entry`, for the lower-half mask `k`. */
  predicate IsKernelEntry(k: set<nat>, i: nat) {
    i != 0 && (256 <= i || i in k)
  }

  /** The slots that clone and free visit: at level 4 only the user half, below it all. */
  predicate UserSlot(k: set<nat>, level: nat, i: nat) {
    level == 4 ==> !IsKernelEntry(k, i)
  }

  predicate Descends(k: set<nat>, ram: Ram, level: nat, t: nat, i: nat) {
    t in ram && i < |ram[t]| && UserSlot(k, level, i) && Good(ram[t][i])
  }

  ghost predicate Shape(k: set<nat>, ram: Ram, level: nat, t: nat)
    decreases level
  {
    && t in ram && |ram[t]| == ENTRIES
    && (1 < level ==>
          forall i: nat :: Descends(k, ram, level, t, i) ==> Shape(k, ram, level - 1, ram[t][i].frame))
  }

  /** The frames that hold the tables below slot `i` of `t`. */
  ghost function Below(k: set<nat>, ram: Ram, level: nat, t: nat, i: nat): set<nat>
    requires Shape(k, ram, level, t)
    decreases level, 0
  {
    if 1 < level && Descends(k, ram, level, t, i) then Tables(k, ram, level - 1, ram[t][i].frame) else {}
  }

  /** The frames that hold the tables below and including `t`. */
  ghost function Tables(k: set<nat>, ram: Ram, level: nat, t: nat): set<nat>
    requires Shape(k, ram, level, t)
    decreases level, 1
  {
    {t} + set i: nat, f | i < ENTRIES && f in Below(k, ram, level, t, i) :: f
  }

  /** No table frame is used twice. */
  ghost predicate Tree(k: set<nat>, ram: Ram, level: nat, t: nat)
    decreases level
  {
    && Shape(k, ram, level, t)
    && (1 < level ==>
          forall i: nat :: Descends(k, ram, level, t, i) ==> Tree(k, ram, level - 1, ram[t][i].frame))
    && (forall i: nat :: t !in Below(k, ram, level, t, i))
    && (forall i: nat, j: nat :: i != j ==> Below(k, ram, level, t, i) !! Below(k, ram, level, t, j))
  }

  /** How many leaf slots under slot `i` of `t` hold frame `f`. */
  ghost function SlotCount(k: set<nat>, ram: Ram, level: nat, t: nat, i: nat, f: nat): nat
    requires Shape(k, ram, level, t)
    decreases level, 0
  {
    if !Descends(k, ram, level, t, i) then 0
    else if level <= 1 then (if ram[t][i].frame == f then 1 else 0)
    else Leaves(k, ram, level - 1, ram[t][i].frame, f)
  }

  /** How many leaf slots under `t` hold frame `f`. */
  ghost function Leaves(k: set<nat>, ram: Ram, level: nat, t: nat, f: nat): nat
    requires Shape(k, ram, level, t)
    decreases level, |ram[t]| + 2
  {
    Count(k, ram, level, t, |ram[t]|, f)
  }

  /** How many leaf slots under the first `n` slots of `t` hold frame `f`. */
  ghost function Count(k: set<nat>, ram: Ram, level: nat, t: nat, n: nat, f: nat): nat
    requires Shape(k, ram, level, t)
    decreases level, n + 1
  {
    if n == 0 then 0
    else Count(k, ram, level, t, n - 1, f) + SlotCount(k, ram, level, t, n - 1, f)
  }

  /** The tables agree on everything but the writable, COW and copied flags. */
  ghost predicate Similar(a: seq<Pte>, b: seq<Pte>) {
    && |a| == |b|
    && forall i :: 0 <= i < |a| ==> a[i].frame == b[i].frame && a[i].present == b[i].present && a[i].huge == b[i].huge
  }

  ghost predicate SimilarOn(dom: set<nat>, a: Ram, b: Ram) {
    forall x :: x in dom ==> x in a && x in b && Similar(a[x], b[x])
  }

  ghost predicate EqualOn(dom: set<nat>, a: Ram, b: Ram) {
    forall x :: x in dom ==> x in a && x in b && a[x] == b[x]
  }

  lemma SubTables(k: set<nat>, ram: Ram, level: nat, t: nat, i: nat)
    requires Shape(k, ram, level, t)
    ensures Below(k, ram, level, t, i) <= Tables(k, ram, level, t)
  {
  }

  /** The tree below `t` depends only on its own tables, and not on their flags. */
  lemma {:induction false} TreeFrame(k: set<nat>, a: Ram, b: Ram, level: nat, t: nat)
    requires Shape(k, a, level, t) && SimilarOn(Tables(k, a, level, t), a, b)
    ensures Shape(k, b, level, t) && Tables(k, b, level, t) == Tables(k, a, level, t)
    ensures Tree(k, a, level, t) ==> Tree(k, b, level, t)
    decreases level
  {
    assert forall i: nat :: Descends(k, a, level, t, i) <==> Descends(k, b, level, t, i);
    if 1 < level {
      forall i: nat | Descends(k, a, level, t, i)
        ensures Shape(k, b, level - 1, b[t][i].frame)
        ensures Tables(k, b, level - 1, b[t][i].frame) == Tables(k, a, level - 1, a[t][i].frame)
        ensures Tree(k, a, level - 1, a[t][i].frame) ==> Tree(k, b, level - 1, b[t][i].frame)
      {
        SubTables(k, a, level, t, i);
        TreeFrame(k, a, b, level - 1, a[t][i].frame);
      }
    }
    assert forall i: nat :: Below(k, b, level, t, i) == Below(k, a, level, t, i);
  }

  lemma {:induction false} CountFrame(k: set<nat>, a: Ram, b: Ram, level: nat, t: nat, n: nat, f: nat)
    requires Shape(k, a, level, t) && SimilarOn(Tables(k, a, level, t), a, b) && n <= ENTRIES
    requires Shape(k, b, level, t)
    ensures Count(k, b, level, t, n, f) == Count(k, a, level, t, n, f)
    decreases level, n
  {
    if n != 0 {
      CountFrame(k, a, b, level, t, n - 1, f);
      if Descends(k, a, level, t, n - 1) && 1 < level {
        SubTables(k, a, level, t, n - 1);
        var u := a[t][n - 1].frame;
        TreeFrame(k, a, b, level - 1, u);
        CountFrame(k, a, b, level - 1, u, |a[u]|, f);
        assert Leaves(k, b, level - 1, u, f) == Leaves(k, a, level - 1, u, f);
      }
    }
  }

  /** Counts agree when the slots do. */
  lemma {:induction false} CountSlots(k: set<nat>, a: Ram, b: Ram, level: nat, t: nat, u: nat, n: nat, f: nat)
    requires Shape(k, a, level, t) && Shape(k, b, level, u)
    requires forall i: nat :: i < n ==> SlotCount(k, a, level, t, i, f) == SlotCount(k, b, level, u, i, f)
    ensures Count(k, a, level, t, n, f) == Count(k, b, level, u, n, f)
  {
    if n != 0 {
      CountSlots(k, a, b, level, t, u, n - 1, f);
    }
  }

  /** Filling the empty slot `i` adds exactly its own leaves. */
  lemma {:induction false} CountFill(k: set<nat>, a: Ram, b: Ram, level: nat, t: nat, i: nat, n: nat, f: nat)
    requires Shape(k, a, level, t) && Shape(k, b, level, t) && i < n
    requires SlotCount(k, a, level, t, i, f) == 0
    requires forall j: nat :: j < n && j != i ==> SlotCount(k, a, level, t, j, f) == SlotCount(k, b, level, t, j, f)
    ensures Count(k, b, level, t, n, f) == Count(k, a, level, t, n, f) + SlotCount(k, b, level, t, i, f)
  {
    if n - 1 == i {
      CountSlots(k, a, b, level, t, t, i, f);
    } else {
      CountFill(k, a, b, level, t, i, n - 1, f);
    }
  }

  lemma {:induction false} CountMono(k: set<nat>, ram: Ram, level: nat, t: nat, m: nat, n: nat, f: nat)
    requires Shape(k, ram, level, t) && m <= n
    ensures Count(k, ram, level, t, m, f) <= Count(k, ram, level, t, n, f)
    decreases n
  {
    if m < n {
      CountMono(k, ram, level, t, m, n - 1, f);
    }
  }

  /** Read the entry that maps the page at `path`: one slot index per level, from the root down. */
  ghost function Lookup(k: set<nat>, ram: Ram, level: nat, t: nat, path: seq<nat>): Option<Pte>
    requires 1 <= level && |path| == level
    decreases level
  {
    if !Descends(k, ram, level, t, path[0]) then None
    else if level == 1 then Some(ram[t][path[0]])
    else Lookup(k, ram, level - 1, ram[t][path[0]].frame, path[1..])
  }
}
