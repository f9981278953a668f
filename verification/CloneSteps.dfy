/**
 * The clone of one user page table as a relation between memories, and the
 * lemmas that carry it across one slot (kernel/src/memory/virtual.rs).
 */
module CloneSteps {
  import opened PageTree
  import opened Regions

  /** What the clone of a leaf depends on besides the entry itself. */
  datatype Context = Context(kernelParent: bool, regions: seq<Region>)

  predicate InRegion(ctx: Context, v: nat) {
    exists i :: 0 <= i < |ctx.regions| && Covers(ctx.regions[i], v)
  }

  predicate IsShared(ctx: Context, v: nat) {
    exists i :: 0 <= i < |ctx.regions| && ctx.regions[i].attributes.isShared && Covers(ctx.regions[i], v)
  }

  /** The kernel's own root only passes on what its mapped regions cover. */
  predicate Copies(ctx: Context, v: nat) {
    ctx.kernelParent ==> InRegion(ctx, v)
  }

  /** What both parent and child hold after the clone of leaf entry `e` at address `v`. */
  function CowEntry(ctx: Context, e: Pte, v: nat): Pte {
    if (e.writable || e.cow) && !IsShared(ctx, v) then e.(writable := false, cow := true) else e
  }

  /** The bytes one slot of a level covers. */
  function Span(level: nat): nat {
    if level <= 1 then 4096 else 512 * Span(level - 1)
  }

  /** Clone the level-`level` table `p`, as it is in `ram` and `refs`, to `c`; it maps addresses from `base`. */
  datatype Job = Job(k: set<nat>, ctx: Context, ram: Ram, refs: seq<nat>, level: nat, p: nat, c: nat, base: nat)

  function SlotAddr(j: Job, i: nat): nat {
    j.base + i * Span(j.level)
  }

  /** The same clone one level down: from the table in slot `i` to the table `s`. */
  ghost function SubJob(j: Job, i: nat, s: nat): Job
    requires 1 < j.level && j.p in j.ram && i < |j.ram[j.p]|
  {
    j.(level := j.level - 1, p := j.ram[j.p][i].frame, c := s, base := SlotAddr(j, i))
  }

  /** Slot `i` of the parent has been cloned. */
  ghost predicate ClonedSlot(j: Job, ram: Ram, i: nat)
    decreases j.level, 0
  {
    && j.p in j.ram && j.p in ram && j.c in ram && i < |j.ram[j.p]| && i < |ram[j.p]| && i < |ram[j.c]|
    && var e := j.ram[j.p][i];
       var v := SlotAddr(j, i);
       if e == UNUSED then ram[j.p][i] == UNUSED && ram[j.c][i] == UNUSED
       else if j.level <= 1 then
         if Copies(j.ctx, v) then Good(e) && ram[j.p][i] == ram[j.c][i] == CowEntry(j.ctx, e, v)
         else ram[j.p][i] == e && ram[j.c][i] == UNUSED
       else
         && Good(e) && ram[j.p][i] == e && ram[j.c][i] == e.(frame := ram[j.c][i].frame)
         && Cloned(SubJob(j, i, ram[j.c][i].frame), ram)
  }

  ghost predicate Cloned(j: Job, ram: Ram)
    decreases j.level, 1
  {
    forall i: nat :: i < ENTRIES && UserSlot(j.k, j.level, i) ==> ClonedSlot(j, ram, i)
  }

  ghost predicate LiveFrame(refs: seq<nat>, x: nat) {
    x < |refs| && 1 <= refs[x]
  }

  /** Frame `f`, `more` times a leaf, is live and its u8 count can take one more reference for each time. */
  ghost predicate Fits(refs: seq<nat>, f: nat, more: nat) {
    0 < more ==> LiveFrame(refs, f) && refs[f] + more <= 255
  }

  /** What a clone starts from: a tree of live tables and leaves, and an empty live table to fill. */
  ghost predicate Ready(j: Job) {
    && Tree(j.k, j.ram, j.level, j.p)
    && (forall x :: x in Tables(j.k, j.ram, j.level, j.p) ==> LiveFrame(j.refs, x))
    && (forall f: nat :: Fits(j.refs, f, Leaves(j.k, j.ram, j.level, j.p, f)))
    && j.c in j.ram && |j.ram[j.c]| == ENTRIES && LiveFrame(j.refs, j.c)
    && j.c !in Tables(j.k, j.ram, j.level, j.p)
    && (forall i: nat :: i < ENTRIES && UserSlot(j.k, j.level, i) ==> j.ram[j.c][i] == UNUSED)
  }

  /**
   * Live tables outside parent and child are untouched, the parent only changed flags, the child is
   * a tree of new frames.
   */
  ghost predicate OnlyCloned(j: Job, ram: Ram)
    requires Shape(j.k, j.ram, j.level, j.p)
  {
    && (forall x :: x in j.ram && LiveFrame(j.refs, x) && x !in Tables(j.k, j.ram, j.level, j.p) && x != j.c ==>
          x in ram && ram[x] == j.ram[x])
    && SimilarOn(Tables(j.k, j.ram, j.level, j.p), j.ram, ram)
    && Tree(j.k, ram, j.level, j.c)
    && (forall x :: x in Tables(j.k, ram, j.level, j.c) && x != j.c ==> x < |j.refs| && j.refs[x] == 0)
  }

  /** The first `n` user slots are cloned, the others are as before and empty in the child; kernel slots are kept. */
  ghost predicate SlotsCloned(j: Job, ram: Ram, n: nat)
    requires Shape(j.k, j.ram, j.level, j.p)
  {
    && j.p in ram && |ram[j.p]| == ENTRIES && j.c in ram && |ram[j.c]| == ENTRIES
    && (forall i: nat :: i < n && UserSlot(j.k, j.level, i) ==> ClonedSlot(j, ram, i))
    && j.p in j.ram && |j.ram[j.p]| == ENTRIES && j.c in j.ram && |j.ram[j.c]| == ENTRIES
    && (forall i: nat :: i < ENTRIES && !UserSlot(j.k, j.level, i) ==>
          ram[j.p][i] == j.ram[j.p][i] && ram[j.c][i] == j.ram[j.c][i])
    && (forall i: nat :: n <= i < ENTRIES && UserSlot(j.k, j.level, i) ==>
          && ram[j.c][i] == UNUSED && ram[j.p][i] == j.ram[j.p][i]
          && EqualOn(Below(j.k, j.ram, j.level, j.p, i), j.ram, ram))
  }

  /** Each count has grown by the leaf slots of the child; new table frames have count one. */
  ghost predicate RefsCloned(j: Job, ram: Ram, refs: seq<nat>, n: nat)
    requires Shape(j.k, j.ram, j.level, j.p) && Shape(j.k, ram, j.level, j.c)
  {
    && |refs| == |j.refs|
    && (forall f: nat :: f < |refs| ==>
          refs[f] == j.refs[f] + Leaves(j.k, ram, j.level, j.c, f)
                     + if f != j.c && f in Tables(j.k, ram, j.level, j.c) then 1 else 0)
    && (forall f: nat :: Leaves(j.k, ram, j.level, j.c, f) <= Count(j.k, j.ram, j.level, j.p, n, f))
    && (!j.ctx.kernelParent ==>
          forall f: nat :: Leaves(j.k, ram, j.level, j.c, f) == Count(j.k, j.ram, j.level, j.p, n, f))
  }

  /** `n` slots into the clone. */
  ghost predicate Progress(j: Job, ram: Ram, refs: seq<nat>, n: nat) {
    && Ready(j)
    && OnlyCloned(j, ram)
    && SlotsCloned(j, ram, n)
    && RefsCloned(j, ram, refs, n)
  }

  lemma {:induction false} EmptyLeaves(k: set<nat>, ram: Ram, level: nat, c: nat, n: nat, f: nat)
    requires Shape(k, ram, level, c)
    requires forall i: nat :: i < n ==> !Descends(k, ram, level, c, i)
    ensures Count(k, ram, level, c, n, f) == 0
  {
    if n != 0 {
      EmptyLeaves(k, ram, level, c, n - 1, f);
    }
  }

  lemma EmptyTable(k: set<nat>, ram: Ram, level: nat, c: nat)
    requires c in ram && |ram[c]| == ENTRIES
    requires forall i: nat :: i < ENTRIES && UserSlot(k, level, i) ==> ram[c][i] == UNUSED
    ensures Tree(k, ram, level, c) && Tables(k, ram, level, c) == {c}
    ensures forall f: nat :: Leaves(k, ram, level, c, f) == 0
  {
    assert forall i: nat :: !Descends(k, ram, level, c, i);
    assert forall i: nat :: Below(k, ram, level, c, i) == {};
    forall f: nat ensures Leaves(k, ram, level, c, f) == 0 {
      EmptyLeaves(k, ram, level, c, |ram[c]|, f);
    }
  }

  lemma {:induction false} TablesInRam(k: set<nat>, ram: Ram, level: nat, t: nat)
    requires Shape(k, ram, level, t)
    ensures forall x :: x in Tables(k, ram, level, t) ==> x in ram
    decreases level
  {
    forall i: nat, x | x in Below(k, ram, level, t, i) ensures x in ram {
      TablesInRam(k, ram, level - 1, ram[t][i].frame);
    }
  }

  lemma CloneStart(j: Job)
    requires Ready(j)
    ensures Progress(j, j.ram, j.refs, 0)
  {
    EmptyTable(j.k, j.ram, j.level, j.c);
    TablesInRam(j.k, j.ram, j.level, j.p);
    forall i: nat ensures EqualOn(Below(j.k, j.ram, j.level, j.p, i), j.ram, j.ram) {
      SubTables(j.k, j.ram, j.level, j.p, i);
    }
  }

  /** A slot that is not cloned: unused, not a user slot, or a leaf the kernel root keeps to itself. */
  lemma SlotSkip(j: Job, ram: Ram, refs: seq<nat>, n: nat)
    requires Progress(j, ram, refs, n) && n < ENTRIES
    requires j.ram[j.p][n] == UNUSED || !UserSlot(j.k, j.level, n)
             || (j.level == 1 && !Copies(j.ctx, SlotAddr(j, n)))
    ensures Progress(j, ram, refs, n + 1)
  {
    var m := n + 1;
    assert UserSlot(j.k, j.level, n) ==> ClonedSlot(j, ram, n);
    assert SlotsCloned(j, ram, m);
    forall f: nat
      ensures Count(j.k, j.ram, j.level, j.p, m, f) >= Count(j.k, j.ram, j.level, j.p, n, f)
      ensures !j.ctx.kernelParent ==>
                Count(j.k, j.ram, j.level, j.p, m, f) == Count(j.k, j.ram, j.level, j.p, n, f)
    {
      assert !j.ctx.kernelParent ==> SlotCount(j.k, j.ram, j.level, j.p, n, f) == 0;
    }
  }

  /** The leaves under slot `n` still fit the reference counts reached by then. */
  lemma SlotFits(j: Job, ram: Ram, refs: seq<nat>, n: nat, f: nat)
    requires Progress(j, ram, refs, n) && n < ENTRIES
    ensures Fits(refs, f, SlotCount(j.k, j.ram, j.level, j.p, n, f))
  {
    if 0 < SlotCount(j.k, j.ram, j.level, j.p, n, f) {
      CountMono(j.k, j.ram, j.level, j.p, n + 1, |j.ram[j.p]|, f);
      assert Count(j.k, j.ram, j.level, j.p, n, f) + SlotCount(j.k, j.ram, j.level, j.p, n, f)
             <= Leaves(j.k, j.ram, j.level, j.p, f);
      assert LiveFrame(j.refs, f);
      assert f != j.c ==> f !in Tables(j.k, ram, j.level, j.c);
    }
  }

  /** Memory after leaf entry `n` went into slot `l` of both tables. */
  function ShareEntry(ram: Ram, p: nat, c: nat, l: nat, n: Pte): Ram
    requires p in ram && c in ram && p != c && l < |ram[p]| && l < |ram[c]|
  {
    ram[p := ram[p][l := n]][c := ram[c][l := n]]
  }

  /** A leaf is shared. */
  lemma LeafCopy(j: Job, ram: Ram, refs: seq<nat>, n: nat)
    requires Progress(j, ram, refs, n) && n < ENTRIES && j.level == 1
    requires Good(j.ram[j.p][n]) && Copies(j.ctx, SlotAddr(j, n))
    ensures var e := CowEntry(j.ctx, j.ram[j.p][n], SlotAddr(j, n));
            && LiveFrame(refs, e.frame) && refs[e.frame] <= 254 && j.p != j.c
            && Progress(j, ShareEntry(ram, j.p, j.c, n, e), refs[e.frame := refs[e.frame] + 1], n + 1)
  {
    var e := CowEntry(j.ctx, j.ram[j.p][n], SlotAddr(j, n));
    LeafFits(j, ram, refs, n);
    OneTable(j.k, j.ram, j.p);
    LeafCopySlots(j, ram, n, e);
    LeafCopyRefs(j, ram, refs, n, e);
    LeafCopyOnly(j, ram, n, e);
  }

  lemma LeafCopyOnly(j: Job, ram: Ram, n: nat, e: Pte)
    requires j.level == 1 && n < ENTRIES && j.p != j.c && Shape(j.k, j.ram, 1, j.p) && OnlyCloned(j, ram)
    requires SlotsCloned(j, ram, n) && Good(j.ram[j.p][n]) && Copies(j.ctx, SlotAddr(j, n))
    requires e == CowEntry(j.ctx, j.ram[j.p][n], SlotAddr(j, n))
    ensures OnlyCloned(j, ShareEntry(ram, j.p, j.c, n, e))
  {
    OneTable(j.k, j.ram, j.p);
    OneTable(j.k, ShareEntry(ram, j.p, j.c, n, e), j.c);
  }

  lemma LeafFits(j: Job, ram: Ram, refs: seq<nat>, n: nat)
    requires Progress(j, ram, refs, n) && n < ENTRIES && j.level == 1 && Good(j.ram[j.p][n])
    ensures LiveFrame(refs, j.ram[j.p][n].frame) && refs[j.ram[j.p][n].frame] <= 254 && j.p != j.c
  {
    var f := j.ram[j.p][n].frame;
    assert SlotCount(j.k, j.ram, 1, j.p, n, f) == 1;
    SlotFits(j, ram, refs, n, f);
    OneTable(j.k, j.ram, j.p);
  }

  /** A first-level table has no tables below it. */
  lemma OneTable(k: set<nat>, ram: Ram, t: nat)
    requires Shape(k, ram, 1, t)
    ensures Tree(k, ram, 1, t) && Tables(k, ram, 1, t) == {t}
    ensures forall i: nat :: Below(k, ram, 1, t, i) == {}
  {
  }

  lemma LeafCopyRefs(j: Job, ram: Ram, refs: seq<nat>, n: nat, e: Pte)
    requires j.level == 1 && n < ENTRIES && j.p != j.c
    requires Shape(j.k, j.ram, 1, j.p) && SlotsCloned(j, ram, n) && Shape(j.k, ram, 1, j.c)
    requires RefsCloned(j, ram, refs, n) && e.frame < |refs|
    requires Good(j.ram[j.p][n]) && Good(e) && e.frame == j.ram[j.p][n].frame
    ensures RefsCloned(j, ShareEntry(ram, j.p, j.c, n, e), refs[e.frame := refs[e.frame] + 1], n + 1)
  {
    var m, ram1 := n + 1, ShareEntry(ram, j.p, j.c, n, e);
    OneTable(j.k, ram, j.c);
    OneTable(j.k, ram1, j.c);
    forall f: nat
      ensures Leaves(j.k, ram1, 1, j.c, f) == Leaves(j.k, ram, 1, j.c, f) + if f == e.frame then 1 else 0
      ensures Count(j.k, j.ram, 1, j.p, m, f) == Count(j.k, j.ram, 1, j.p, n, f) + if f == e.frame then 1 else 0
    {
      assert SlotCount(j.k, ram, 1, j.c, n, f) == 0;
      CountFill(j.k, ram, ram1, 1, j.c, n, |ram[j.c]|, f);
      assert SlotCount(j.k, ram1, 1, j.c, n, f) == if f == e.frame then 1 else 0;
    }
  }

  lemma LeafCopySlots(j: Job, ram: Ram, n: nat, e: Pte)
    requires j.level == 1 && n < ENTRIES && j.p != j.c && Shape(j.k, j.ram, 1, j.p) && SlotsCloned(j, ram, n)
    requires Good(j.ram[j.p][n]) && Copies(j.ctx, SlotAddr(j, n))
    requires e == CowEntry(j.ctx, j.ram[j.p][n], SlotAddr(j, n))
    ensures SlotsCloned(j, ShareEntry(ram, j.p, j.c, n, e), n + 1)
  {
    var m, ram1 := n + 1, ShareEntry(ram, j.p, j.c, n, e);
    forall i: nat | i < m && UserSlot(j.k, 1, i) ensures ClonedSlot(j, ram1, i) {
      if i < n {
        assert ClonedSlot(j, ram, i);
        assert ram1[j.p][i] == ram[j.p][i] && ram1[j.c][i] == ram[j.c][i];
      }
    }
    assert forall i: nat :: Below(j.k, j.ram, 1, j.p, i) == {};
  }
}
