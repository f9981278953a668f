/**
 * Copy-on-write cloning and freeing of user page tables
 * (kernel/src/memory/virtual.rs) over the reference-counted frame allocator.
 *
 * The kernel writes the four table levels as four nested loops. The three outer
 * loops do the same thing one level apart, so they are one method here,
 * recursive in the level; at level 1 the same loop shares leaves instead.
 */
module AddressSpaceClone {
  import opened Regions
  import opened Wrappers
  import opened FrameBitmap
  import opened PhysicalMemory
  import opened PageTree
  import opened CloneSteps
  import opened CloneLevels
  import opened PageTableFree

  datatype TableError = OutOfFrames | InvalidFrame

  /** Some entry the walk visits is used but has no 4 KiB frame. */
  ghost predicate HasBad(k: set<nat>, ram: Ram, level: nat, t: nat)
    decreases level
  {
    exists i: nat :: BadSlot(k, ram, level, t, i)
  }

  ghost predicate BadSlot(k: set<nat>, ram: Ram, level: nat, t: nat, i: nat)
    decreases level, 0
  {
    && t in ram && i < |ram[t]| && UserSlot(k, level, i) && ram[t][i] != UNUSED
    && (!Good(ram[t][i]) || (1 < level && HasBad(k, ram, level - 1, ram[t][i].frame)))
  }

  lemma {:induction false} BadFrame(k: set<nat>, a: Ram, b: Ram, level: nat, t: nat)
    requires Shape(k, a, level, t) && EqualOn(Tables(k, a, level, t), a, b) && HasBad(k, b, level, t)
    ensures HasBad(k, a, level, t)
    decreases level
  {
    var i: nat :| BadSlot(k, b, level, t, i);
    if Good(a[t][i]) {
      SubTables(k, a, level, t, i);
      assert Descends(k, a, level, t, i);
      BadFrame(k, a, b, level - 1, a[t][i].frame);
    }
    assert BadSlot(k, a, level, t, i);
  }

  /** `Progress`, folded away so that the loops carry it without its quantifiers; `Unfold` opens it. */
  ghost predicate Reached(j: Job, ram: Ram, refs: seq<nat>, n: nat) {
    Folded(j.level + 1, j, ram, refs, n)
  }

  ghost predicate Folded(folds: nat, j: Job, ram: Ram, refs: seq<nat>, n: nat) {
    if folds == 0 then Progress(j, ram, refs, n) else Folded(folds - 1, j, ram, refs, n)
  }

  lemma {:induction false} Unfolds(folds: nat, j: Job, ram: Ram, refs: seq<nat>, n: nat)
    ensures Folded(folds, j, ram, refs, n) <==> Progress(j, ram, refs, n)
  {
    if folds == 0 {
    } else {
      Unfolds(folds - 1, j, ram, refs, n);
    }
  }

  lemma Unfold(j: Job, ram: Ram, refs: seq<nat>, n: nat)
    ensures Reached(j, ram, refs, n) <==> Progress(j, ram, refs, n)
  {
    Unfolds(j.level + 1, j, ram, refs, n);
  }

  lemma StartReaches(j: Job)
    requires Ready(j)
    ensures Reached(j, j.ram, j.refs, 0)
  {
    CloneStart(j);
    Unfold(j, j.ram, j.refs, 0);
  }

  /** Slot `n` of the parent is still as it was. */
  lemma NextSlot(j: Job, ram: Ram, refs: seq<nat>, n: nat)
    requires Reached(j, ram, refs, n) && n < ENTRIES
    ensures j.p in ram && n < |ram[j.p]| && j.p in j.ram && n < |j.ram[j.p]| && j.c in ram && n < |ram[j.c]|
    ensures UserSlot(j.k, j.level, n) ==> ram[j.p][n] == j.ram[j.p][n]
  {
    Unfold(j, ram, refs, n);
  }

  lemma SkipReaches(j: Job, ram: Ram, refs: seq<nat>, n: nat)
    requires Reached(j, ram, refs, n) && n < ENTRIES && j.p in j.ram && n < |j.ram[j.p]|
    requires || !UserSlot(j.k, j.level, n) || j.ram[j.p][n] == UNUSED
             || (j.level == 1 && !Copies(j.ctx, SlotAddr(j, n)))
    ensures Reached(j, ram, refs, n + 1)
  {
    Unfold(j, ram, refs, n);
    SlotSkip(j, ram, refs, n);
    Unfold(j, ram, refs, n + 1);
  }

  lemma LeafReaches(j: Job, ram: Ram, refs: seq<nat>, n: nat, e: Pte)
    requires Reached(j, ram, refs, n) && n < ENTRIES && j.level == 1 && j.p in j.ram && n < |j.ram[j.p]|
    requires Good(j.ram[j.p][n]) && Copies(j.ctx, SlotAddr(j, n)) && e == CowEntry(j.ctx, j.ram[j.p][n], SlotAddr(j, n))
    ensures LiveFrame(refs, e.frame) && refs[e.frame] <= 254 && j.p != j.c
    ensures j.p in ram && j.c in ram && n < |ram[j.p]| && n < |ram[j.c]|
    ensures Reached(j, ShareEntry(ram, j.p, j.c, n, e), refs[e.frame := refs[e.frame] + 1], n + 1)
  {
    Unfold(j, ram, refs, n);
    LeafCopy(j, ram, refs, n);
    Unfold(j, ShareEntry(ram, j.p, j.c, n, e), refs[e.frame := refs[e.frame] + 1], n + 1);
  }

  lemma DownStarts(j: Job, ram: Ram, refs: seq<nat>, n: nat, s: nat)
    requires Reached(j, ram, refs, n) && 1 < j.level && n < ENTRIES && UserSlot(j.k, j.level, n)
    requires j.p in j.ram && n < |j.ram[j.p]| && Good(j.ram[j.p][n]) && s < |refs| && refs[s] == 0
    ensures Hangable(j, ram, refs, n, s) && Ready(DownJob(j, ram, refs, n, s))
  {
    Unfold(j, ram, refs, n);
    DownReady(j, ram, refs, n, s);
  }

  lemma DownReaches(j: Job, ram: Ram, refs: seq<nat>, n: nat, s: nat, ram2: Ram, refs2: seq<nat>)
    requires Hangable(j, ram, refs, n, s) && Reached(DownJob(j, ram, refs, n, s), ram2, refs2, ENTRIES)
    ensures Reached(j, ram2, refs2, n + 1)
  {
    Unfold(DownJob(j, ram, refs, n, s), ram2, refs2, ENTRIES);
    DownStep(j, ram, refs, n, s, ram2, refs2);
    Unfold(j, ram2, refs2, n + 1);
  }

  lemma DownBad(j: Job, ram: Ram, refs: seq<nat>, n: nat, s: nat)
    requires Hangable(j, ram, refs, n, s)
    requires var d := DownJob(j, ram, refs, n, s); HasBad(d.k, d.ram, d.level, d.p)
    ensures BadSlot(j.k, j.ram, j.level, j.p, n)
  {
    DownTree(j, ram, refs, n, s);
    var d := DownJob(j, ram, refs, n, s);
    BadFrame(j.k, j.ram, d.ram, d.level, d.p);
  }

  /** Slot `n` of the table to be cloned leads to an invalid frame. */
  ghost predicate BadAt(j: Job, n: nat) {
    BadSlot(j.k, j.ram, j.level, j.p, n)
  }

  /** The address a path of slot indices maps, from `base` on. */
  function PathAddr(level: nat, base: nat, path: seq<nat>): nat
    requires |path| == level
    decreases level
  {
    if level == 0 then base else PathAddr(level - 1, base + path[0] * Span(level), path[1..])
  }

  /** What a clone leaves at one page, in the parent and in the child, given the old entry. */
  function CloneEntry(ctx: Context, v: nat, e: Option<Pte>): Option<Pte> {
    if e.Some? && Copies(ctx, v) then Some(CowEntry(ctx, e.value, v)) else None
  }

  /** A finished clone, page by page. */
  lemma {:induction false} ClonedLookup(j: Job, ram: Ram, path: seq<nat>)
    requires 1 <= j.level && |path| == j.level && Cloned(j, ram)
    requires j.p in j.ram && |j.ram[j.p]| == ENTRIES && j.p in ram && |ram[j.p]| == ENTRIES
    requires j.c in ram && |ram[j.c]| == ENTRIES && Shape(j.k, j.ram, j.level, j.p)
    requires Shape(j.k, ram, j.level, j.p) && Shape(j.k, ram, j.level, j.c)
    ensures var e := Lookup(j.k, j.ram, j.level, j.p, path);
            var v := PathAddr(j.level, j.base, path);
            && Lookup(j.k, ram, j.level, j.c, path) == CloneEntry(j.ctx, v, e)
            && Lookup(j.k, ram, j.level, j.p, path) == if Copies(j.ctx, v) then CloneEntry(j.ctx, v, e) else e
    decreases j.level
  {
    var i := path[0];
    if i < ENTRIES && UserSlot(j.k, j.level, i) {
      assert ClonedSlot(j, ram, i);
      if 1 < j.level && j.ram[j.p][i] != UNUSED {
        var s := ram[j.c][i].frame;
        assert Descends(j.k, j.ram, j.level, j.p, i) && Descends(j.k, ram, j.level, j.c, i);
        assert Descends(j.k, ram, j.level, j.p, i);
        ClonedLookup(SubJob(j, i, s), ram, path[1..]);
      } else if j.level == 1 {
        assert path[1..] == [];
        assert PathAddr(1, j.base, path) == SlotAddr(j, i);
      }
    }
  }

  /** The entry in slot `i` of table `t`, if it is present and maps no huge page. */
  function Entry(ram: Ram, t: nat, i: nat): Option<Pte> {
    if t in ram && i < |ram[t]| && ram[t][i].present && !ram[t][i].huge then Some(ram[t][i]) else None
  }

  /** The four steps of the processor's walk from root `t`: the entry that maps page `a`, `b`, `c`, `d`. */
  function Walk(ram: Ram, t: nat, a: nat, b: nat, c: nat, d: nat): Option<Pte> {
    var e4 := Entry(ram, t, a);
    if e4.None? then None else
    var e3 := Entry(ram, e4.value.frame, b);
    if e3.None? then None else
    var e2 := Entry(ram, e3.value.frame, c);
    if e2.None? then None else Entry(ram, e2.value.frame, d)
  }

  /** The root slots that the kernel half and the lower-half mask `k` leave to the user. */
  predicate UserPage(k: set<nat>, a: nat) {
    a == 0 || (a < 256 && a !in k)
  }

  /** Walking the user half reads what `Lookup` reads. */
  lemma WalkLookup(k: set<nat>, ram: Ram, t: nat, a: nat, b: nat, c: nat, d: nat)
    requires UserPage(k, a)
    ensures Walk(ram, t, a, b, c, d) == Lookup(k, ram, 4, t, [a, b, c, d])
  {
    assert [a, b, c, d][1..] == [b, c, d] && [b, c, d][1..] == [c, d] && [c, d][1..] == [d];
    assert forall level: nat, x: nat, i: nat :: level < 4 ==>
        (Descends(k, ram, level, x, i) <==> Entry(ram, x, i).Some?);
  }

  lemma PageAddr(a: nat, b: nat, c: nat, d: nat)
    ensures PathAddr(4, 0, [a, b, c, d])
            == a * 0x80_0000_0000 + b * 0x4000_0000 + c * 0x20_0000 + d * 0x1000
  {
    assert [a, b, c, d][1..] == [b, c, d] && [b, c, d][1..] == [c, d] && [c, d][1..] == [d] && [d][1..] == [];
    assert Span(1) == 0x1000 && Span(2) == 0x20_0000 && Span(3) == 0x4000_0000 && Span(4) == 0x80_0000_0000;
    var v3 := a * 0x80_0000_0000;
    var v2 := v3 + b * 0x4000_0000;
    var v1 := v2 + c * 0x20_0000;
    assert PathAddr(4, 0, [a, b, c, d]) == PathAddr(3, v3, [b, c, d]);
    assert PathAddr(3, v3, [b, c, d]) == PathAddr(2, v2, [c, d]);
    assert PathAddr(2, v2, [c, d]) == PathAddr(1, v1, [d]);
    assert PathAddr(1, v1, [d]) == PathAddr(0, v1 + d * 0x1000, []);
  }

  ghost predicate Mapped(regions: seq<Region>, v: nat) {
    exists i :: 0 <= i < |regions| && regions[i].start <= v < regions[i].start + regions[i].len
  }

  ghost predicate MappedShared(regions: seq<Region>, v: nat) {
    exists i :: 0 <= i < |regions| && regions[i].attributes.isShared
                && regions[i].start <= v < regions[i].start + regions[i].len
  }

  /** `now` maps the frame of `e` for copy-on-write where `e` could be written and `v` is private, else it is `e`. */
  ghost predicate CopyOnWrite(regions: seq<Region>, v: nat, e: Pte, now: Pte) {
    && now.frame == e.frame && now.present == e.present && now.huge == e.huge && now.rest == e.rest
    && if (e.writable || e.cow) && !MappedShared(regions, v) then !now.writable && now.cow
       else now.writable == e.writable && now.cow == e.cow
  }

  /** What a clone makes of one page: what mapped it before, and what maps it now in the parent and in the child. */
  ghost predicate PageCloned(kernelParent: bool, regions: seq<Region>, v: nat,
                             was: Option<Pte>, parent: Option<Pte>, child: Option<Pte>) {
    if was.None? then parent.None? && child.None?
    else if kernelParent && !Mapped(regions, v) then parent == was && child.None?
    else parent.Some? && child == parent && CopyOnWrite(regions, v, was.value, parent.value)
  }

  /** Every user page is cloned; the kernel's slots of the child root are those of `kernel`, the parent's are kept. */
  ghost predicate PagesCloned(k: set<nat>, kernelParent: bool, regions: seq<Region>, kernel: seq<Pte>,
                              was: Ram, now: Ram, parent: nat, child: nat)
  {
    && |kernel| == ENTRIES && parent in was && parent in now && child in now
    && |was[parent]| == |now[parent]| == |now[child]| == ENTRIES
    && (forall i: nat :: i < ENTRIES && !UserPage(k, i) ==>
          now[child][i] == kernel[i] && now[parent][i] == was[parent][i])
    && (forall a: nat, b: nat, c: nat, d: nat :: UserPage(k, a) ==>
          PageCloned(kernelParent, regions, a * 0x80_0000_0000 + b * 0x4000_0000 + c * 0x20_0000 + d * 0x1000,
                     Walk(was, parent, a, b, c, d), Walk(now, parent, a, b, c, d), Walk(now, child, a, b, c, d)))
  }

  /** The page that slots `a`, `b`, `c` and `d` map, after a finished clone. */
  lemma ClonedPage(j: Job, ram: Ram, a: nat, b: nat, c: nat, d: nat)
    requires j.level == 4 && j.base == 0 && UserPage(j.k, a) && Cloned(j, ram)
    requires Shape(j.k, j.ram, 4, j.p) && Shape(j.k, ram, 4, j.p) && Shape(j.k, ram, 4, j.c)
    ensures PageCloned(j.ctx.kernelParent, j.ctx.regions,
                       a * 0x80_0000_0000 + b * 0x4000_0000 + c * 0x20_0000 + d * 0x1000,
                       Walk(j.ram, j.p, a, b, c, d), Walk(ram, j.p, a, b, c, d), Walk(ram, j.c, a, b, c, d))
  {
    ClonedLookup(j, ram, [a, b, c, d]);
    PageAddr(a, b, c, d);
    WalkLookup(j.k, j.ram, j.p, a, b, c, d);
    WalkLookup(j.k, ram, j.p, a, b, c, d);
    WalkLookup(j.k, ram, j.c, a, b, c, d);
  }

  /** The kernel entries of a root, with the user half empty. */
  function UserRoot(k: set<nat>, kernel: seq<Pte>): (r: seq<Pte>)
    requires |kernel| == ENTRIES
    ensures |r| == ENTRIES
    ensures forall i: nat :: i < ENTRIES ==> r[i] == if IsKernelEntry(k, i) then kernel[i] else UNUSED
  {
    seq(ENTRIES, i requires 0 <= i < ENTRIES => if IsKernelEntry(k, i) then kernel[i] else UNUSED)
  }

  /** The references below slot `n` can be dropped next. */
  lemma SubCounted(k: set<nat>, ram: Ram, oldRefs: seq<nat>, refs: seq<nat>, level: nat, t: nat, n: nat)
    requires Owned(k, ram, oldRefs, level, t) && Dropped(k, ram, oldRefs, refs, level, t, n)
    requires 1 < level && n < ENTRIES && Descends(k, ram, level, t, n)
    ensures Owned(k, ram, refs, level - 1, ram[t][n].frame)
  {
    var u, lower := ram[t][n].frame, level - 1;
    forall f: nat | 0 < Holds(k, ram, lower, u, f) ensures f < |refs| && Holds(k, ram, lower, u, f) <= refs[f] {
      DirectoryHolds(k, ram, level, t, n, f);
      SlotOwned(k, ram, oldRefs, refs, level, t, n, f);
    }
  }

  /** `refs` is `oldRefs` without the references that the table `t` holds. */
  ghost predicate Released(k: set<nat>, ram: Ram, oldRefs: seq<nat>, refs: seq<nat>, level: nat, t: nat)
    requires Shape(k, ram, level, t)
  {
    && |refs| == |oldRefs|
    && forall f: nat :: f < |refs| ==> refs[f] + Holds(k, ram, level, t, f) == oldRefs[f]
  }

  /** Every live table outside the parent's tree is as it was. */
  ghost predicate Untouched(j: Job, ram: Ram)
    requires Shape(j.k, j.ram, j.level, j.p)
  {
    forall x :: x in j.ram && LiveFrame(j.refs, x) && x !in Tables(j.k, j.ram, j.level, j.p) ==>
      x in ram && ram[x] == j.ram[x]
  }

  lemma ForkUntouched(j: Job, root: seq<Pte>, ram: Ram, refs: seq<nat>)
    requires Forkable(j.k, j.ram, j.refs, j.level, j.p) && j.c < |j.refs| && j.refs[j.c] == 0
    requires Reached(RootJob(j, root), ram, refs, ENTRIES)
    ensures Untouched(j, ram)
  {
    var d := RootJob(j, root);
    Unfold(d, ram, refs, ENTRIES);
    RootFrame(j, root);
    forall x | x in j.ram && LiveFrame(j.refs, x) && x !in Tables(j.k, j.ram, j.level, j.p)
      ensures x in ram && ram[x] == j.ram[x]
    {
      assert x in d.ram && LiveFrame(d.refs, x) && x != d.c && d.ram[x] == j.ram[x];
    }
  }

  /** What the clone of a user root establishes. */
  ghost predicate Forked(j: Job, ram: Ram, refs: seq<nat>) {
    && Shape(j.k, j.ram, j.level, j.p)
    && Tree(j.k, ram, j.level, j.p) && Tree(j.k, ram, j.level, j.c)
    && Tables(j.k, ram, j.level, j.p) == Tables(j.k, j.ram, j.level, j.p)
    && Tables(j.k, ram, j.level, j.p) !! Tables(j.k, ram, j.level, j.c)
    && |refs| == |j.refs|
    && (forall f: nat :: f < |refs| ==> refs[f] == j.refs[f] + Holds(j.k, ram, j.level, j.c, f))
    && (forall x :: x in Tables(j.k, ram, j.level, j.c) ==> x < |j.refs| && j.refs[x] == 0)
    && (forall f: nat :: Leaves(j.k, ram, j.level, j.c, f) <= Leaves(j.k, j.ram, j.level, j.p, f))
    && (!j.ctx.kernelParent ==>
          forall f: nat :: Leaves(j.k, ram, j.level, j.c, f) == Leaves(j.k, j.ram, j.level, j.p, f))
    && Cloned(j, ram) && Untouched(j, ram)
  }

  /** A user root whose tables and leaves come from the frame allocator and can all be shared once more. */
  ghost predicate Forkable(k: set<nat>, ram: Ram, refs: seq<nat>, level: nat, p: nat) {
    && Tree(k, ram, level, p)
    && (forall x :: x in Tables(k, ram, level, p) ==> LiveFrame(refs, x))
    && (forall f: nat :: Fits(refs, f, Leaves(k, ram, level, p, f)))
  }

  /** The job of `clone_parent_page_table` once the child root `j.c` has been created with contents `root`. */
  function RootJob(j: Job, root: seq<Pte>): Job
    requires j.c < |j.refs|
  {
    j.(ram := j.ram[j.c := root], refs := j.refs[j.c := 1])
  }

  lemma RootFrame(j: Job, root: seq<Pte>)
    requires Forkable(j.k, j.ram, j.refs, j.level, j.p) && j.c < |j.refs| && j.refs[j.c] == 0
    ensures EqualOn(Tables(j.k, j.ram, j.level, j.p), j.ram, RootJob(j, root).ram)
    ensures var d := RootJob(j, root);
            && Tree(d.k, d.ram, d.level, d.p)
            && Tables(d.k, d.ram, d.level, d.p) == Tables(j.k, j.ram, j.level, j.p)
            && forall f: nat :: Leaves(d.k, d.ram, d.level, d.p, f) == Leaves(j.k, j.ram, j.level, j.p, f)
  {
    var d := RootJob(j, root);
    TablesInRam(j.k, j.ram, j.level, j.p);
    TreeFrame(j.k, j.ram, d.ram, j.level, j.p);
    forall f: nat ensures Leaves(d.k, d.ram, d.level, d.p, f) == Leaves(j.k, j.ram, j.level, j.p, f) {
      CountFrame(j.k, j.ram, d.ram, j.level, j.p, |j.ram[j.p]|, f);
    }
  }

  lemma RootReady(j: Job, root: seq<Pte>)
    requires Forkable(j.k, j.ram, j.refs, j.level, j.p) && j.c < |j.refs| && j.refs[j.c] == 0
    requires |root| == ENTRIES && forall i: nat :: i < ENTRIES && UserSlot(j.k, j.level, i) ==> root[i] == UNUSED
    ensures Ready(RootJob(j, root))
  {
    var d := RootJob(j, root);
    RootFrame(j, root);
    forall f: nat ensures Fits(d.refs, f, Leaves(d.k, d.ram, d.level, d.p, f)) {
      assert Fits(j.refs, f, Leaves(j.k, j.ram, j.level, j.p, f));
    }
  }

  lemma ForkDone(j: Job, root: seq<Pte>, ram: Ram, refs: seq<nat>)
    requires Forkable(j.k, j.ram, j.refs, j.level, j.p) && j.c < |j.refs| && j.refs[j.c] == 0
    requires Reached(RootJob(j, root), ram, refs, ENTRIES)
    ensures Forked(j, ram, refs)
  {
    var d := RootJob(j, root);
    Unfold(d, ram, refs, ENTRIES);
    RootFrame(j, root);
    TreeFrame(d.k, d.ram, ram, d.level, d.p);
    assert Cloned(d, ram);
    ClonedBase(d, j, ram);
    assert forall f: nat :: Count(d.k, d.ram, d.level, d.p, ENTRIES, f) == Leaves(d.k, d.ram, d.level, d.p, f);
    forall x | x in Tables(j.k, ram, j.level, j.c)
      ensures x < |j.refs| && j.refs[x] == 0 && x !in Tables(j.k, ram, j.level, j.p)
    {
      assert x == j.c || (x < |d.refs| && d.refs[x] == 0);
    }
    ForkCounts(j, root, ram, refs);
    ForkUntouched(j, root, ram, refs);
  }

  /** The finished clone, slot by slot of the roots and page by page below them. */
  lemma ForkPages(j: Job, root: seq<Pte>, kernel: seq<Pte>, ram: Ram, refs: seq<nat>)
    requires Forkable(j.k, j.ram, j.refs, j.level, j.p) && j.c < |j.refs| && j.refs[j.c] == 0
    requires j.level == 4 && j.base == 0 && |kernel| == ENTRIES && root == UserRoot(j.k, kernel)
    requires Reached(RootJob(j, root), ram, refs, ENTRIES) && Forked(j, ram, refs)
    ensures PagesCloned(j.k, j.ctx.kernelParent, j.ctx.regions, kernel, j.ram, ram, j.p, j.c)
  {
    ForkSlots(j, root, kernel, ram, refs);
    forall a: nat, b: nat, c: nat, d: nat | UserPage(j.k, a)
      ensures PageCloned(j.ctx.kernelParent, j.ctx.regions,
                         a * 0x80_0000_0000 + b * 0x4000_0000 + c * 0x20_0000 + d * 0x1000,
                         Walk(j.ram, j.p, a, b, c, d), Walk(ram, j.p, a, b, c, d), Walk(ram, j.c, a, b, c, d))
    {
      ClonedPage(j, ram, a, b, c, d);
    }
  }

  lemma ForkSlots(j: Job, root: seq<Pte>, kernel: seq<Pte>, ram: Ram, refs: seq<nat>)
    requires Forkable(j.k, j.ram, j.refs, j.level, j.p) && j.c < |j.refs| && j.refs[j.c] == 0
    requires j.level == 4 && |kernel| == ENTRIES && root == UserRoot(j.k, kernel)
    requires Reached(RootJob(j, root), ram, refs, ENTRIES)
    ensures j.p in j.ram && j.p in ram && j.c in ram && |j.ram[j.p]| == |ram[j.p]| == |ram[j.c]| == ENTRIES
    ensures forall i: nat :: i < ENTRIES && !UserPage(j.k, i) ==>
              ram[j.c][i] == kernel[i] && ram[j.p][i] == j.ram[j.p][i]
  {
    var d := RootJob(j, root);
    Unfold(d, ram, refs, ENTRIES);
    RootFrame(j, root);
    assert SlotsCloned(d, ram, ENTRIES);
    assert j.p in Tables(j.k, j.ram, j.level, j.p);
    forall i: nat | i < ENTRIES && !UserPage(j.k, i)
      ensures ram[j.c][i] == kernel[i] && ram[j.p][i] == j.ram[j.p][i]
    {
      assert !UserSlot(j.k, 4, i) && root[i] == kernel[i];
    }
  }

  lemma ForkCounts(j: Job, root: seq<Pte>, ram: Ram, refs: seq<nat>)
    requires j.c < |j.refs| && j.refs[j.c] == 0 && Shape(j.k, ram, j.level, j.c)
    requires Reached(RootJob(j, root), ram, refs, ENTRIES)
    ensures |refs| == |j.refs|
    ensures forall f: nat :: f < |refs| ==> refs[f] == j.refs[f] + Holds(j.k, ram, j.level, j.c, f)
  {
    var d := RootJob(j, root);
    Unfold(d, ram, refs, ENTRIES);
    assert j.c in Tables(j.k, ram, j.level, j.c);
    forall f: nat | f < |refs| ensures refs[f] == j.refs[f] + Holds(j.k, ram, j.level, j.c, f) {
      assert refs[f] == d.refs[f] + Leaves(d.k, ram, d.level, d.c, f)
                        + if f != d.c && f in Tables(d.k, ram, d.level, d.c) then 1 else 0;
    }
  }

  /** A clone holds no entry that freeing could stumble over. */
  lemma {:induction false} ClonedNoBad(j: Job, ram: Ram)
    requires Cloned(j, ram) && Shape(j.k, ram, j.level, j.c)
    ensures !HasBad(j.k, ram, j.level, j.c)
    decreases j.level
  {
    forall i: nat ensures !BadSlot(j.k, ram, j.level, j.c, i) {
      if j.c in ram && i < |ram[j.c]| && UserSlot(j.k, j.level, i) && ram[j.c][i] != UNUSED {
        assert ClonedSlot(j, ram, i);
        if 1 < j.level {
          assert Descends(j.k, ram, j.level, j.c, i);
          ClonedNoBad(SubJob(j, i, ram[j.c][i].frame), ram);
        }
      }
    }
  }

  lemma ForkReleasable(j: Job, ram: Ram, refs: seq<nat>)
    requires Forked(j, ram, refs) && Forkable(j.k, j.ram, j.refs, j.level, j.p)
    ensures Owned(j.k, ram, refs, j.level, j.c) && !HasBad(j.k, ram, j.level, j.c)
  {
    ClonedNoBad(j, ram);
    forall f: nat | 0 < Holds(j.k, ram, j.level, j.c, f)
      ensures f < |refs| && Holds(j.k, ram, j.level, j.c, f) <= refs[f]
    {
      if 0 < Leaves(j.k, ram, j.level, j.c, f) {
        assert Fits(j.refs, f, Leaves(j.k, j.ram, j.level, j.p, f));
      }
    }
  }

  lemma ForkReleased(j: Job, ram: Ram, refs1: seq<nat>, refs2: seq<nat>)
    requires Forked(j, ram, refs1) && Released(j.k, ram, refs1, refs2, j.level, j.c)
    ensures refs2 == j.refs
  {
    forall f: nat | f < |refs2| ensures refs2[f] == j.refs[f] {
      assert refs2[f] + Holds(j.k, ram, j.level, j.c, f) == refs1[f];
    }
  }

  class PageTables {
    const mem: Memory
    const kernelLower: set<nat>
    const kernelRoot: nat
    var ram: Ram

    constructor (mem: Memory, kernelLower: set<nat>, kernelRoot: nat, ram: Ram)
      ensures this.mem == mem && this.kernelLower == kernelLower && this.kernelRoot == kernelRoot && this.ram == ram
    {
      this.mem := mem;
      this.kernelLower := kernelLower;
      this.kernelRoot := kernelRoot;
      this.ram := ram;
    }

    /** Allocate a frame for a table and clear it. */
    method NewTable(core: nat) returns (r: Option<nat>)
      requires mem.Valid()
      modifies this`ram, mem, mem.global, mem.global.bits
      ensures mem.Valid() && mem.held == old(mem.held)
      ensures r.None? ==> AllUsed(mem.global.Used()) && ram == old(ram) && mem.refs == old(mem.refs)
      ensures r.Some? ==> r.value < |old(mem.refs)| && old(mem.refs)[r.value] == 0
      ensures r.Some? ==> mem.refs == old(mem.refs)[r.value := 1] && r.value in mem.usable
      ensures r.Some? ==> ram == old(ram)[r.value := seq(ENTRIES, i => UNUSED)]
    {
      r := mem.AllocateFrame(core);
      if r.Some? {
        ram := ram[r.value := seq(ENTRIES, i => UNUSED)];
      }
    }

    /** Write a leaf entry into slot `l` of both tables and count the new reference. */
    method ShareLeaf(p: nat, c: nat, l: nat, e: Pte)
      requires mem.Valid() && p in ram && c in ram && p != c && l < |ram[p]| && l < |ram[c]|
      requires LiveFrame(mem.refs, e.frame) && mem.refs[e.frame] <= 254
      modifies this`ram, mem`refs
      ensures mem.Valid()
      ensures ram == ShareEntry(old(ram), p, c, l, e)
      ensures mem.refs == old(mem.refs)[e.frame := old(mem.refs)[e.frame] + 1]
    {
      ram := ram[p := ram[p][l := e]][c := ram[c][l := e]];
      mem.IncrementRef(e.frame);
    }

    /** The body of the innermost loop. */
    method CloneLeaf(ctx: Context, p: nat, c: nat, base: nat, n: nat, ghost j: Job) returns (r: Result<(), TableError>)
      requires mem.Valid() && n < ENTRIES && Reached(j, ram, mem.refs, n)
      requires j.ctx == ctx && j.level == 1 && j.p == p && j.c == c && j.base == base
      modifies this`ram, mem`refs
      ensures mem.Valid()
      ensures r.Ok? ==> Reached(j, ram, mem.refs, n + 1)
      ensures r.Err? ==> r.error == InvalidFrame && BadAt(j, n)
    {
      NextSlot(j, ram, mem.refs, n);
      var e := ram[p][n];
      var v := base + n * Span(1);
      assert UserSlot(j.k, 1, n) && e == j.ram[p][n];
      if e == UNUSED || !Copies(ctx, v) {
        SkipReaches(j, ram, mem.refs, n);
        return Ok(());
      }
      if !Good(e) {
        return Err(InvalidFrame);
      }
      LeafReaches(j, ram, mem.refs, n, CowEntry(ctx, e, v));
      ShareLeaf(p, c, n, CowEntry(ctx, e, v));
      return Ok(());
    }

    /** The body of an outer loop: clone the table under slot `n`. */
    method CloneDirectory(core: nat, ctx: Context, level: nat, p: nat, c: nat, base: nat, n: nat, ghost j: Job)
      returns (r: Result<(), TableError>)
      requires mem.Valid() && 1 < level && n < ENTRIES && Reached(j, ram, mem.refs, n)
      requires UserSlot(kernelLower, level, n) && p in ram && c in ram && n < |ram[c]|
      requires n < |ram[p]| && p in j.ram && n < |j.ram[p]| && ram[p][n] == j.ram[p][n] != UNUSED
      requires j == Job(kernelLower, ctx, j.ram, j.refs, level, p, c, base)
      modifies this`ram, mem, mem.global, mem.global.bits
      ensures mem.Valid() && mem.held == old(mem.held)
      ensures r.Ok? ==> Reached(j, ram, mem.refs, n + 1)
      ensures r == Err(OutOfFrames) ==> AllUsed(mem.global.Used())
      ensures r == Err(InvalidFrame) ==> BadAt(j, n)
      decreases level, 0
    {
      var e := ram[p][n];
      ghost var ram0, refs0 := ram, mem.refs;
      var s := NewTable(core);
      if s.None? {
        return Err(OutOfFrames);
      }
      ram := ram[c := ram[c][n := e.(frame := s.value)]];
      if !Good(e) {
        return Err(InvalidFrame);
      }
      DownStarts(j, ram0, refs0, n, s.value);
      ghost var d := DownJob(j, ram0, refs0, n, s.value);
      r := CloneTable(core, ctx, level - 1, e.frame, s.value, base + n * Span(level), d);
      if r.Ok? {
        DownReaches(j, ram0, refs0, n, s.value, ram, mem.refs);
      } else if r.error == InvalidFrame {
        DownBad(j, ram0, refs0, n, s.value);
      }
    }

    /** The body of the loop over the slots of a table, at any level. */
    method CloneSlot(core: nat, ctx: Context, level: nat, p: nat, c: nat, base: nat, n: nat, ghost j: Job)
      returns (r: Result<(), TableError>)
      requires mem.Valid() && 1 <= level && n < ENTRIES && Reached(j, ram, mem.refs, n)
      requires j == Job(kernelLower, ctx, j.ram, j.refs, level, p, c, base)
      modifies this`ram, mem, mem.global, mem.global.bits
      ensures mem.Valid() && mem.held == old(mem.held)
      ensures r.Ok? ==> Reached(j, ram, mem.refs, n + 1)
      ensures r == Err(OutOfFrames) ==> AllUsed(mem.global.Used())
      ensures r == Err(InvalidFrame) ==> BadAt(j, n)
      decreases level, 1
    {
      NextSlot(j, ram, mem.refs, n);
      if level == 1 {
        r := CloneLeaf(ctx, p, c, base, n, j);
      } else if !UserSlot(kernelLower, level, n) || ram[p][n] == UNUSED {
        SkipReaches(j, ram, mem.refs, n);
        r := Ok(());
      } else {
        r := CloneDirectory(core, ctx, level, p, c, base, n, j);
      }
    }

    /** Clone the table `p` of level `level` to the empty table `c`. */
    method CloneTable(core: nat, ctx: Context, level: nat, p: nat, c: nat, base: nat, ghost j: Job)
      returns (r: Result<(), TableError>)
      requires mem.Valid() && 1 <= level
      requires j == Job(kernelLower, ctx, ram, mem.refs, level, p, c, base) && Ready(j)
      modifies this`ram, mem, mem.global, mem.global.bits
      ensures mem.Valid() && mem.held == old(mem.held)
      ensures r.Ok? ==> Reached(j, ram, mem.refs, ENTRIES)
      ensures r == Err(OutOfFrames) ==> AllUsed(mem.global.Used())
      ensures r == Err(InvalidFrame) ==> HasBad(j.k, j.ram, level, p)
      decreases level, 2
    {
      StartReaches(j);
      var n := 0;
      while n < ENTRIES
        invariant n <= ENTRIES && mem.Valid() && mem.held == old(mem.held)
        invariant Reached(j, ram, mem.refs, n)
      {
        r := CloneSlot(core, ctx, level, p, c, base, n, j);
        if r.Err? {
          return;
        }
        n := n + 1;
      }
      return Ok(());
    }

    /** A new root that shares the kernel's entries and maps no user page. */
    method CreateUserPageTable(core: nat) returns (r: Result<nat, TableError>)
      requires mem.Valid() && kernelRoot in ram && |ram[kernelRoot]| == ENTRIES && kernelRoot !in mem.usable
      modifies this`ram, mem, mem.global, mem.global.bits
      ensures mem.Valid() && mem.held == old(mem.held)
      ensures r.Err? ==> r.error == OutOfFrames && AllUsed(mem.global.Used())
      ensures r.Err? ==> ram == old(ram) && mem.refs == old(mem.refs)
      ensures r.Ok? ==> r.value < |old(mem.refs)| && old(mem.refs)[r.value] == 0
      ensures r.Ok? ==> mem.refs == old(mem.refs)[r.value := 1]
      ensures r.Ok? ==> ram == old(ram)[r.value := UserRoot(kernelLower, old(ram)[kernelRoot])]
    {
      var t := NewTable(core);
      if t.None? {
        return Err(OutOfFrames);
      }
      var kernel, table := ram[kernelRoot], ram[t.value];
      for i := 256 to ENTRIES
        invariant |table| == ENTRIES
        invariant forall n: nat :: n < ENTRIES ==> table[n] == if 256 <= n < i then kernel[n] else UNUSED
      {
        table := table[i := kernel[i]];
      }
      for i := 0 to 256
        invariant |table| == ENTRIES
        invariant forall n: nat :: n < ENTRIES ==>
                    table[n] == if 256 <= n || (n < i && IsKernelEntry(kernelLower, n)) then kernel[n] else UNUSED
      {
        if IsKernelEntry(kernelLower, i) {
          table := table[i := kernel[i]];
        }
      }
      assert table == UserRoot(kernelLower, kernel);
      ram := ram[t.value := table];
      return Ok(t.value);
    }

    /** Drop the references of slot `n`: its leaf, or the table below it. */
    method FreeSlot(core: nat, level: nat, t: nat, n: nat, ghost oldRefs: seq<nat>) returns (r: Result<(), TableError>)
      requires mem.Valid() && 1 <= level && n < ENTRIES
      requires Owned(kernelLower, ram, oldRefs, level, t) && Dropped(kernelLower, ram, oldRefs, mem.refs, level, t, n)
      modifies mem, mem.global, mem.global.bits
      ensures mem.Valid() && mem.held == old(mem.held)
      ensures r.Ok? ==> Dropped(kernelLower, ram, oldRefs, mem.refs, level, t, n + 1)
      ensures r.Err? ==> r.error == InvalidFrame && BadSlot(kernelLower, ram, level, t, n)
      decreases level, 0
    {
      var e := ram[t][n];
      ghost var refs := mem.refs;
      if !UserSlot(kernelLower, level, n) || e == UNUSED {
        forall f: nat ensures SlotHolds(kernelLower, ram, level, t, n, f) == 0 {
          NothingHolds(kernelLower, ram, level, t, n, f);
        }
        DropSlot(kernelLower, ram, oldRefs, refs, refs, level, t, n);
        return Ok(());
      }
      if !Good(e) {
        return Err(InvalidFrame);
      }
      if level == 1 {
        LeafHolds(kernelLower, ram, t, n, e.frame);
        SlotOwned(kernelLower, ram, oldRefs, refs, level, t, n, e.frame);
        mem.DeallocateFrame(core, e.frame);
        forall f: nat | f < |refs| ensures mem.refs[f] + SlotHolds(kernelLower, ram, level, t, n, f) == refs[f] {
          LeafHolds(kernelLower, ram, t, n, f);
        }
      } else {
        SubCounted(kernelLower, ram, oldRefs, refs, level, t, n);
        r := FreeTable(core, level - 1, e.frame);
        if r.Err? {
          return;
        }
        forall f: nat | f < |refs| ensures mem.refs[f] + SlotHolds(kernelLower, ram, level, t, n, f) == refs[f] {
          DirectoryHolds(kernelLower, ram, level, t, n, f);
        }
      }
      DropSlot(kernelLower, ram, oldRefs, refs, mem.refs, level, t, n);
      return Ok(());
    }

    /** Drop every reference the table holds, then the table itself. */
    method FreeTable(core: nat, level: nat, t: nat) returns (r: Result<(), TableError>)
      requires mem.Valid() && 1 <= level && Owned(kernelLower, ram, mem.refs, level, t)
      modifies mem, mem.global, mem.global.bits
      ensures mem.Valid() && mem.held == old(mem.held)
      ensures r.Ok? ==> Released(kernelLower, ram, old(mem.refs), mem.refs, level, t)
      ensures r.Err? ==> r.error == InvalidFrame && HasBad(kernelLower, ram, level, t)
      decreases level, 1
    {
      DropStart(kernelLower, ram, mem.refs, level, t);
      ghost var oldRefs := mem.refs;
      var n := 0;
      while n < |ram[t]|
        invariant n <= |ram[t]| && mem.Valid() && mem.held == old(mem.held)
        invariant Dropped(kernelLower, ram, oldRefs, mem.refs, level, t, n)
      {
        r := FreeSlot(core, level, t, n, oldRefs);
        if r.Err? {
          return;
        }
        n := n + 1;
      }
      DropRoot(kernelLower, ram, oldRefs, mem.refs, level, t);
      mem.DeallocateFrame(core, t);
      return Ok(());
    }

    /** The clone of user root `parent`, before the child root is known. */
    ghost function ForkJob(parent: nat, regions: seq<Region>): Job
      reads this, mem
    {
      Job(kernelLower, Context(parent == kernelRoot, regions), ram, mem.refs, 4, parent, 0, 0)
    }

    /** `clone_parent_page_table`. */
    method CloneParentPageTable(core: nat, parent: nat, regions: seq<Region>) returns (r: Result<nat, TableError>)
      requires mem.Valid() && kernelRoot in ram && |ram[kernelRoot]| == ENTRIES && kernelRoot !in mem.usable
      requires Forkable(kernelLower, ram, mem.refs, 4, parent)
      modifies this`ram, mem, mem.global, mem.global.bits
      ensures mem.Valid() && mem.held == old(mem.held)
      ensures r.Ok? ==> Forked(old(ForkJob(parent, regions)).(c := r.value), ram, mem.refs)
      ensures r.Ok? ==> PagesCloned(kernelLower, parent == kernelRoot, regions, old(ram)[kernelRoot],
                                    old(ram), ram, parent, r.value)
      ensures r == Err(OutOfFrames) ==> AllUsed(mem.global.Used())
      ensures r == Err(InvalidFrame) ==> HasBad(kernelLower, old(ram), 4, parent)
    {
      var root := UserRoot(kernelLower, ram[kernelRoot]);
      ghost var j := ForkJob(parent, regions);
      var child := CreateUserPageTable(core);
      if child.Err? {
        return Err(child.error);
      }
      ghost var d := j.(c := child.value);
      RootReady(d, root);
      var done := CloneTable(core, Context(parent == kernelRoot, regions), 4, parent, child.value, 0, RootJob(d, root));
      if done.Err? {
        if done.error == InvalidFrame {
          RootFrame(d, root);
          BadFrame(kernelLower, d.ram, RootJob(d, root).ram, 4, parent);
        }
        return Err(done.error);
      }
      ForkDone(d, root, ram, mem.refs);
      ForkPages(d, root, old(ram)[kernelRoot], ram, mem.refs);
      return Ok(child.value);
    }

    /**
     * Fork and then drop the child's address space: every reference count is
     * back to what it was, so every child table has been returned, and the parent
     * maps the frames it mapped before.
     */
    method ForkAndExit(core: nat, parent: nat, regions: seq<Region>) returns (r: Result<(), TableError>)
      requires mem.Valid() && kernelRoot in ram && |ram[kernelRoot]| == ENTRIES && kernelRoot !in mem.usable
      requires Forkable(kernelLower, ram, mem.refs, 4, parent) && parent != kernelRoot
      modifies this`ram, mem, mem.global, mem.global.bits
      ensures mem.Valid() && mem.held == old(mem.held)
      ensures r.Ok? ==> mem.refs == old(mem.refs) && Untouched(old(ForkJob(parent, regions)), ram)
      ensures r.Ok? ==> forall a: nat, b: nat, c: nat, d: nat :: UserPage(kernelLower, a) ==>
                var was, now := Walk(old(ram), parent, a, b, c, d), Walk(ram, parent, a, b, c, d);
                && (now.None? <==> was.None?)
                && (was.Some? ==>
                      CopyOnWrite(regions, a * 0x80_0000_0000 + b * 0x4000_0000 + c * 0x20_0000 + d * 0x1000,
                                  was.value, now.value))
      ensures r == Err(OutOfFrames) ==> AllUsed(mem.global.Used())
      ensures r == Err(InvalidFrame) ==> HasBad(kernelLower, old(ram), 4, parent)
    {
      ghost var j := ForkJob(parent, regions);
      var child := CloneParentPageTable(core, parent, regions);
      if child.Err? {
        return Err(child.error);
      }
      ghost var d := j.(c := child.value);
      ForkReleasable(d, ram, mem.refs);
      ghost var refs1 := mem.refs;
      r := FreeTable(core, 4, child.value);
      assert r.Ok?;
      ForkReleased(d, ram, refs1, mem.refs);
    }
  }
}
