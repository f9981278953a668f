/**
 * Cloning a directory slot: a new table is hung under the child and the clone
 * continues one level down (kernel/src/memory/virtual.rs).
 */
module CloneLevels {
  import opened PageTree
  import opened CloneSteps

  /** A finished clone stays one as long as the tables of both sides stay as they are. */
  lemma {:induction false} ClonedFrame(j: Job, a: Ram, b: Ram)
    requires Shape(j.k, j.ram, j.level, j.p) && Shape(j.k, a, j.level, j.c) && Cloned(j, a)
    requires EqualOn(Tables(j.k, j.ram, j.level, j.p), a, b) && EqualOn(Tables(j.k, a, j.level, j.c), a, b)
    ensures Cloned(j, b)
    decreases j.level, 1
  {
    forall i: nat | i < ENTRIES && UserSlot(j.k, j.level, i) ensures ClonedSlot(j, b, i) {
      ClonedSlotFrame(j, a, b, i);
    }
  }

  lemma {:induction false} ClonedSlotFrame(j: Job, a: Ram, b: Ram, i: nat)
    requires Shape(j.k, j.ram, j.level, j.p) && Shape(j.k, a, j.level, j.c) && UserSlot(j.k, j.level, i)
    requires ClonedSlot(j, a, i)
    requires j.p in b && i < |b[j.p]| && b[j.p][i] == a[j.p][i]
    requires j.c in b && i < |b[j.c]| && b[j.c][i] == a[j.c][i]
    requires EqualOn(Below(j.k, j.ram, j.level, j.p, i), a, b) && EqualOn(Below(j.k, a, j.level, j.c, i), a, b)
    ensures ClonedSlot(j, b, i)
    decreases j.level, 0
  {
    if j.ram[j.p][i] != UNUSED && 1 < j.level {
      ClonedFrame(SubJob(j, i, a[j.c][i].frame), a, b);
    }
  }

  /** The clone relation only reads the parent's own tables in the old memory. */
  lemma {:induction false} ClonedBase(j: Job, b: Job, ram: Ram)
    requires Shape(j.k, j.ram, j.level, j.p) && EqualOn(Tables(j.k, j.ram, j.level, j.p), j.ram, b.ram)
    requires b == j.(ram := b.ram, refs := b.refs)
    requires Cloned(j, ram)
    ensures Cloned(b, ram)
    decreases j.level
  {
    forall i: nat | i < ENTRIES && UserSlot(j.k, j.level, i) ensures ClonedSlot(b, ram, i) {
      assert ClonedSlot(j, ram, i);
      if j.ram[j.p][i] != UNUSED && 1 < j.level {
        assert Descends(j.k, j.ram, j.level, j.p, i);
        SubTables(j.k, j.ram, j.level, j.p, i);
        var s := ram[j.c][i].frame;
        ClonedBase(SubJob(j, i, s), SubJob(b, i, s), ram);
      }
    }
  }

  /** Memory with a new empty table `s` hung under slot `n` of `c`. */
  function HangTable(ram: Ram, c: nat, n: nat, e: Pte, s: nat): Ram
    requires c in ram && n < |ram[c]|
  {
    ram[s := seq(ENTRIES, i => UNUSED)][c := ram[c][n := e.(frame := s)]]
  }

  /** Slot `n` holds a directory entry and `s` is a frame nobody uses. */
  ghost predicate Hangable(j: Job, ram: Ram, refs: seq<nat>, n: nat, s: nat) {
    && 1 < j.level && n < ENTRIES && UserSlot(j.k, j.level, n)
    && Progress(j, ram, refs, n)
    && Good(j.ram[j.p][n]) && s < |refs| && refs[s] == 0
  }

  /** The job one level down, started with `s` already hung. */
  ghost function DownJob(j: Job, ram: Ram, refs: seq<nat>, n: nat, s: nat): Job
    requires Hangable(j, ram, refs, n, s)
  {
    SubJob(j, n, s).(ram := HangTable(ram, j.c, n, j.ram[j.p][n], s), refs := refs[s := 1])
  }

  lemma LiveGrows(j: Job, ram: Ram, refs: seq<nat>, n: nat, x: nat)
    requires Progress(j, ram, refs, n)
    requires x in Tables(j.k, j.ram, j.level, j.p) || x in Tables(j.k, ram, j.level, j.c) || LiveFrame(j.refs, x)
    ensures LiveFrame(refs, x)
  {
  }

  /** A freshly allocated frame is no table of the parent or the child and was not live at the start. */
  lemma FreshFrame(j: Job, ram: Ram, refs: seq<nat>, n: nat, s: nat)
    requires Progress(j, ram, refs, n) && s < |refs| && refs[s] == 0
    ensures s !in Tables(j.k, j.ram, j.level, j.p) && s !in Tables(j.k, ram, j.level, j.c)
    ensures j.refs[s] == 0 && s != j.c
  {
    assert j.c in Tables(j.k, ram, j.level, j.c);
  }

  /** Hanging a new table leaves the parent's subtree under slot `n` as it was. */
  lemma DownTree(j: Job, ram: Ram, refs: seq<nat>, n: nat, s: nat)
    requires Hangable(j, ram, refs, n, s)
    ensures var d := DownJob(j, ram, refs, n, s);
            && Shape(d.k, j.ram, d.level, d.p)
            && Tables(d.k, j.ram, d.level, d.p) == Below(j.k, j.ram, j.level, j.p, n)
            && Below(j.k, j.ram, j.level, j.p, n) <= Tables(j.k, j.ram, j.level, j.p)
            && EqualOn(Tables(d.k, j.ram, d.level, d.p), j.ram, d.ram)
            && Tree(d.k, d.ram, d.level, d.p)
            && Tables(d.k, d.ram, d.level, d.p) == Tables(d.k, j.ram, d.level, d.p)
            && forall f: nat :: Leaves(d.k, d.ram, d.level, d.p, f) == SlotCount(j.k, j.ram, j.level, j.p, n, f)
  {
    var d := DownJob(j, ram, refs, n, s);
    FreshFrame(j, ram, refs, n, s);
    assert Descends(j.k, j.ram, j.level, j.p, n);
    SubTables(j.k, j.ram, j.level, j.p, n);
    assert EqualOn(Below(j.k, j.ram, j.level, j.p, n), j.ram, d.ram);
    TreeFrame(j.k, j.ram, d.ram, d.level, d.p);
    forall f: nat ensures Leaves(d.k, d.ram, d.level, d.p, f) == SlotCount(j.k, j.ram, j.level, j.p, n, f) {
      CountFrame(j.k, j.ram, d.ram, d.level, d.p, |j.ram[d.p]|, f);
    }
  }

  lemma ReadyIntro(d: Job, refs: seq<nat>)
    requires Tree(d.k, d.ram, d.level, d.p) && d.c < |refs| && refs[d.c] == 0 && d.refs == refs[d.c := 1]
    requires forall x :: x in Tables(d.k, d.ram, d.level, d.p) ==> LiveFrame(refs, x)
    requires forall f: nat :: Fits(refs, f, Leaves(d.k, d.ram, d.level, d.p, f))
    requires d.c in d.ram && d.ram[d.c] == seq(ENTRIES, i => UNUSED)
    ensures Ready(d)
  {
    forall f: nat ensures Fits(d.refs, f, Leaves(d.k, d.ram, d.level, d.p, f)) {
      assert Fits(refs, f, Leaves(d.k, d.ram, d.level, d.p, f));
    }
  }

  /** The clone one level down may start. */
  lemma DownReady(j: Job, ram: Ram, refs: seq<nat>, n: nat, s: nat)
    requires Hangable(j, ram, refs, n, s)
    ensures Ready(DownJob(j, ram, refs, n, s))
  {
    var d := DownJob(j, ram, refs, n, s);
    FreshFrame(j, ram, refs, n, s);
    DownTree(j, ram, refs, n, s);
    forall x | x in Tables(d.k, d.ram, d.level, d.p) ensures LiveFrame(refs, x) {
      LiveGrows(j, ram, refs, n, x);
    }
    forall f: nat ensures Fits(refs, f, Leaves(d.k, d.ram, d.level, d.p, f)) {
      SlotFits(j, ram, refs, n, f);
    }
    ReadyIntro(d, refs);
  }

  /** The clone one level down is finished, with memory `ram2` and counts `refs2`. */
  ghost predicate DownDone(j: Job, ram: Ram, refs: seq<nat>, n: nat, s: nat, ram2: Ram, refs2: seq<nat>) {
    && Hangable(j, ram, refs, n, s)
    && Progress(DownJob(j, ram, refs, n, s), ram2, refs2, ENTRIES)
  }

  /** The clone one level down touched no table that was live before it, outside the parent's subtree. */
  lemma DownKeeps(j: Job, ram: Ram, refs: seq<nat>, n: nat, s: nat, ram2: Ram, refs2: seq<nat>, x: nat)
    requires DownDone(j, ram, refs, n, s, ram2, refs2)
    requires x in ram && LiveFrame(refs, x) && x !in Below(j.k, j.ram, j.level, j.p, n)
    ensures x in ram2 && ram2[x] == HangTable(ram, j.c, n, j.ram[j.p][n], s)[x]
    ensures x != j.c ==> ram2[x] == ram[x]
  {
    DownTree(j, ram, refs, n, s);
    assert LiveFrame(refs[s := 1], x);
  }

  /** The new subtree is made of frames that were free. */
  lemma DownNew(j: Job, ram: Ram, refs: seq<nat>, n: nat, s: nat, ram2: Ram, refs2: seq<nat>)
    requires DownDone(j, ram, refs, n, s, ram2, refs2)
    ensures forall x :: x in Tables(j.k, ram2, j.level - 1, s) ==> x < |refs| && refs[x] == 0
  {
  }

  /** The child's tables afterwards: those it had and those of the new subtree. */
  lemma DownChild(j: Job, ram: Ram, refs: seq<nat>, n: nat, s: nat, ram2: Ram, refs2: seq<nat>)
    requires DownDone(j, ram, refs, n, s, ram2, refs2)
    ensures j.c in ram2 && ram2[j.c] == ram[j.c][n := j.ram[j.p][n].(frame := s)]
    ensures forall x :: x in Tables(j.k, ram, j.level, j.c) && x != j.c ==> x in ram && x in ram2 && ram2[x] == ram[x]
  {
    DownSame(j, ram, refs, n, s, ram2, refs2, j.c);
    forall x | x in Tables(j.k, ram, j.level, j.c) && x != j.c ensures x in ram && x in ram2 && ram2[x] == ram[x] {
      DownSame(j, ram, refs, n, s, ram2, refs2, x);
    }
  }

  lemma DownSame(j: Job, ram: Ram, refs: seq<nat>, n: nat, s: nat, ram2: Ram, refs2: seq<nat>, x: nat)
    requires DownDone(j, ram, refs, n, s, ram2, refs2) && x in Tables(j.k, ram, j.level, j.c)
    ensures x in ram && x in ram2 && ram2[x] == HangTable(ram, j.c, n, j.ram[j.p][n], s)[x]
    ensures x != j.c ==> ram2[x] == ram[x]
  {
    ChildApart(j, ram, refs, n, s, x);
    DownKeeps(j, ram, refs, n, s, ram2, refs2, x);
  }

  /** The child's tables are live, and none of the parent's. */
  lemma ChildApart(j: Job, ram: Ram, refs: seq<nat>, n: nat, s: nat, x: nat)
    requires Hangable(j, ram, refs, n, s) && x in Tables(j.k, ram, j.level, j.c)
    ensures x in ram && LiveFrame(refs, x) && x !in Below(j.k, j.ram, j.level, j.p, n)
  {
    DownTree(j, ram, refs, n, s);
    TablesInRam(j.k, ram, j.level, j.c);
    LiveGrows(j, ram, refs, n, x);
  }

  /** `ram2` is `ram` with the tree at `s` grafted into the empty slot `n` of `c`. */
  ghost predicate Grafted(k: set<nat>, ram: Ram, ram2: Ram, level: nat, c: nat, n: nat, s: nat) {
    && 1 < level && n < ENTRIES && UserSlot(k, level, n)
    && Tree(k, ram, level, c) && ram[c][n] == UNUSED
    && c in ram2 && |ram2[c]| == ENTRIES && ram2[c] == ram[c][n := ram2[c][n]]
    && Good(ram2[c][n]) && ram2[c][n].frame == s
    && (forall x :: x in Tables(k, ram, level, c) && x != c ==> x in ram && x in ram2 && ram2[x] == ram[x])
    && Tree(k, ram2, level - 1, s)
    && Tables(k, ram, level, c) !! Tables(k, ram2, level - 1, s)
  }

  lemma GraftSlot(k: set<nat>, ram: Ram, ram2: Ram, level: nat, c: nat, n: nat, s: nat, i: nat)
    requires Grafted(k, ram, ram2, level, c, n, s) && i != n
    ensures Descends(k, ram2, level, c, i) <==> Descends(k, ram, level, c, i)
    ensures Descends(k, ram, level, c, i) ==>
              && Tree(k, ram2, level - 1, ram2[c][i].frame)
              && Tables(k, ram2, level - 1, ram2[c][i].frame) == Below(k, ram, level, c, i)
              && forall f: nat :: Leaves(k, ram2, level - 1, ram2[c][i].frame, f) == SlotCount(k, ram, level, c, i, f)
  {
    if Descends(k, ram, level, c, i) {
      var u := ram[c][i].frame;
      SubTables(k, ram, level, c, i);
      assert EqualOn(Below(k, ram, level, c, i), ram, ram2);
      TreeFrame(k, ram, ram2, level - 1, u);
      forall f: nat ensures Leaves(k, ram2, level - 1, u, f) == SlotCount(k, ram, level, c, i, f) {
        CountFrame(k, ram, ram2, level - 1, u, |ram[u]|, f);
      }
    }
  }

  /** After a graft the other slots keep their subtrees and slot `n` has the new one. */
  lemma GraftBelow(k: set<nat>, ram: Ram, ram2: Ram, level: nat, c: nat, n: nat, s: nat)
    requires Grafted(k, ram, ram2, level, c, n, s)
    ensures Shape(k, ram2, level, c)
    ensures forall i: nat :: i != n ==> Below(k, ram2, level, c, i) == Below(k, ram, level, c, i)
    ensures Below(k, ram2, level, c, n) == Tables(k, ram2, level - 1, s)
    ensures Below(k, ram, level, c, n) == {}
    ensures forall i: nat :: Descends(k, ram2, level, c, i) ==> Tree(k, ram2, level - 1, ram2[c][i].frame)
  {
    assert Descends(k, ram2, level, c, n) && !Descends(k, ram, level, c, n);
    forall i: nat | i != n
      ensures Descends(k, ram2, level, c, i) <==> Descends(k, ram, level, c, i)
      ensures Descends(k, ram, level, c, i) ==>
                && Tree(k, ram2, level - 1, ram2[c][i].frame)
                && Tables(k, ram2, level - 1, ram2[c][i].frame) == Below(k, ram, level, c, i)
    {
      GraftSlot(k, ram, ram2, level, c, n, s, i);
    }
  }

  /** A table below `t` is below one of its slots. */
  lemma TableSlot(k: set<nat>, ram: Ram, level: nat, t: nat, x: nat) returns (i: nat)
    requires Shape(k, ram, level, t) && x in Tables(k, ram, level, t) && x != t
    ensures i < ENTRIES && x in Below(k, ram, level, t, i)
  {
    var below := set i: nat, f | i < ENTRIES && f in Below(k, ram, level, t, i) :: f;
    assert x in below;
    i :| i < ENTRIES && x in Below(k, ram, level, t, i);
  }

  lemma GraftTree(k: set<nat>, ram: Ram, ram2: Ram, level: nat, c: nat, n: nat, s: nat)
    requires Grafted(k, ram, ram2, level, c, n, s)
    ensures Tree(k, ram2, level, c)
    ensures Tables(k, ram2, level, c) == Tables(k, ram, level, c) + Tables(k, ram2, level - 1, s)
  {
    GraftBelow(k, ram, ram2, level, c, n, s);
    var old_, new_ := Tables(k, ram, level, c), Tables(k, ram2, level - 1, s);
    forall i: nat ensures Below(k, ram, level, c, i) <= old_ {
      SubTables(k, ram, level, c, i);
    }
    forall x ensures x in Tables(k, ram2, level, c) <==> x in old_ + new_ {
      if x in old_ && x != c {
        var i := TableSlot(k, ram, level, c, x);
        assert x in Below(k, ram2, level, c, i);
      }
      if x in new_ {
        assert x in Below(k, ram2, level, c, n);
      }
    }
  }

  lemma GraftLeaves(k: set<nat>, ram: Ram, ram2: Ram, level: nat, c: nat, n: nat, s: nat, f: nat)
    requires Grafted(k, ram, ram2, level, c, n, s) && Shape(k, ram2, level, c)
    ensures Leaves(k, ram2, level, c, f) == Leaves(k, ram, level, c, f) + Leaves(k, ram2, level - 1, s, f)
  {
    forall i: nat | i != n ensures SlotCount(k, ram2, level, c, i, f) == SlotCount(k, ram, level, c, i, f) {
      GraftSlot(k, ram, ram2, level, c, n, s, i);
    }
    CountFill(k, ram, ram2, level, c, n, |ram[c]|, f);
    assert Descends(k, ram2, level, c, n);
  }

  lemma DownGraft(j: Job, ram: Ram, refs: seq<nat>, n: nat, s: nat, ram2: Ram, refs2: seq<nat>)
    requires DownDone(j, ram, refs, n, s, ram2, refs2)
    ensures Grafted(j.k, ram, ram2, j.level, j.c, n, s)
  {
    DownChild(j, ram, refs, n, s, ram2, refs2);
    DownNew(j, ram, refs, n, s, ram2, refs2);
    forall x | x in Tables(j.k, ram, j.level, j.c) ensures x !in Tables(j.k, ram2, j.level - 1, s) {
      LiveGrows(j, ram, refs, n, x);
    }
  }

  lemma DownOutside(j: Job, ram: Ram, refs: seq<nat>, n: nat, s: nat, ram2: Ram, refs2: seq<nat>, x: nat)
    requires DownDone(j, ram, refs, n, s, ram2, refs2)
    requires x in j.ram && LiveFrame(j.refs, x) && x !in Tables(j.k, j.ram, j.level, j.p) && x != j.c
    ensures x in ram2 && ram2[x] == j.ram[x]
  {
    LiveGrows(j, ram, refs, n, x);
    SubTables(j.k, j.ram, j.level, j.p, n);
    DownKeeps(j, ram, refs, n, s, ram2, refs2, x);
  }

  lemma DownParent(j: Job, ram: Ram, refs: seq<nat>, n: nat, s: nat, ram2: Ram, refs2: seq<nat>, x: nat)
    requires DownDone(j, ram, refs, n, s, ram2, refs2)
    requires x in Tables(j.k, j.ram, j.level, j.p)
    ensures x in j.ram && x in ram2 && Similar(j.ram[x], ram2[x])
    ensures x !in Below(j.k, j.ram, j.level, j.p, n) ==> x in ram && ram2[x] == ram[x]
  {
    if x in Below(j.k, j.ram, j.level, j.p, n) {
      DownInside(j, ram, refs, n, s, ram2, refs2, x);
    } else {
      assert x in ram && Similar(j.ram[x], ram[x]);
      LiveGrows(j, ram, refs, n, x);
      DownKeeps(j, ram, refs, n, s, ram2, refs2, x);
    }
  }

  lemma DownInside(j: Job, ram: Ram, refs: seq<nat>, n: nat, s: nat, ram2: Ram, refs2: seq<nat>, x: nat)
    requires DownDone(j, ram, refs, n, s, ram2, refs2)
    requires x in Below(j.k, j.ram, j.level, j.p, n)
    ensures x in j.ram && x in ram2 && Similar(j.ram[x], ram2[x])
  {
    DownTree(j, ram, refs, n, s);
    var d := DownJob(j, ram, refs, n, s);
    assert SimilarOn(Tables(d.k, d.ram, d.level, d.p), d.ram, ram2);
  }

  lemma DownFresh(j: Job, ram: Ram, refs: seq<nat>, n: nat, s: nat, ram2: Ram, refs2: seq<nat>)
    requires DownDone(j, ram, refs, n, s, ram2, refs2)
    ensures Tree(j.k, ram2, j.level, j.c)
    ensures forall x :: x in Tables(j.k, ram2, j.level, j.c) && x != j.c ==> x < |j.refs| && j.refs[x] == 0
  {
    DownChild(j, ram, refs, n, s, ram2, refs2);
    DownNew(j, ram, refs, n, s, ram2, refs2);
    DownGraft(j, ram, refs, n, s, ram2, refs2);
    GraftTree(j.k, ram, ram2, j.level, j.c, n, s);
  }

  lemma DownOnly(j: Job, ram: Ram, refs: seq<nat>, n: nat, s: nat, ram2: Ram, refs2: seq<nat>)
    requires DownDone(j, ram, refs, n, s, ram2, refs2)
    ensures OnlyCloned(j, ram2)
  {
    DownFresh(j, ram, refs, n, s, ram2, refs2);
    forall x | x in j.ram && LiveFrame(j.refs, x) && x !in Tables(j.k, j.ram, j.level, j.p) && x != j.c
      ensures x in ram2 && ram2[x] == j.ram[x]
    {
      DownOutside(j, ram, refs, n, s, ram2, refs2, x);
    }
    forall x | x in Tables(j.k, j.ram, j.level, j.p)
      ensures x in j.ram && x in ram2 && Similar(j.ram[x], ram2[x])
    {
      DownParent(j, ram, refs, n, s, ram2, refs2, x);
    }
  }

  /** What the clone one level down counts is what the parent has under the slot, or less. */
  lemma DownSub(j: Job, ram: Ram, refs: seq<nat>, n: nat, s: nat, ram2: Ram, refs2: seq<nat>, f: nat)
    requires DownDone(j, ram, refs, n, s, ram2, refs2) && Shape(j.k, j.ram, j.level, j.p)
    ensures Shape(j.k, ram2, j.level - 1, s)
    ensures Leaves(j.k, ram2, j.level - 1, s, f) <= SlotCount(j.k, j.ram, j.level, j.p, n, f)
    ensures !j.ctx.kernelParent ==> Leaves(j.k, ram2, j.level - 1, s, f) == SlotCount(j.k, j.ram, j.level, j.p, n, f)
  {
    var d := DownJob(j, ram, refs, n, s);
    DownTree(j, ram, refs, n, s);
    assert Count(d.k, d.ram, d.level, d.p, ENTRIES, f) == Leaves(d.k, d.ram, d.level, d.p, f);
  }

  lemma DownCounts(j: Job, ram: Ram, refs: seq<nat>, n: nat, s: nat, ram2: Ram, refs2: seq<nat>, f: nat)
    requires DownDone(j, ram, refs, n, s, ram2, refs2) && Shape(j.k, ram2, j.level, j.c)
    ensures Leaves(j.k, ram2, j.level, j.c, f) <= Count(j.k, j.ram, j.level, j.p, n + 1, f)
    ensures !j.ctx.kernelParent ==> Leaves(j.k, ram2, j.level, j.c, f) == Count(j.k, j.ram, j.level, j.p, n + 1, f)
  {
    DownSub(j, ram, refs, n, s, ram2, refs2, f);
    DownGraft(j, ram, refs, n, s, ram2, refs2);
    GraftLeaves(j.k, ram, ram2, j.level, j.c, n, s, f);
  }

  lemma DownRef(j: Job, ram: Ram, refs: seq<nat>, n: nat, s: nat, ram2: Ram, refs2: seq<nat>, f: nat)
    requires DownDone(j, ram, refs, n, s, ram2, refs2) && Shape(j.k, ram2, j.level, j.c)
    requires f < |refs2|
    ensures |refs2| == |j.refs|
    ensures refs2[f] == j.refs[f] + Leaves(j.k, ram2, j.level, j.c, f)
                        + if f != j.c && f in Tables(j.k, ram2, j.level, j.c) then 1 else 0
  {
    FreshFrame(j, ram, refs, n, s);
    DownGraft(j, ram, refs, n, s, ram2, refs2);
    GraftTree(j.k, ram, ram2, j.level, j.c, n, s);
    GraftLeaves(j.k, ram, ram2, j.level, j.c, n, s, f);
  }

  lemma DownRefs(j: Job, ram: Ram, refs: seq<nat>, n: nat, s: nat, ram2: Ram, refs2: seq<nat>)
    requires DownDone(j, ram, refs, n, s, ram2, refs2) && Shape(j.k, ram2, j.level, j.c)
    ensures RefsCloned(j, ram2, refs2, n + 1)
  {
    var m := n + 1;
    forall f: nat | f < |refs2|
      ensures refs2[f] == j.refs[f] + Leaves(j.k, ram2, j.level, j.c, f)
                          + if f != j.c && f in Tables(j.k, ram2, j.level, j.c) then 1 else 0
    {
      DownRef(j, ram, refs, n, s, ram2, refs2, f);
    }
    forall f: nat
      ensures Leaves(j.k, ram2, j.level, j.c, f) <= Count(j.k, j.ram, j.level, j.p, m, f)
      ensures !j.ctx.kernelParent ==> Leaves(j.k, ram2, j.level, j.c, f) == Count(j.k, j.ram, j.level, j.p, m, f)
    {
      DownCounts(j, ram, refs, n, s, ram2, refs2, f);
    }
  }

  /** The parent's subtrees under the other slots are not touched. */
  lemma DownOthers(j: Job, ram: Ram, refs: seq<nat>, n: nat, s: nat, ram2: Ram, refs2: seq<nat>, i: nat)
    requires DownDone(j, ram, refs, n, s, ram2, refs2) && i != n
    ensures EqualOn(Below(j.k, j.ram, j.level, j.p, i), ram, ram2)
    ensures j.p in ram && j.p in ram2 && ram2[j.p] == ram[j.p]
  {
    SubTables(j.k, j.ram, j.level, j.p, i);
    forall x | x in Below(j.k, j.ram, j.level, j.p, i) ensures x in ram && x in ram2 && ram2[x] == ram[x] {
      DownParent(j, ram, refs, n, s, ram2, refs2, x);
    }
    assert j.p in Tables(j.k, j.ram, j.level, j.p);
    DownParent(j, ram, refs, n, s, ram2, refs2, j.p);
  }

  lemma DownSlotBefore(j: Job, ram: Ram, refs: seq<nat>, n: nat, s: nat, ram2: Ram, refs2: seq<nat>, i: nat)
    requires DownDone(j, ram, refs, n, s, ram2, refs2) && i < n && UserSlot(j.k, j.level, i)
    ensures ClonedSlot(j, ram2, i)
  {
    DownOthers(j, ram, refs, n, s, ram2, refs2, i);
    DownChild(j, ram, refs, n, s, ram2, refs2);
    SubTables(j.k, ram, j.level, j.c, i);
    ClonedSlotFrame(j, ram, ram2, i);
  }

  lemma DownSlotHere(j: Job, ram: Ram, refs: seq<nat>, n: nat, s: nat, ram2: Ram, refs2: seq<nat>)
    requires DownDone(j, ram, refs, n, s, ram2, refs2)
    ensures ClonedSlot(j, ram2, n)
  {
    var d := DownJob(j, ram, refs, n, s);
    DownOthers(j, ram, refs, n, s, ram2, refs2, n + 1);
    DownChild(j, ram, refs, n, s, ram2, refs2);
    DownTree(j, ram, refs, n, s);
    assert Cloned(d, ram2);
    ClonedBase(d, SubJob(j, n, s), ram2);
  }

  lemma DownSlotsDone(j: Job, ram: Ram, refs: seq<nat>, n: nat, s: nat, ram2: Ram, refs2: seq<nat>)
    requires DownDone(j, ram, refs, n, s, ram2, refs2)
    ensures forall i: nat :: i <= n && UserSlot(j.k, j.level, i) ==> ClonedSlot(j, ram2, i)
  {
    forall i: nat | i <= n && UserSlot(j.k, j.level, i) ensures ClonedSlot(j, ram2, i) {
      if i < n {
        DownSlotBefore(j, ram, refs, n, s, ram2, refs2, i);
      } else {
        DownSlotHere(j, ram, refs, n, s, ram2, refs2);
      }
    }
  }

  lemma DownSlots(j: Job, ram: Ram, refs: seq<nat>, n: nat, s: nat, ram2: Ram, refs2: seq<nat>)
    requires DownDone(j, ram, refs, n, s, ram2, refs2)
    ensures SlotsCloned(j, ram2, n + 1)
  {
    DownSlotsDone(j, ram, refs, n, s, ram2, refs2);
    DownChild(j, ram, refs, n, s, ram2, refs2);
    DownOthers(j, ram, refs, n, s, ram2, refs2, n + 1);
    forall i: nat | n < i < ENTRIES && UserSlot(j.k, j.level, i)
      ensures ram2[j.c][i] == UNUSED && ram2[j.p][i] == j.ram[j.p][i]
      ensures EqualOn(Below(j.k, j.ram, j.level, j.p, i), j.ram, ram2)
    {
      DownOthers(j, ram, refs, n, s, ram2, refs2, i);
    }
  }

  /** One more directory slot is done. */
  lemma DownStep(j: Job, ram: Ram, refs: seq<nat>, n: nat, s: nat, ram2: Ram, refs2: seq<nat>)
    requires DownDone(j, ram, refs, n, s, ram2, refs2)
    ensures Progress(j, ram2, refs2, n + 1)
  {
    DownOnly(j, ram, refs, n, s, ram2, refs2);
    DownRefs(j, ram, refs, n, s, ram2, refs2);
    DownSlots(j, ram, refs, n, s, ram2, refs2);
  }
}
