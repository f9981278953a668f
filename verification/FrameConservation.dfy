/**
 * Where every usable frame is: the state invariant behind
 * kernel/src/memory/physical.rs, on values, with one lemma per way a frame moves.
 *
 * A frame is free in the bitmap, parked in the cache of one core, live (it has a
 * positive reference count) or held: taken from the first two by a core that has
 * not stored its reference count yet, or dropped to count zero by a core that
 * has not parked it yet. The held frames are what the kernel's own variables do
 * not show between two atomic steps of `allocate_frame` and `deallocate_frame`.
 */
module FrameConservation {
  import opened FrameBitmap
  import opened Machine

  const CACHE_SLOTS: nat := 16

  datatype Frames = Frames(
    used: seq<bool>,          // the bitmap
    caches: seq<seq<nat>>,    // one stack of frames per core, top last
    refs: seq<nat>,           // FRAME_REFS, one u8 per frame
    held: set<nat>            // frames between two atomic steps
  )

  ghost predicate Shaped(s: Frames) {
    && |s.used| == MAX_FRAMES && |s.refs| == MAX_FRAMES && |s.caches| == CORES
    && (forall f :: 0 <= f < MAX_FRAMES ==> s.refs[f] < 256)
    && (forall c :: 0 <= c < CORES ==> |s.caches[c]| <= CACHE_SLOTS)
  }

  ghost predicate InCache(caches: seq<seq<nat>>, c: nat, f: nat) {
    c < |caches| && f in caches[c]
  }

  ghost predicate Cached(caches: seq<seq<nat>>, f: nat) {
    exists c: nat :: InCache(caches, c, f)
  }

  ghost predicate Live(s: Frames, f: nat) {
    f < |s.refs| && 0 < s.refs[f]
  }

  ghost predicate Free(s: Frames, f: nat) {
    f < |s.used| && !s.used[f]
  }

  /** No frame is parked twice, on one core or on two. */
  ghost predicate ParkedOnce(caches: seq<seq<nat>>) {
    && (forall c: nat, d: nat, f: nat :: InCache(caches, c, f) && InCache(caches, d, f) ==> c == d)
    && (forall c, i, j :: 0 <= c < |caches| && 0 <= i < j < |caches[c]| ==> caches[c][i] != caches[c][j])
  }

  /** The usable frames are the disjoint union of the free, parked, live and held frames. */
  ghost predicate Conserved(usable: set<nat>, s: Frames) {
    && Shaped(s)
    && ParkedOnce(s.caches)
    && (forall f :: f in usable ==> f < MAX_FRAMES)
    && (forall f: nat :: Free(s, f) ==> f in usable && !Live(s, f) && !Cached(s.caches, f) && f !in s.held)
    && (forall f: nat :: Cached(s.caches, f) ==> f in usable && !Live(s, f) && f !in s.held)
    && (forall f: nat :: Live(s, f) ==> f in usable && f !in s.held)
    && (forall f :: f in s.held ==> f in usable)
    && (forall f :: f in usable ==> Free(s, f) || Cached(s.caches, f) || Live(s, f) || f in s.held)
  }

  /** A frame leaves the bitmap. */
  lemma TakeFree(usable: set<nat>, s: Frames, f: nat)
    requires Conserved(usable, s) && Free(s, f)
    ensures Conserved(usable, s.(used := s.used[f := true], held := s.held + {f}))
  {
    var t := s.(used := s.used[f := true], held := s.held + {f});
    assert forall g: nat :: Free(t, g) <==> Free(s, g) && g != f;
    assert forall g: nat :: Live(t, g) <==> Live(s, g);
  }

  lemma GiveFree(usable: set<nat>, s: Frames, f: nat)
    requires Conserved(usable, s) && f in s.held
    ensures Conserved(usable, s.(used := s.used[f := false], held := s.held - {f}))
  {
    var t := s.(used := s.used[f := false], held := s.held - {f});
    assert forall g: nat :: Free(t, g) <==> Free(s, g) || g == f;
    assert forall g: nat :: Live(t, g) <==> Live(s, g);
  }

  lemma PushMember(caches: seq<seq<nat>>, c: nat, f: nat, d: nat, g: nat)
    requires c < |caches|
    ensures InCache(caches[c := caches[c] + [f]], d, g) <==> InCache(caches, d, g) || (d == c && g == f)
  {
  }

  /** A held frame is parked on core `c`. */
  lemma Park(usable: set<nat>, s: Frames, c: nat, f: nat)
    requires Conserved(usable, s) && f in s.held && c < CORES && |s.caches[c]| < CACHE_SLOTS
    ensures Conserved(usable, s.(caches := s.caches[c := s.caches[c] + [f]], held := s.held - {f}))
  {
    var t := s.(caches := s.caches[c := s.caches[c] + [f]], held := s.held - {f});
    forall d: nat, g: nat ensures InCache(t.caches, d, g) <==> InCache(s.caches, d, g) || (d == c && g == f) {
      PushMember(s.caches, c, f, d, g);
    }
    assert InCache(t.caches, c, f);
    assert !Cached(s.caches, f);
    forall g: nat ensures Cached(t.caches, g) <==> Cached(s.caches, g) || g == f {
      if Cached(s.caches, g) {
        var d: nat :| InCache(s.caches, d, g);
        assert InCache(t.caches, d, g);
      }
    }
    assert ParkedOnce(t.caches) by {
      forall d, i, j | 0 <= d < |t.caches| && 0 <= i < j < |t.caches[d]|
        ensures t.caches[d][i] != t.caches[d][j]
      {
        assert d == c && j == |s.caches[c]| ==> InCache(s.caches, c, t.caches[d][i]);
      }
    }
    assert forall g: nat :: Live(t, g) <==> Live(s, g);
    assert forall g: nat :: Free(t, g) <==> Free(s, g);
  }

  /** The frame on top of core `c`'s cache is taken. */
  lemma Unpark(usable: set<nat>, s: Frames, c: nat)
    requires Conserved(usable, s) && c < CORES && 0 < |s.caches[c]|
    ensures var n := |s.caches[c]| - 1;
            Conserved(usable, s.(caches := s.caches[c := s.caches[c][..n]], held := s.held + {s.caches[c][n]}))
  {
    var n := |s.caches[c]| - 1;
    var f := s.caches[c][n];
    var t := s.(caches := s.caches[c := s.caches[c][..n]], held := s.held + {f});
    assert InCache(s.caches, c, f);
    assert s.caches[c] == s.caches[c][..n] + [f];
    forall d: nat, g: nat ensures InCache(t.caches, d, g) <==> InCache(s.caches, d, g) && g != f {
      if d == c && InCache(t.caches, d, g) {
        var i :| 0 <= i < n && s.caches[c][i] == g;
      }
    }
    assert forall g: nat :: Cached(t.caches, g) <==> Cached(s.caches, g) && g != f by {
      forall g: nat ensures Cached(t.caches, g) <==> Cached(s.caches, g) && g != f {
        if Cached(s.caches, g) && g != f {
          var d: nat :| InCache(s.caches, d, g);
          assert InCache(t.caches, d, g);
        }
      }
    }
    assert forall g: nat :: Live(t, g) <==> Live(s, g);
    assert forall g: nat :: Free(t, g) <==> Free(s, g);
  }

  /** A held frame gets its first reference. */
  lemma Activate(usable: set<nat>, s: Frames, f: nat)
    requires Conserved(usable, s) && f in s.held
    ensures Conserved(usable, s.(refs := s.refs[f := 1], held := s.held - {f}))
  {
    var t := s.(refs := s.refs[f := 1], held := s.held - {f});
    assert forall g: nat :: Live(t, g) <==> Live(s, g) || g == f;
    assert forall g: nat :: Free(t, g) <==> Free(s, g);
  }

  /** A live frame loses its last reference. */
  lemma Retire(usable: set<nat>, s: Frames, f: nat)
    requires Conserved(usable, s) && Live(s, f)
    ensures Conserved(usable, s.(refs := s.refs[f := 0], held := s.held + {f}))
  {
    var t := s.(refs := s.refs[f := 0], held := s.held + {f});
    assert forall g: nat :: Live(t, g) <==> Live(s, g) && g != f;
    assert forall g: nat :: Free(t, g) <==> Free(s, g);
  }

  /** A reference count may be changed freely as long as it stays positive, and only then. */
  lemma RecountExact(usable: set<nat>, s: Frames, f: nat, count: nat)
    requires Conserved(usable, s) && f < MAX_FRAMES && count < 256
    ensures Conserved(usable, s.(refs := s.refs[f := count])) <==> (Live(s, f) <==> 0 < count)
  {
    var t := s.(refs := s.refs[f := count]);
    assert forall g: nat :: g != f ==> (Live(t, g) <==> Live(s, g));
    assert forall g: nat :: Free(t, g) <==> Free(s, g);
    assert Live(t, f) <==> 0 < count;
  }

  /** `increment_ref`, a wrapping u8 add: sharing a frame is safe exactly on counts 1 to 254. */
  lemma IncrementExact(usable: set<nat>, s: Frames, f: nat)
    requires Conserved(usable, s) && f < MAX_FRAMES
    ensures Conserved(usable, s.(refs := s.refs[f := (s.refs[f] + 1) % 256])) <==> 1 <= s.refs[f] <= 254
  {
    RecountExact(usable, s, f, (s.refs[f] + 1) % 256);
  }

  function Decremented(count: nat): nat {
    if count == 0 then 0 else count - 1
  }

  /** `decrement_ref` never parks the frame: it leaks it exactly when it drops the last reference. */
  lemma DecrementExact(usable: set<nat>, s: Frames, f: nat)
    requires Conserved(usable, s) && f < MAX_FRAMES
    ensures Conserved(usable, s.(refs := s.refs[f := Decremented(s.refs[f])])) <==> s.refs[f] != 1
  {
    RecountExact(usable, s, f, Decremented(s.refs[f]));
  }

  /** A state in which frame 0 has `count` references and all others are free. */
  function OneLive(count: nat): Frames {
    Frames(seq(MAX_FRAMES, f => f == 0), seq(CORES, c => []), seq(MAX_FRAMES, f => if f == 0 then count else 0), {})
  }

  ghost function AllFrames(): set<nat> {
    FreeSet(seq(MAX_FRAMES, f => false))
  }

  lemma OneLiveConserved(count: nat)
    requires 0 < count < 256
    ensures Conserved(AllFrames(), OneLive(count))
  {
    var s := OneLive(count);
    assert forall f: nat :: !Cached(s.caches, f) && (Live(s, f) <==> f == 0) && (Free(s, f) <==> 0 < f < MAX_FRAMES);
  }

  /** The 256th reference wraps the count to zero, and the frame is neither live nor anywhere else. */
  lemma IncrementWraps()
    ensures exists usable: set<nat>, s: Frames ::
              && Conserved(usable, s) && s.refs[0] == 255
              && !Conserved(usable, s.(refs := s.refs[0 := (s.refs[0] + 1) % 256]))
  {
    OneLiveConserved(255);
    IncrementExact(AllFrames(), OneLive(255), 0);
  }

  /** Dropping the only reference with `decrement_ref` leaks the frame. */
  lemma DecrementLeaks()
    ensures exists usable: set<nat>, s: Frames ::
              Conserved(usable, s) && s.refs[0] == 1
                && !Conserved(usable, s.(refs := s.refs[0 := Decremented(s.refs[0])]))
  {
    OneLiveConserved(1);
    DecrementExact(AllFrames(), OneLive(1), 0);
  }

  ghost function FreeSet(used: seq<bool>): set<nat> {
    set f: nat | f < |used| && !used[f]
  }

  ghost function CachedSet(s: Frames, usable: set<nat>): set<nat> {
    set f | f in usable && Cached(s.caches, f)
  }

  ghost function LiveSet(s: Frames): set<nat> {
    set f: nat | f < |s.refs| && Live(s, f)
  }

  /** `allocated_frames` counts every usable frame that is not free in the bitmap. */
  ghost predicate Tallied(usable: set<nat>, used: seq<bool>, taken: nat) {
    taken + |FreeSet(used)| == |usable|
  }

  /** What `allocated_frames` counts: the parked, live and held frames. */
  lemma AllocatedSizes(usable: set<nat>, s: Frames, taken: nat)
    requires Conserved(usable, s) && Tallied(usable, s.used, taken)
    ensures usable == FreeSet(s.used) + CachedSet(s, usable) + LiveSet(s) + s.held
    ensures taken == |CachedSet(s, usable)| + |LiveSet(s)| + |s.held|
  {
    var free, cached, live := FreeSet(s.used), CachedSet(s, usable), LiveSet(s);
    assert forall f: nat :: f in free <==> Free(s, f);
    assert free !! cached && free !! live && cached !! live;
    assert free !! s.held && cached !! s.held && live !! s.held;
    assert usable == free + cached + live + s.held;
    assert |free + cached| == |free| + |cached|;
    assert |free + cached + live| == |free + cached| + |live|;
    assert |free + cached + live + s.held| == |free + cached + live| + |s.held|;
  }

  lemma CountTaken(usable: set<nat>, used: seq<bool>, f: nat, taken: nat)
    requires Tallied(usable, used, taken) && f < |used| && !used[f]
    ensures Tallied(usable, used[f := true], taken + 1)
  {
    assert FreeSet(used[f := true]) == FreeSet(used) - {f};
  }

  lemma CountGiven(usable: set<nat>, used: seq<bool>, f: nat, taken: nat)
    requires Tallied(usable, used, taken)
    requires f < |used| && used[f] && f in usable && FreeSet(used) <= usable
    ensures 0 < taken && Tallied(usable, used[f := false], taken - 1)
  {
    assert FreeSet(used[f := false]) == FreeSet(used) + {f};
    assert |usable - FreeSet(used)| == |usable| - |FreeSet(used)|;
    assert f in usable - FreeSet(used);
  }

  /** The `count` frames from `start`, as a set. */
  function RunSet(start: nat, count: nat): set<nat> {
    set f: nat | f < start + count && InRun(f, start, count)
  }

  predicate InRun(f: nat, start: nat, count: nat) {
    start <= f < start + count
  }

  /** The frames with a run taken out of the bitmap. */
  ghost function RunTaken(s: Frames, start: nat, count: nat): Frames
    requires start + count <= |s.used|
  {
    s.(used := SetRange(s.used, start, count), held := s.held + RunSet(start, count))
  }

  lemma RunTakenNext(s: Frames, start: nat, count: nat)
    requires 0 < count && start + count <= |s.used|
    ensures var f, t := start + count - 1, RunTaken(s, start, count - 1);
            RunTaken(s, start, count) == t.(used := t.used[f := true], held := t.held + {f})
  {
    var f, t := start + count - 1, RunTaken(s, start, count - 1);
    assert t.used[f := true] == SetRange(s.used, start, count);
    assert t.held + {f} == s.held + RunSet(start, count);
  }

  lemma RunTakenNone(s: Frames, start: nat)
    requires start <= |s.used|
    ensures RunTaken(s, start, 0) == s
  {
    assert SetRange(s.used, start, 0) == s.used;
    assert s.held + RunSet(start, 0) == s.held;
  }

  /** A free run leaves the bitmap. */
  lemma TakeRun(usable: set<nat>, s: Frames, start: nat, count: nat, taken: nat)
    requires Conserved(usable, s) && Tallied(usable, s.used, taken) && FreeRun(s.used, start, count)
    ensures Conserved(usable, RunTaken(s, start, count))
    ensures Tallied(usable, RunTaken(s, start, count).used, taken + count)
    decreases count
  {
    if count == 0 {
      RunTakenNone(s, start);
    } else {
      var f, t := start + count - 1, RunTaken(s, start, count - 1);
      TakeRun(usable, s, start, count - 1, taken);
      RunTakenNext(s, start, count);
      TakeInto(usable, t, f, RunTaken(s, start, count), taken + count - 1);
    }
  }

  lemma TakeInto(usable: set<nat>, s: Frames, f: nat, t: Frames, taken: nat)
    requires Conserved(usable, s) && Tallied(usable, s.used, taken) && Free(s, f)
    requires t == s.(used := s.used[f := true], held := s.held + {f})
    ensures Conserved(usable, t) && Tallied(usable, t.used, taken + 1)
  {
    TakeFree(usable, s, f);
    CountTaken(usable, s.used, f, taken);
  }

  /** FRAME_REFS after storing 1 at the `count` frames from `start` that are in range. */
  function StoreOnes(refs: seq<nat>, start: nat, count: nat): (r: seq<nat>)
    ensures |r| == |refs|
    ensures forall f :: 0 <= f < |refs| ==> r[f] == if start <= f < start + count then 1 else refs[f]
  {
    seq(|refs|, f requires 0 <= f < |refs| => if start <= f < start + count then 1 else refs[f])
  }

  /** The frames past the clamp have references. */
  predicate LivePast(refs: seq<nat>, start: nat, count: nat) {
    forall f :: start + ClampedCount(count) <= f < start + count && f < |refs| ==> 0 < refs[f]
  }

  /** Storing a reference for frames that nobody took conserves the frames exactly when they were live. */
  lemma StoreExact(usable: set<nat>, s: Frames, start: nat, count: nat)
    requires Conserved(usable, s)
    ensures Conserved(usable, s.(refs := StoreOnes(s.refs, start, count)))
            <==> forall f :: start <= f < start + count && f < MAX_FRAMES ==> 0 < s.refs[f]
  {
    var t := s.(refs := StoreOnes(s.refs, start, count));
    assert forall f: nat :: Free(t, f) <==> Free(s, f);
    assert forall f: nat :: Live(t, f) <==> f < MAX_FRAMES && (Live(s, f) || start <= f < start + count);
    if Conserved(usable, t) {
      forall f | start <= f < start + count && f < MAX_FRAMES ensures 0 < s.refs[f] {
        assert Live(t, f);
      }
    }
  }

  /**
   * `allocate_contiguous_frames` takes at most 32 frames from the bitmap but
   * stores a reference for each of the `count` frames it was asked for. That
   * conserves the frames exactly when every frame past the run was live already.
   */
  lemma ContiguousExact(usable: set<nat>, s: Frames, start: nat, count: nat)
    requires Conserved(usable, s)
    requires FreeRun(s.used, start, ClampedCount(count))
    ensures var n := ClampedCount(count);
            Conserved(usable, s.(used := SetRange(s.used, start, n), refs := StoreOnes(s.refs, start, count)))
            <==> forall f :: start + n <= f < start + count && f < MAX_FRAMES ==> Live(s, f)
  {
    var n := ClampedCount(count);
    var t := s.(used := SetRange(s.used, start, n), refs := StoreOnes(s.refs, start, count));
    assert forall f: nat :: Free(t, f) <==> Free(s, f) && !(start <= f < start + n);
    assert forall f: nat :: Live(t, f) <==> f < MAX_FRAMES && (Live(s, f) || start <= f < start + count);
    assert forall f: nat :: start <= f < start + n ==> Free(s, f);
    if Conserved(usable, t) {
      forall f | start + n <= f < start + count && f < MAX_FRAMES ensures Live(s, f) {
        assert Live(t, f);
        assert f in usable && !Free(s, f);
      }
    }
  }

  /** Every request above the clamp can break conservation; up to the clamp none does. */
  lemma ContiguousClamp(count: nat)
    ensures count <= 32 <==>
              forall usable: set<nat>, s: Frames, start: nat ::
                Conserved(usable, s) && FreeRun(s.used, start, ClampedCount(count)) ==>
                  Conserved(usable, s.(used := SetRange(s.used, start, ClampedCount(count)),
                                       refs := StoreOnes(s.refs, start, count)))
  {
    if count <= 32 {
      forall usable: set<nat>, s: Frames, start: nat
        | Conserved(usable, s) && FreeRun(s.used, start, ClampedCount(count))
        ensures Conserved(usable, s.(used := SetRange(s.used, start, ClampedCount(count)),
                                     refs := StoreOnes(s.refs, start, count)))
      {
        ContiguousExact(usable, s, start, count);
      }
    } else {
      var s := Frames(seq(MAX_FRAMES, f => false), seq(CORES, c => []), seq(MAX_FRAMES, f => 0), {});
      var usable := FreeSet(s.used);
      assert forall f: nat :: !Live(s, f) && !Cached(s.caches, f);
      assert Conserved(usable, s);
      ContiguousExact(usable, s, 0, count);
      assert !Live(s, 32);
      assert FreeRun(s.used, 0, ClampedCount(count));
    }
  }
}
