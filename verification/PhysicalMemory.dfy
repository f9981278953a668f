/**
 * The frame allocator of kernel/src/memory/physical.rs as its callers see it:
 * the global bitmap, the frame caches of 32 cores and the reference counts.
 *
 * `allocate_frame` and `deallocate_frame` are split at the points where another
 * core can run: the cache and bitmap part runs under the core's cache lock and
 * the bitmap lock, the reference count part is one atomic store or
 * compare-and-swap. Frames are named by index, that is by address shifted right by 12.
 */
module PhysicalMemory {
  import opened Wrappers
  import opened FrameBitmap
  import opened FrameConservation
  import opened Machine

  /** What a cache keeps when a frame comes back to it: a full one keeps its lower half. */
  function Kept(cache: seq<nat>): seq<nat> {
    if |cache| == CACHE_SLOTS then cache[..CACHE_SLOTS - 8] else cache
  }

  class Memory {
    const global: FrameAllocator
    var caches: seq<seq<nat>>
    var refs: seq<nat>
    /** Frames in the registers of a core that is between two atomic steps. */
    var held: set<nat>
    ghost const usable: set<nat>

    ghost function View(): Frames
      reads this, global, global.bits
    {
      Frames(global.Used(), caches, refs, held)
    }

    ghost predicate Valid()
      reads this, global, global.bits
    {
      && global.Shape() && global.initialized
      && Conserved(usable, View())
      && Tallied(usable, global.Used(), global.allocatedFrames)
    }

    /** No frame below the hint is free, so that the search from the hint finds the lowest free frame. */
    ghost predicate HintLow()
      reads global, global.bits
    {
      NoneBelow(global.Used(), global.nextFreeHint)
    }

    /** The end of `init`: `reserved` is the bitmap after the memory map and the boot page tables. */
    constructor (reserved: seq<bool>)
      requires |reserved| == MAX_FRAMES
      ensures Valid() && fresh(global) && fresh(global.bits)
      ensures View() == Frames(reserved, seq(CORES, c => []), seq(MAX_FRAMES, f => 0), {})
      ensures usable == set f: nat | f < MAX_FRAMES && !reserved[f]
      ensures global.totalFrames == |usable| && global.allocatedFrames == 0 && global.nextFreeHint == 0
    {
      global := new FrameAllocator(reserved);
      caches := seq(CORES, c => []);
      refs := seq(MAX_FRAMES, f => 0);
      held := {};
      usable := set f: nat | f < MAX_FRAMES && !reserved[f];
      new;
      assert FreeSet(global.Used()) == usable;
      assert forall f: nat :: !Cached(caches, f) && !Live(View(), f);
    }

    /** Hand the frame on top of core `core`'s cache to the caller. */
    method Pop(core: nat) returns (f: nat)
      requires Valid() && core < CORES && 0 < |caches[core]|
      modifies this`caches, this`held
      ensures Valid()
      ensures f == old(caches[core])[|old(caches[core])| - 1]
      ensures caches == old(caches)[core := old(caches[core])[..|old(caches[core])| - 1]]
      ensures f !in old(held) && held == old(held) + {f}
    {
      Unpark(usable, View(), core);
      var n := |caches[core]| - 1;
      f := caches[core][n];
      assert InCache(caches, core, f);
      caches := caches[core := caches[core][..n]];
      held := held + {f};
    }

    /** Put a held frame on core `core`'s cache. */
    method Push(core: nat, f: nat)
      requires Valid() && core < CORES && |caches[core]| < CACHE_SLOTS && f in held
      modifies this`caches, this`held
      ensures Valid()
      ensures caches == old(caches)[core := old(caches[core]) + [f]]
      ensures held == old(held) - {f}
    {
      Park(usable, View(), core, f);
      caches := caches[core := caches[core] + [f]];
      held := held - {f};
    }

    /** Take a frame out of the bitmap. */
    method TakeGlobal() returns (r: Option<nat>)
      requires Valid()
      modifies this`held, global`allocatedFrames, global`nextFreeHint, global.bits
      ensures Valid()
      ensures r.None? <==> AllUsed(old(global.Used()))
      ensures r.None? ==> held == old(held) && global.Used() == old(global.Used())
      ensures r.Some? ==> r.value < MAX_FRAMES && !old(global.Used())[r.value] && r.value !in old(held)
      ensures r.Some? ==> held == old(held) + {r.value}
      ensures r.Some? ==> FirstFree(old(global.Used()), old(global.nextFreeHint), r.value)
      ensures old(HintLow()) ==> HintLow()
    {
      ghost var before := View();
      r := global.Allocate();
      if r.Some? {
        assert Free(before, r.value);
        TakeFree(usable, before, r.value);
        CountTaken(usable, before.used, r.value, old(global.allocatedFrames));
        held := held + {r.value};
      }
    }

    /** Give a held frame back to the bitmap. */
    method GiveGlobal(f: nat)
      requires Valid() && f in held
      modifies this`held, global`allocatedFrames, global`nextFreeHint, global.bits
      ensures Valid()
      ensures held == old(held) - {f} && global.Used() == old(global.Used())[f := false]
      ensures old(HintLow()) ==> HintLow()
    {
      ghost var before := View();
      assert !Free(before, f);
      assert forall g :: g in FreeSet(before.used) ==> Free(before, g);
      CountGiven(usable, before.used, f, global.allocatedFrames);
      GiveFree(usable, before, f);
      global.Deallocate(f);
      held := held - {f};
    }

    /** A frame that the refill took beyond its first goes to the cache, or back if that is full. */
    method Spare(core: nat, f: nat)
      requires Valid() && core < CORES && |caches[core]| <= 15 && f in held
      modifies this`caches, this`held, global`allocatedFrames, global`nextFreeHint, global.bits
      ensures Valid() && held == old(held) - {f} && (old(HintLow()) ==> HintLow())
      ensures caches == if |old(caches)[core]| < 15 then old(caches)[core := old(caches)[core] + [f]] else old(caches)
    {
      if |caches[core]| < 15 {
        Push(core, f);
      } else {
        GiveGlobal(f);
      }
    }

    /** Refill an empty cache with up to seven frames and keep one more for the caller. */
    method Refill(core: nat) returns (first: Option<nat>)
      requires Valid() && core < CORES && caches[core] == []
      modifies this`caches, this`held, global`allocatedFrames, global`nextFreeHint, global.bits
      ensures Valid()
      ensures first.None? <==> AllUsed(old(global.Used()))
      ensures first.None? ==> View() == old(View())
      ensures first.Some? ==> first.value !in old(held) && held == old(held) + {first.value}
      ensures first.Some? ==> FirstFree(old(global.Used()), old(global.nextFreeHint), first.value)
      ensures first.Some? ==> |caches[core]| == 7 || (|caches[core]| < 7 && AllUsed(global.Used()))
      ensures old(HintLow()) ==> HintLow()
      ensures forall c :: 0 <= c < CORES && c != core ==> caches[c] == old(caches)[c]
    {
      first := None;
      for i := 0 to 8
        invariant Valid() && |caches[core]| == (if i == 0 then 0 else i - 1) && (old(HintLow()) ==> HintLow())
        invariant first.None? ==> i == 0 && View() == old(View()) && global.nextFreeHint == old(global.nextFreeHint)
        invariant first.Some? ==> i > 0 && FirstFree(old(global.Used()), old(global.nextFreeHint), first.value)
        invariant first.Some? ==> !AllUsed(old(global.Used()))
        invariant first.Some? ==> first.value !in old(held) && held == old(held) + {first.value}
        invariant forall c :: 0 <= c < CORES && c != core ==> caches[c] == old(caches)[c]
      {
        var r := TakeGlobal();
        if r.None? {
          return;
        }
        if first.None? {
          first := r;
        } else {
          Spare(core, r.value);
        }
      }
    }

    /** The locked part of `allocate_frame`: cache, then refill, or the bitmap directly past core 31. */
    method TakeFrame(core: nat) returns (r: Option<nat>)
      requires Valid()
      modifies this`caches, this`held, global`allocatedFrames, global`nextFreeHint, global.bits
      ensures Valid()
      ensures r.None? <==> AllUsed(old(global.Used())) && (core < CORES ==> old(caches)[core] == [])
      ensures r.None? ==> View() == old(View())
      ensures r.Some? ==> r.value !in old(held) && held == old(held) + {r.value}
      ensures core < CORES && old(caches)[core] != [] ==>
                && r == Some(old(caches)[core][|old(caches)[core]| - 1])
                && caches[core] == old(caches)[core][..|old(caches)[core]| - 1] && global.Used() == old(global.Used())
      ensures r.Some? && (core >= CORES || old(caches)[core] == []) ==>
                FirstFree(old(global.Used()), old(global.nextFreeHint), r.value)
      ensures core < CORES && old(caches)[core] == [] && r.Some? ==>
                |caches[core]| == 7 || (|caches[core]| < 7 && AllUsed(global.Used()))
      ensures core >= CORES ==> caches == old(caches)
      ensures old(HintLow()) ==> HintLow()
      ensures forall c :: 0 <= c < CORES && c != core ==> caches[c] == old(caches)[c]
    {
      if core < CORES {
        if 0 < |caches[core]| {
          var f := Pop(core);
          return Some(f);
        }
        r := Refill(core);
      } else {
        r := TakeGlobal();
      }
    }

    /** The atomic store that gives a held frame its first reference. */
    method StoreRef(f: nat)
      requires Valid() && f in held
      modifies this`refs, this`held
      ensures Valid()
      ensures refs == old(refs)[f := 1] && held == old(held) - {f} && old(refs)[f] == 0
    {
      Activate(usable, View(), f);
      assert !Live(View(), f);
      refs := refs[f := 1];
      held := held - {f};
    }

    method AllocateFrame(core: nat) returns (r: Option<nat>)
      requires Valid()
      modifies this, global, global.bits
      ensures Valid() && held == old(held)
      ensures r.None? <==> AllUsed(old(global.Used())) && (core < CORES ==> old(caches)[core] == [])
      ensures r.None? ==> View() == old(View())
      ensures r.Some? ==> r.value < MAX_FRAMES && old(refs)[r.value] == 0 && r.value !in held
      ensures r.Some? ==> refs == old(refs)[r.value := 1] && r.value in usable
      // the frame on top of the core's cache, else the first free one from the hint on
      ensures r.Some? ==>
                if core < CORES && old(caches)[core] != [] then r.value == old(caches)[core][|old(caches)[core]| - 1]
                else FirstFree(old(global.Used()), old(global.nextFreeHint), r.value)
    {
      r := TakeFrame(core);
      if r.Some? {
        StoreRef(r.value);
      }
    }

    /** `fetch_add(1)` on a u8. */
    method IncrementRef(f: nat)
      requires Valid()
      modifies this`refs
      ensures f < MAX_FRAMES ==> refs == old(refs)[f := (old(refs)[f] + 1) % 256]
      ensures f >= MAX_FRAMES ==> refs == old(refs)
      ensures Valid() <==> (f < MAX_FRAMES ==> 1 <= old(refs)[f] <= 254)
    {
      if f < MAX_FRAMES {
        IncrementExact(usable, View(), f);
        refs := refs[f := (refs[f] + 1) % 256];
      }
    }

    method DecrementRef(f: nat) returns (count: nat)
      requires Valid()
      modifies this`refs
      ensures f < MAX_FRAMES ==> refs == old(refs)[f := count]
      ensures f < MAX_FRAMES ==> count == if old(refs)[f] == 0 then 0 else old(refs)[f] - 1
      ensures f >= MAX_FRAMES ==> refs == old(refs) && count == 0
      ensures Valid() <==> (f < MAX_FRAMES ==> old(refs)[f] != 1)
    {
      count := 0;
      if f < MAX_FRAMES {
        DecrementExact(usable, View(), f);
        count := Decremented(refs[f]);
        refs := refs[f := count];
      }
    }

    /** The compare-and-swap loop of `deallocate_frame`; true when the last reference is gone. */
    method DropRef(f: nat) returns (reclaim: bool)
      requires Valid() && f < MAX_FRAMES
      modifies this`refs, this`held
      ensures Valid()
      ensures reclaim <==> old(refs)[f] == 1
      ensures refs == old(refs)[f := if old(refs)[f] == 0 then 0 else old(refs)[f] - 1]
      ensures held == old(held) + if reclaim then {f} else {}
      ensures reclaim ==> f !in old(held)
    {
      var count := refs[f];
      if count == 0 {
        return false;
      }
      assert Live(View(), f);
      if count == 1 {
        Retire(usable, View(), f);
        held := held + {f};
      } else {
        RecountExact(usable, View(), f, count - 1);
      }
      refs := refs[f := count - 1];
      return count == 1;
    }

    /** Move up to `n` frames from the top of core `core`'s cache to the bitmap. */
    method Spill(core: nat, n: nat)
      requires Valid() && core < CORES && n <= |caches[core]|
      modifies this`caches, this`held, global`allocatedFrames, global`nextFreeHint, global.bits
      ensures Valid() && held == old(held)
      ensures caches == old(caches)[core := old(caches)[core][..|old(caches)[core]| - n]]
      ensures old(HintLow()) ==> HintLow()
    {
      ghost var was := caches[core];
      assert was[..|was| - 0] == was;
      for i := 0 to n
        invariant Valid() && held == old(held) && |caches| == CORES && (old(HintLow()) ==> HintLow())
        invariant caches[core] == was[..|was| - i]
        invariant forall c :: 0 <= c < CORES && c != core ==> caches[c] == old(caches)[c]
      {
        assert was[..|was| - i][..|was| - i - 1] == was[..|was| - i - 1];
        var f := Pop(core);
        GiveGlobal(f);
      }
    }

    /** The locked part of `deallocate_frame`: park the frame, spilling half of a full cache first. */
    method ReturnFrame(core: nat, f: nat)
      requires Valid() && f in held
      modifies this`caches, this`held, global`allocatedFrames, global`nextFreeHint, global.bits
      ensures Valid() && held == old(held) - {f}
      ensures core < CORES ==> Cached(caches, f) && caches == old(caches)[core := Kept(old(caches)[core]) + [f]]
      ensures core >= CORES ==> caches == old(caches) && global.Used() == old(global.Used())[f := false]
      ensures old(HintLow()) ==> HintLow()
    {
      if core < CORES {
        if |caches[core]| == CACHE_SLOTS {
          Spill(core, 8);
        }
        Push(core, f);
        assert InCache(caches, core, f);
      } else {
        GiveGlobal(f);
      }
    }

    method DeallocateFrame(core: nat, f: nat)
      requires Valid() && f < MAX_FRAMES
      modifies this, global, global.bits
      ensures Valid() && held == old(held)
      ensures refs == old(refs)[f := if old(refs)[f] == 0 then 0 else old(refs)[f] - 1]
      ensures old(refs)[f] != 1 ==> View() == old(View()).(refs := refs)
      ensures old(refs)[f] == 1 && core < CORES ==> caches == old(caches)[core := Kept(old(caches)[core]) + [f]]
      ensures old(refs)[f] == 1 && core >= CORES ==>
                caches == old(caches) && global.Used() == old(global.Used())[f := false]
      ensures old(refs)[f] == 1 ==> Free(View(), f) || Cached(caches, f)
    {
      var reclaim := DropRef(f);
      if reclaim {
        ReturnFrame(core, f);
        assert refs[f] == 0;
      }
    }

    method DrainLocalCache(core: nat)
      requires Valid()
      modifies this`caches, this`held, global`allocatedFrames, global`nextFreeHint, global.bits
      ensures Valid() && held == old(held)
      ensures caches == if core < CORES then old(caches)[core := []] else old(caches)
      ensures old(HintLow()) ==> HintLow()
    {
      if core < CORES {
        Spill(core, |caches[core]|);
      }
    }

    /** Sound exactly when every frame that gets a reference without having been taken was live already. */
    method AllocateContiguousFrames(core: nat, count: nat) returns (r: Option<nat>)
      requires Valid()
      modifies this, global, global.bits
      ensures held == old(held)
      ensures count == 0 ==> r.None?
      ensures 2 <= count ==>
                (r.None? <==> OnlySkipped(old(global.Used()), old(global.nextFreeHint), ClampedCount(count)))
      ensures r.None? ==> Valid() && View() == old(View())
      ensures r.Some? ==>
                && r.value + ClampedCount(count) <= MAX_FRAMES && refs == StoreOnes(old(refs), r.value, count)
                && (forall f :: r.value <= f < r.value + ClampedCount(count) ==> old(refs)[f] == 0)
                && (Valid() <==> LivePast(old(refs), r.value, count))
    {
      if count == 0 {
        return None;
      }
      if count == 1 {
        r := AllocateFrame(core);
        if r.Some? {
          assert refs == StoreOnes(old(refs), r.value, 1);
        }
        return;
      }
      r := ReserveRun(count);
      if r.Some? {
        var n := ClampedCount(count);
        assert forall f :: r.value <= f < r.value + n ==> f in RunSet(r.value, n);
        forall f | r.value <= f < r.value + n ensures refs[f] == 0 {
          assert !Live(View(), f);
        }
        StoreRun(r.value, n);
        StorePast(r.value + n, count - n);
        assert refs == StoreOnes(old(refs), r.value, count);
      }
    }

    /** The references past the run that was taken, one store after the other. */
    method StorePast(start: nat, count: nat)
      requires Valid()
      modifies this`refs
      ensures refs == StoreOnes(old(refs), start, count)
      ensures Valid() <==> forall f :: start <= f < start + count && f < MAX_FRAMES ==> 0 < old(refs)[f]
    {
      StoreExact(usable, View(), start, count);
      for i := 0 to count
        invariant refs == StoreOnes(old(refs), start, i)
      {
        if start + i < MAX_FRAMES {
          refs := refs[start + i := 1];
        }
      }
    }

    /** One store after the other gives each frame of a held run its reference. */
    method StoreRun(start: nat, count: nat)
      requires Valid() && RunSet(start, count) <= held
      modifies this`refs, this`held
      ensures Valid() && refs == StoreOnes(old(refs), start, count) && held == old(held) - RunSet(start, count)
    {
      for i := 0 to count
        invariant Valid() && refs == StoreOnes(old(refs), start, i) && held == old(held) - RunSet(start, i)
      {
        assert InRun(start + i, start, count) && start + i in RunSet(start, count);
        StoreRef(start + i);
        assert RunSet(start, i + 1) == RunSet(start, i) + {start + i};
      }
    }

    /** The locked part of `allocate_contiguous_frames`: the clamped run leaves the bitmap. */
    method ReserveRun(count: nat) returns (r: Option<nat>)
      requires Valid()
      modifies this`held, global`allocatedFrames, global`nextFreeHint, global.bits
      ensures Valid()
      ensures r.None? ==> View() == old(View())
      ensures 2 <= count ==>
                (r.None? <==> OnlySkipped(old(global.Used()), old(global.nextFreeHint), ClampedCount(count)))
      ensures r.Some? ==> r.value + ClampedCount(count) <= MAX_FRAMES
      ensures r.Some? ==> RunSet(r.value, ClampedCount(count)) !! old(held)
      ensures r.Some? ==> held == old(held) + RunSet(r.value, ClampedCount(count))
      ensures r.Some? ==> Reserved(old(View()), View(), r.value, ClampedCount(count))
    {
      ghost var before := View();
      r := global.AllocateContiguous(count);
      if r.Some? {
        TakeRun(usable, before, r.value, ClampedCount(count), old(global.allocatedFrames));
        forall f | f in RunSet(r.value, ClampedCount(count)) ensures f !in before.held {
          assert Free(before, f);
        }
        held := held + RunSet(r.value, ClampedCount(count));
      }
    }
  }

  /** The atomic steps other cores can interleave with. */
  datatype Step =
    | Take(core: nat)
    | Store(frame: nat)
    | Share(frame: nat)
    | Unshare(frame: nat)
    | Drop(frame: nat)
    | Return(core: nat, frame: nat)
    | Drain(core: nat)
    | Reserve(count: nat)

  /** What the callers owe each step. */
  ghost predicate Allowed(s: Frames, step: Step) {
    match step
    case Store(f) => f in s.held
    case Return(_, f) => f in s.held
    case Share(f) => f < |s.refs| && 1 <= s.refs[f] <= 254
    case Unshare(f) => f < |s.refs| && s.refs[f] != 1
    case Drop(f) => f < |s.refs|
    case _ => true
  }

  /** A frame is taken: the one on top of the core's cache, or a free one, if there is any. */
  ghost predicate Took(s: Frames, t: Frames, core: nat, f: nat) {
    && |s.caches| == |t.caches| == CORES && t.refs == s.refs && f !in s.held && t.held == s.held + {f}
    && (forall c :: 0 <= c < CORES && c != core ==> t.caches[c] == s.caches[c])
    && if core < CORES && s.caches[core] != [] then
         && t.used == s.used && f == s.caches[core][|s.caches[core]| - 1]
         && t.caches[core] == s.caches[core][..|s.caches[core]| - 1]
       else f < |s.used| && !s.used[f]
  }

  /** A free run of frames is taken out of the bitmap. */
  ghost predicate Reserved(s: Frames, t: Frames, start: nat, n: nat) {
    && FreeRun(s.used, start, n) && t.caches == s.caches && t.refs == s.refs
    && t.used == SetRange(s.used, start, n)
    && (forall f :: start <= f < start + n ==> f !in s.held)
    && (forall f :: f in t.held <==> f in s.held || start <= f < start + n)
  }

  /** What a step does to the frames. */
  ghost predicate Moves(s: Frames, t: Frames, step: Step) {
    match step
    case Take(core) =>
      if AllUsed(s.used) && (core < |s.caches| ==> s.caches[core] == []) then t == s
      else exists f :: Took(s, t, core, f)
    case Store(f) => f < |s.refs| && t == s.(refs := s.refs[f := 1], held := s.held - {f})
    case Share(f) => f < |s.refs| && t == s.(refs := s.refs[f := s.refs[f] + 1])
    case Unshare(f) => f < |s.refs| && t == s.(refs := s.refs[f := if s.refs[f] == 0 then 0 else s.refs[f] - 1])
    case Drop(f) =>
      && f < |s.refs|
      && t == s.(refs := s.refs[f := if s.refs[f] == 0 then 0 else s.refs[f] - 1],
                 held := if s.refs[f] == 1 then s.held + {f} else s.held)
    case Return(core, f) =>
      && t.refs == s.refs && t.held == s.held - {f} && |s.caches| == CORES
      && (core < CORES ==> t.caches == s.caches[core := Kept(s.caches[core]) + [f]])
      && (core >= CORES ==> f < |s.used| && t == s.(used := s.used[f := false], held := t.held))
    case Drain(core) =>
      && t.refs == s.refs && t.held == s.held && |s.caches| == CORES
      && t.caches == if core < CORES then s.caches[core := []] else s.caches
    case Reserve(n) => var k := if n < 32 then n else 32; t == s || exists start :: Reserved(s, t, start, k)
  }

  /** The steps that move frames between bitmap, caches and cores. */
  method PerformMove(m: Memory, step: Step) returns (ok: bool)
    requires m.Valid() && (step.Take? || step.Return? || step.Drain? || step.Reserve?)
    modifies m, m.global, m.global.bits
    ensures m.Valid()
    ensures ok <==> old(Allowed(m.View(), step))
    ensures if ok then Moves(old(m.View()), m.View(), step) else m.View() == old(m.View())
    ensures !step.Reserve? && old(m.HintLow()) ==> m.HintLow()
  {
    ok := true;
    match step {
      case Take(core) =>
        var r := m.TakeFrame(core);
        assert r.Some? ==> Took(old(m.View()), m.View(), core, r.value);
      case Return(core, f) => if f in m.held { m.ReturnFrame(core, f); } else { ok := false; }
      case Drain(core) => m.DrainLocalCache(core);
      case Reserve(n) => var _ := m.ReserveRun(n);
    }
  }

  /** The steps on reference counts. */
  method PerformCount(m: Memory, step: Step) returns (ok: bool)
    requires m.Valid() && (step.Store? || step.Share? || step.Unshare? || step.Drop?)
    modifies m`refs, m`held
    ensures m.Valid()
    ensures ok <==> old(Allowed(m.View(), step))
    ensures if ok then Moves(old(m.View()), m.View(), step) else m.View() == old(m.View())
  {
    ok := true;
    match step {
      case Store(f) => if f in m.held { m.StoreRef(f); } else { ok := false; }
      case Share(f) =>
        if f < MAX_FRAMES && 1 <= m.refs[f] <= 254 { m.IncrementRef(f); } else { ok := false; }
      case Unshare(f) =>
        if f < MAX_FRAMES && m.refs[f] != 1 { var _ := m.DecrementRef(f); } else { ok := false; }
      case Drop(f) => if f < MAX_FRAMES { var _ := m.DropRef(f); } else { ok := false; }
    }
  }

  method Perform(m: Memory, step: Step) returns (ok: bool)
    requires m.Valid()
    modifies m, m.global, m.global.bits
    ensures m.Valid()
    ensures ok <==> old(Allowed(m.View(), step))
    ensures if ok then Moves(old(m.View()), m.View(), step) else m.View() == old(m.View())
    ensures !step.Reserve? && old(m.HintLow()) ==> m.HintLow()
  {
    if step.Take? || step.Return? || step.Drain? || step.Reserve? {
      ok := PerformMove(m, step);
    } else {
      ok := PerformCount(m, step);
    }
  }

  /** Any interleaving of allowed steps, by any cores, conserves the frames and counts them. */
  method Interleave(m: Memory, steps: seq<Step>) returns (done: nat, ghost views: seq<Frames>)
    requires m.Valid()
    modifies m, m.global, m.global.bits
    ensures m.Valid() && done <= |steps|
    ensures done < |steps| ==> !Allowed(m.View(), steps[done])
    ensures |views| == done + 1 && views[0] == old(m.View()) && views[done] == m.View()
    ensures forall i :: 0 <= i < done ==> Moves(views[i], views[i + 1], steps[i])
    ensures m.usable == FreeSet(m.global.Used()) + CachedSet(m.View(), m.usable) + LiveSet(m.View()) + m.held
    ensures m.global.allocatedFrames == |CachedSet(m.View(), m.usable)| + |LiveSet(m.View())| + |m.held|
    ensures old(m.HintLow()) && (forall i :: 0 <= i < |steps| ==> !steps[i].Reserve?) ==> m.HintLow()
  {
    done, views := 0, [m.View()];
    var ok := true;
    while ok && done < |steps|
      invariant m.Valid() && done <= |steps|
      invariant |views| == done + 1 && views[0] == old(m.View()) && views[done] == m.View()
      invariant forall i :: 0 <= i < done ==> Moves(views[i], views[i + 1], steps[i])
      invariant old(m.HintLow()) && (forall i :: 0 <= i < |steps| ==> !steps[i].Reserve?) ==> m.HintLow()
      invariant !ok ==> done < |steps| && !Allowed(m.View(), steps[done])
      decreases |steps| - done, ok
    {
      ok := Perform(m, steps[done]);
      if ok {
        done, views := done + 1, views + [m.View()];
      }
    }
    AllocatedSizes(m.usable, m.View(), m.global.allocatedFrames);
  }
}
