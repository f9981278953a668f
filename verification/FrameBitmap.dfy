/**
 * The global frame bitmap of kernel/src/memory/physical.rs.
 *
 * One bit per 4 KiB frame, set when the frame is in use. The kernel stores the
 * bits in bytes and scans them eight bytes at a time as little-endian 64-bit
 * words; bit `i` of word `w` is then frame `64 * w + i`, so the bitmap is
 * modelled as the array of its bits and a word as a slice of 64 of them.
 */
module FrameBitmap {
  import opened Wrappers

  const MAX_FRAMES: nat := 4 * 1024 * 1024
  const WORD_BITS: nat := 64

  /** A 64-bit word, least significant bit first. */
  type Word = w: seq<bool> | |w| == WORD_BITS witness seq(WORD_BITS, i => false)

  const ALL_ONES: Word := seq(WORD_BITS, i => true)

  function Or(a: Word, b: Word): Word {
    seq(WORD_BITS, i requires 0 <= i < WORD_BITS => a[i] || b[i])
  }

  function Not(a: Word): Word {
    seq(WORD_BITS, i requires 0 <= i < WORD_BITS => !a[i])
  }

  /** `(1u64 << offset) - 1`: the bits below `offset`. */
  function LowMask(offset: nat): Word {
    seq(WORD_BITS, i => i < offset)
  }

  /** `u64::trailing_zeros`. */
  function TrailingZeros(w: Word, from: nat := 0): (n: nat)
    requires from <= WORD_BITS
    ensures from <= n <= WORD_BITS
    ensures forall i :: from <= i < n ==> !w[i]
    ensures n < WORD_BITS ==> w[n]
    decreases WORD_BITS - from
  {
    if from == WORD_BITS || w[from] then from else TrailingZeros(w, from + 1)
  }

  /** The reference scan: look at `remaining` frames one by one, cyclically. */
  function CyclicScan(used: seq<bool>, index: nat, remaining: nat): Option<nat>
    requires index < |used|
    decreases remaining
  {
    if remaining == 0 then None
    else if !used[index] then Some(index)
    else CyclicScan(used, if index + 1 == |used| then 0 else index + 1, remaining - 1)
  }

  /** `used` with the `count` bits from `start` set. */
  function SetRange(used: seq<bool>, start: nat, count: nat): (r: seq<bool>)
    ensures |r| == |used|
    ensures forall i :: 0 <= i < |used| ==> r[i] == (start <= i < start + count || used[i])
  {
    seq(|used|, i requires 0 <= i < |used| => start <= i < start + count || used[i])
  }

  /** The `count` frames from `start` are all inside the bitmap and free. */
  ghost predicate FreeRun(used: seq<bool>, start: nat, count: nat) {
    start + count <= |used| && forall i :: start <= i < start + count ==> !used[i]
  }

  /** Going up cyclically from `start`, the search for a run has gone by `searched` frames, `s` among them. */
  predicate Passed(size: nat, start: nat, searched: nat, s: nat) {
    if start + searched <= size then start <= s < start + searched else start <= s < size || s < start + searched - size
  }

  function Wrapped(i: nat, size: nat): nat {
    if i < size then i else i - size
  }

  lemma WrapsAround(i: nat)
    requires i < 2 * MAX_FRAMES
    ensures i % MAX_FRAMES == Wrapped(i, MAX_FRAMES)
  {
  }

  /** The index, moved on and around. */
  method MovedOn(index: nat, advance: nat) returns (next: nat)
    requires index + advance < 2 * MAX_FRAMES
    ensures next == Wrapped(index + advance, MAX_FRAMES)
  {
    next := (index + advance) % MAX_FRAMES;
  }

  /** Only a run at frame 0 can be gone by: a free last frame makes the search jump over frame 0. */
  ghost predicate Skipped(used: seq<bool>, start: nat, s: nat) {
    s == 0 && 0 < start && 0 < |used| && !used[|used| - 1]
  }

  /** There is no run, or just one that the search skips. */
  ghost predicate OnlySkipped(used: seq<bool>, start: nat, count: nat) {
    forall s: nat :: FreeRun(used, s, count) ==> Skipped(used, start, s)
  }

  /** Frame `r` starts the first run met going up cyclically from `start`, but for one that the search skips. */
  ghost predicate FirstRun(used: seq<bool>, start: nat, count: nat, r: nat) {
    && FreeRun(used, r, count)
    && forall s: nat :: FreeRun(used, s, count) && (if start <= r then start <= s < r else start <= s || s < r) ==>
         Skipped(used, start, s)
  }

  /** The search is at `index`, and has gone by no run but one that it skips. */
  ghost predicate NoRunYet(used: seq<bool>, start: nat, count: nat, searched: nat, index: nat) {
    && index < |used| && (searched < |used| ==> index == Wrapped(start + searched, |used|))
    && (forall s: nat :: Passed(|used|, start, searched, s) && FreeRun(used, s, count) ==> Skipped(used, start, s))
    && (index == 0 && 0 < start ==> used[|used| - 1])
  }

  lemma FoundFirst(used: seq<bool>, start: nat, count: nat, searched: nat, index: nat)
    requires start < |used| && NoRunYet(used, start, count, searched, index) && searched < |used|
    requires 0 < count && FreeRun(used, index, count)
    ensures FirstRun(used, start, count, index)
  {
    forall s: nat | FreeRun(used, s, count) && (if start <= index then start <= s < index else start <= s || s < index)
      ensures Skipped(used, start, s)
    {
      assert s < |used|;
      assert Passed(|used|, start, searched, s);
    }
  }

  /** Frames that start no run are gone by. */
  lemma PassOn(used: seq<bool>, start: nat, count: nat, searched: nat, index: nat, advance: nat)
    requires start < |used| && NoRunYet(used, start, count, searched, index) && searched < |used|
    requires 0 < advance && index + advance <= |used| && (index + advance == |used| ==> used[|used| - 1])
    requires forall s: nat :: index <= s < index + advance ==> !FreeRun(used, s, count)
    ensures NoRunYet(used, start, count, searched + advance, Wrapped(index + advance, |used|))
  {
    forall s: nat | Passed(|used|, start, searched + advance, s) && FreeRun(used, s, count)
      ensures Skipped(used, start, s)
    {
      assert s < |used|;
      assert Passed(|used|, start, searched, s) || index <= s < index + advance;
    }
  }

  lemma PassUsed(used: seq<bool>, start: nat, count: nat, searched: nat, index: nat, advance: nat)
    requires start < |used| && NoRunYet(used, start, count, searched, index) && searched < |used| && 0 < count
    requires 0 < advance && index + advance <= |used| && forall g :: index <= g < index + advance ==> used[g]
    ensures NoRunYet(used, start, count, searched + advance, Wrapped(index + advance, |used|))
  {
    forall s: nat | index <= s < index + advance ensures !FreeRun(used, s, count) {
      assert used[s];
    }
    PassOn(used, start, count, searched, index, advance);
  }

  /** A run that is cut off by the last frame: the search goes on at frame 1. */
  lemma PassEnd(used: seq<bool>, start: nat, count: nat, searched: nat, index: nat)
    requires start < |used| && NoRunYet(used, start, count, searched, index) && searched < |used| && 1 < |used|
    requires FreeRun(used, index, |used| - index) && |used| - index < count
    ensures NoRunYet(used, start, count, searched + (|used| - index) + 1, 1)
  {
    forall s: nat | Passed(|used|, start, searched + (|used| - index) + 1, s) && FreeRun(used, s, count)
      ensures Skipped(used, start, s)
    {
      assert s < |used|;
      assert Passed(|used|, start, searched, s) || index <= s || s == 0;
    }
  }

  /** A run of `i` frames that is cut off by a used frame. */
  lemma PassShort(used: seq<bool>, start: nat, count: nat, searched: nat, index: nat, i: nat)
    requires start < |used| && NoRunYet(used, start, count, searched, index) && searched < |used|
    requires i < count && index + i < |used| && used[index + i]
    ensures NoRunYet(used, start, count, searched + i + 1, Wrapped(index + i + 1, |used|))
  {
    forall s: nat | index <= s < index + i + 1 ensures !FreeRun(used, s, count) {
      assert s <= index + i < s + count;
    }
    PassOn(used, start, count, searched, index, i + 1);
  }

  /** Bitmaps exist with just a run that the search skips. */
  lemma RunSkipped(used: seq<bool>, start: nat, count: nat)
    requires 0 < start && 2 <= count && |used| > count + 1
    requires forall f :: 0 <= f < |used| ==> used[f] == (count <= f < |used| - 1)
    ensures FreeRun(used, 0, count) && OnlySkipped(used, start, count)
  {
    assert used[count];
    forall s: nat ensures FreeRun(used, s, count) ==> s == 0 {
      if s + count <= |used| {
        assert count < s ==> used[s];
      }
    }
  }

  function ClampedCount(count: nat): (n: nat)
    ensures n <= count && n <= 32 && (n == count || n == 32)
  {
    if count < 32 then count else 32
  }

  /** `f` is free and every frame met before it, going up cyclically from `start`, is used. */
  ghost predicate FirstFree(used: seq<bool>, start: nat, f: nat) {
    && f < |used| && start < |used|
    && !used[f]
    && (start <= f ==> forall g :: start <= g < f ==> used[g])
    && (f < start ==> forall g :: (start <= g < |used| || 0 <= g < f) ==> used[g])
  }

  ghost predicate AllUsed(used: seq<bool>) {
    forall g :: 0 <= g < |used| ==> used[g]
  }

  /** No frame below `hint` is free. */
  ghost predicate NoneBelow(used: seq<bool>, hint: nat) {
    forall g :: 0 <= g < hint && g < |used| ==> used[g]
  }

  ghost predicate LowestFree(used: seq<bool>, f: nat) {
    f < |used| && !used[f] && NoneBelow(used, f)
  }

  lemma {:induction false} ScanUpFinds(used: seq<bool>, index: nat, remaining: nat, f: nat)
    requires index <= f < |used| && !used[f]
    requires forall g :: index <= g < f ==> used[g]
    requires f - index < remaining
    ensures CyclicScan(used, index, remaining) == Some(f)
    decreases f - index
  {
    if index < f {
      ScanUpFinds(used, index + 1, remaining - 1, f);
    }
  }

  lemma {:induction false} ScanUpSkips(used: seq<bool>, index: nat, remaining: nat)
    requires index < |used| && |used| - index <= remaining
    requires forall g :: index <= g < |used| ==> used[g]
    ensures CyclicScan(used, index, remaining) == CyclicScan(used, 0, remaining - (|used| - index))
    decreases |used| - index
  {
    if index + 1 < |used| {
      ScanUpSkips(used, index + 1, remaining - 1);
    }
  }

  lemma {:induction false} ScanAllUsed(used: seq<bool>, index: nat, remaining: nat)
    requires index < |used| && AllUsed(used)
    ensures CyclicScan(used, index, remaining) == None
    decreases remaining
  {
    if remaining > 0 {
      ScanAllUsed(used, if index + 1 == |used| then 0 else index + 1, remaining - 1);
    }
  }

  /** The declarative description of the frame found is the reference scan's result. */
  lemma FirstFreeIsScan(used: seq<bool>, start: nat, f: nat)
    requires FirstFree(used, start, f)
    ensures CyclicScan(used, start, |used|) == Some(f)
  {
    if start <= f {
      ScanUpFinds(used, start, |used|, f);
    } else {
      ScanUpSkips(used, start, |used|);
      ScanUpFinds(used, 0, start, f);
    }
  }

  /** What one masked word says about the frames from `index` to the end of its word. */
  lemma WordScan(used: seq<bool>, base: nat, offset: nat)
    requires offset < WORD_BITS && base + WORD_BITS <= |used|
    ensures var masked := Or(used[base..base + WORD_BITS], LowMask(offset));
            var f := base + TrailingZeros(Not(masked));
            if masked == ALL_ONES then
              forall g :: base + offset <= g < base + WORD_BITS ==> used[g]
            else
              && base + offset <= f < base + WORD_BITS && !used[f]
              && forall g :: base + offset <= g < f ==> used[g]
  {
    var masked := Or(used[base..base + WORD_BITS], LowMask(offset));
    var n := TrailingZeros(Not(masked));
    assert n == WORD_BITS ==> masked == ALL_ONES by {
      forall i | 0 <= i < n ensures masked[i] {
        assert !Not(masked)[i];
      }
    }
    if masked == ALL_ONES {
      forall g | base + offset <= g < base + WORD_BITS ensures used[g] {
        assert masked[g - base];
      }
    } else {
      assert Not(masked)[n] && !masked[n];
      forall g | base + offset <= g < base + n ensures used[g] {
        assert !Not(masked)[g - base];
      }
    }
  }

  /** `searched` frames from `start` have been seen in use and the scan stands at `index`. */
  ghost predicate Scanned(used: seq<bool>, start: nat, searched: nat, index: nat) {
    if searched >= |used| then AllUsed(used)
    else
      || (index == start + searched && forall g :: start <= g < index && g < |used| ==> used[g])
      || (index + |used| == start + searched
          && forall g :: (start <= g < |used| || 0 <= g < index) && g < |used| ==> used[g])
  }

  lemma AdvanceScan(used: seq<bool>, start: nat, searched: nat, index: nat, advance: nat)
    requires Scanned(used, start, searched, index) && searched < |used|
    requires start < |used| && 0 < advance && index + advance <= |used|
    requires forall g :: index <= g < index + advance ==> used[g]
    ensures Scanned(used, start, searched + advance, (index + advance) % |used|)
  {
    if index + advance < |used| {
      assert (index + advance) % |used| == index + advance;
    } else {
      assert (index + advance) % |used| == 0;
    }
  }

  /** While no frame below the hint is free, the cyclic scan is a lowest-first scan. */
  lemma HintScanIsLowest(used: seq<bool>, hint: nat, f: nat)
    requires NoneBelow(used, hint) && FirstFree(used, hint, f)
    ensures LowestFree(used, f) && hint <= f
    ensures NoneBelow(used[f := true], Wrapped(f + 1, |used|))
  {
  }

  class FrameAllocator {
    /** One bit per frame; true means allocated or reserved. */
    const bits: array<bool>
    var totalFrames: nat
    var allocatedFrames: nat
    var nextFreeHint: nat
    var initialized: bool

    /** The state `init` leaves: `reserved` marks the frames that are not usable. */
    constructor (reserved: seq<bool>)
      requires |reserved| == MAX_FRAMES
      ensures Shape() && initialized && fresh(bits) && Used() == reserved
      ensures totalFrames == |set f: nat | f < MAX_FRAMES && !reserved[f]|
      ensures allocatedFrames == 0 && nextFreeHint == 0
    {
      bits := new bool[MAX_FRAMES](i requires 0 <= i < MAX_FRAMES => reserved[i]);
      nextFreeHint := 0;
      allocatedFrames := 0;
      initialized := true;
      var actualFree := 0;
      for i := 0 to MAX_FRAMES
        invariant actualFree == |set f: nat | f < i && !reserved[f]|
      {
        ghost var before := set f: nat | f < i && !reserved[f];
        ghost var after := set f: nat | f < i + 1 && !reserved[f];
        assert after == if reserved[i] then before else before + {i};
        if !reserved[i] {
          actualFree := actualFree + 1;
        }
      }
      totalFrames := actualFree;
    }

    ghost predicate Shape()
      reads this
    {
      bits.Length == MAX_FRAMES && nextFreeHint < MAX_FRAMES
    }

    ghost function Used(): seq<bool>
      reads bits
    {
      bits[..]
    }

    /** The search of `allocate`: a word at a time, from the middle of the hint's word. */
    method Find() returns (r: Option<nat>)
      requires Shape()
      ensures r == CyclicScan(Used(), nextFreeHint, MAX_FRAMES)
      ensures r.None? <==> AllUsed(Used())
      ensures r.Some? ==> FirstFree(Used(), nextFreeHint, r.value)
    {
      var searched: nat := 0;
      var index: nat := nextFreeHint;
      ghost var start, used := nextFreeHint, Used();
      while searched < MAX_FRAMES
        invariant index < MAX_FRAMES
        invariant Scanned(used, start, searched, index)
        decreases MAX_FRAMES - searched
      {
        var bitOffset := index % WORD_BITS;
        var base := index / WORD_BITS * WORD_BITS;
        var maskedVal := Or(bits[base..base + WORD_BITS], LowMask(bitOffset));
        assert bits[base..base + WORD_BITS] == used[base..base + WORD_BITS];
        WordScan(used, base, bitOffset);
        if maskedVal == ALL_ONES {
          var advance := WORD_BITS - bitOffset;
          AdvanceScan(used, start, searched, index, advance);
          searched := searched + advance;
          index := (index + advance) % MAX_FRAMES;
        } else {
          var freeFrame := base + TrailingZeros(Not(maskedVal));
          FirstFreeIsScan(used, start, freeFrame);
          return Some(freeFrame);
        }
      }
      ScanAllUsed(used, start, MAX_FRAMES);
      return None;
    }

    /** Find and allocate a free frame. */
    method Allocate() returns (r: Option<nat>)
      requires Shape()
      modifies this`allocatedFrames, this`nextFreeHint, bits
      ensures Shape()
      ensures r == if initialized then CyclicScan(old(Used()), old(nextFreeHint), MAX_FRAMES) else None
      ensures r.None? ==> Used() == old(Used()) && allocatedFrames == old(allocatedFrames)
                          && nextFreeHint == old(nextFreeHint)
      ensures r.None? && initialized ==> AllUsed(Used())
      ensures r.Some? ==> FirstFree(old(Used()), old(nextFreeHint), r.value)
      ensures r.Some? ==> Used() == old(Used())[r.value := true]
      ensures r.Some? ==> allocatedFrames == old(allocatedFrames) + 1
      ensures r.Some? ==> nextFreeHint == (r.value + 1) % MAX_FRAMES
      ensures old(NoneBelow(Used(), nextFreeHint)) ==>
                NoneBelow(Used(), nextFreeHint) && (r.Some? ==> LowestFree(old(Used()), r.value))
    {
      if !initialized {
        return None;
      }
      ghost var used, hint := Used(), nextFreeHint;
      r := Find();
      if r.Some? {
        WrapsAround(r.value + 1);
        if NoneBelow(used, hint) {
          HintScanIsLowest(used, hint, r.value);
        }
        bits[r.value] := true;
        assert Used() == used[r.value := true];
        allocatedFrames := allocatedFrames + 1;
        nextFreeHint := (r.value + 1) % MAX_FRAMES;
      }
    }

    /** The frames from `index` to the end of its word if all of them are used, otherwise none. */
    method FullFrom(index: nat) returns (n: nat)
      requires Shape() && index < MAX_FRAMES
      ensures n == 0 || n == WORD_BITS - index % WORD_BITS
      ensures index + n <= MAX_FRAMES && forall g :: index <= g < index + n ==> Used()[g]
      ensures n == 0 ==> exists g :: index <= g < index / WORD_BITS * WORD_BITS + WORD_BITS && !Used()[g]
    {
      var bitOffset := index % WORD_BITS;
      var base := index / WORD_BITS * WORD_BITS;
      WordScan(Used(), base, bitOffset);
      if Or(bits[base..base + WORD_BITS], LowMask(bitOffset)) == ALL_ONES {
        return WORD_BITS - bitOffset;
      }
      return 0;
    }

    /** How many of the `count` frames from a free one on are free, up to the first that is not. */
    method FreeLength(index: nat, count: nat) returns (i: nat)
      requires Shape() && 1 <= count && index < MAX_FRAMES && !bits[index]
      ensures 1 <= i <= count && FreeRun(Used(), index, i)
      ensures i < count ==> index + i == MAX_FRAMES || Used()[index + i]
    {
      i := 1;
      while i < count && index + i < MAX_FRAMES && !bits[index + i]
        invariant 1 <= i <= count && FreeRun(Used(), index, i)
      {
        i := i + 1;
      }
    }

    /** One turn of the search: a run starts at `index`, or the search moves on. */
    method RunTurn(count: nat, searched: nat, index: nat, ghost start: nat)
      returns (found: bool, searched': nat, index': nat)
      requires Shape() && 2 <= count && searched < MAX_FRAMES && start < MAX_FRAMES
      requires NoRunYet(Used(), start, count, searched, index)
      ensures found ==> FreeRun(Used(), index, count)
      ensures !found ==> searched < searched' && NoRunYet(Used(), start, count, searched', index')
    {
      ghost var used := Used();
      var advance := FullFrom(index);
      assert used == Used();
      if advance > 0 {
        PassUsed(used, start, count, searched, index, advance);
      } else if !bits[index] {
        var i := FreeLength(index, count);
        if i == count {
          return true, searched, index;
        }
        if index + i < MAX_FRAMES {
          PassShort(used, start, count, searched, index, i);
        } else {
          PassEnd(used, start, count, searched, index);
        }
        advance := i + 1;
      } else {
        PassShort(used, start, count, searched, index, 0);
        advance := 1;
      }
      found, searched' := false, searched + advance;
      index' := MovedOn(index, advance);
    }

    /** The search of `allocate_contiguous`, for at least two frames. */
    method FindRun(count: nat) returns (r: Option<nat>)
      requires Shape() && 2 <= count
      ensures r.Some? ==> FirstRun(Used(), nextFreeHint, count, r.value)
      ensures r.None? <==> OnlySkipped(Used(), nextFreeHint, count)
    {
      var searched, index: nat := 0, nextFreeHint;
      while searched < MAX_FRAMES
        invariant NoRunYet(Used(), nextFreeHint, count, searched, index)
        decreases MAX_FRAMES - searched
      {
        var found, nextSearched, nextIndex := RunTurn(count, searched, index, nextFreeHint);
        if found {
          FoundFirst(Used(), nextFreeHint, count, searched, index);
          return Some(index);
        }
        searched, index := nextSearched, nextIndex;
      }
      return None;
    }

    /** Find and allocate up to 32 contiguous free frames. */
    method AllocateContiguous(count: nat) returns (r: Option<nat>)
      requires Shape()
      modifies this`allocatedFrames, this`nextFreeHint, bits
      ensures Shape()
      ensures r.Some? ==> initialized && 0 < count
      ensures r.None? ==> Used() == old(Used()) && allocatedFrames == old(allocatedFrames)
                          && nextFreeHint == old(nextFreeHint)
      ensures initialized && 2 <= count ==>
                (r.None? <==> OnlySkipped(old(Used()), old(nextFreeHint), ClampedCount(count)))
      ensures r.Some? ==> FreeRun(old(Used()), r.value, ClampedCount(count))
      ensures r.Some? && 2 <= count ==> FirstRun(old(Used()), old(nextFreeHint), ClampedCount(count), r.value)
      ensures r.Some? && count == 1 ==> FirstFree(old(Used()), old(nextFreeHint), r.value)
      ensures r.Some? ==> Used() == SetRange(old(Used()), r.value, ClampedCount(count))
      ensures r.Some? ==> allocatedFrames == old(allocatedFrames) + ClampedCount(count)
      ensures r.Some? ==> nextFreeHint == (r.value + ClampedCount(count)) % MAX_FRAMES
    {
      if !initialized || count == 0 {
        return None;
      }
      if count == 1 {
        r := Allocate();
        return;
      }
      var n := ClampedCount(count);
      r := FindRun(n);
      if r.Some? {
        forall i | r.value <= i < r.value + n {
          bits[i] := true;
        }
        allocatedFrames := allocatedFrames + n;
        nextFreeHint := (r.value + n) % MAX_FRAMES;
      }
    }

    /** Return an allocated frame; out-of-range and already free frames are ignored. */
    method Deallocate(f: nat)
      requires Shape()
      requires f < MAX_FRAMES && bits[f] ==> 0 < allocatedFrames
      modifies this`allocatedFrames, this`nextFreeHint, bits
      ensures Shape()
      ensures if f < MAX_FRAMES && old(bits[f]) then
                && Used() == old(Used())[f := false]
                && allocatedFrames == old(allocatedFrames) - 1
                && nextFreeHint == (if f < old(nextFreeHint) then f else old(nextFreeHint))
              else
                && Used() == old(Used()) && allocatedFrames == old(allocatedFrames)
                && nextFreeHint == old(nextFreeHint)
      ensures old(NoneBelow(Used(), nextFreeHint)) ==> NoneBelow(Used(), nextFreeHint)
    {
      if f < MAX_FRAMES && bits[f] {
        bits[f] := false;
        allocatedFrames := allocatedFrames - 1;
        if f < nextFreeHint {
          nextFreeHint := f;
        }
      }
    }
  }
}
