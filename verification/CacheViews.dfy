// What readers of files see through the page cache, and what changes of the cache or the disk keep.
module CacheViews {
  import opened Bytes
  import opened Wrappers
  import opened FileWrites
  import opened PageCacheState

  /** What the bytes of files depend on. */
  datatype View = View(table: Table, frames: map<nat, seq<byte>>, disk: map<Key, seq<byte>>, sizes: map<Key, nat>)

  function Size(v: View, key: Key): nat {
    if key in v.sizes then v.sizes[key] else 0
  }

  function DiskFile(disk: map<Key, seq<byte>>, key: Key): seq<byte> {
    if key in disk then disk[key] else []
  }

  function DiskByte(disk: map<Key, seq<byte>>, r: Record, i: nat): byte {
    ByteAt(DiskFile(disk, r.key), r.off + i)
  }

  ghost predicate OtherFiles(disk0: map<Key, seq<byte>>, disk1: map<Key, seq<byte>>, key: Key) {
    forall k :: k != key ==> DiskFile(disk1, k) == DiskFile(disk0, k)
  }

  /** Byte `i` of a page as a reader sees it: from the cached frame, otherwise from disk. */
  function PageByte(v: View, r: Record, i: nat): byte {
    if r in v.table && v.table[r].phys in v.frames then
      ByteAt(v.frames[v.table[r].phys], i)
    else
      DiskByte(v.disk, r, i)
  }

  /** The bytes of a file. */
  function Contents(v: View, key: Key): seq<byte> {
    seq(Size(v, key), i requires i >= 0 => PageByte(v, Record(key, i - i % PAGE), i % PAGE))
  }

  /** Byte `i` of page `r` is part of the file. */
  predicate InFile(v: View, r: Record, i: nat) {
    r.off % PAGE == 0 && i < PAGE && r.off + i < Size(v, r.key)
  }

  /** Both views show the same bytes of every file. */
  ghost predicate SameFiles(v: View, w: View) {
    && v.sizes == w.sizes
    && forall r, i :: InFile(v, r, i) ==> PageByte(v, r, i) == PageByte(w, r, i)
  }

  lemma SameContents(v: View, w: View, key: Key)
    requires SameFiles(v, w)
    ensures Contents(v, key) == Contents(w, key)
  {
    forall i | 0 <= i < Size(v, key) ensures Contents(v, key)[i] == Contents(w, key)[i] {
      assert InFile(v, Record(key, i - i % PAGE), i % PAGE);
    }
  }

  /** The frame of a page holds what the disk holds, below the size of the file. */
  ghost predicate Agrees(v: View, r: Record, phys: nat) {
    phys in v.frames &&
    forall i :: 0 <= i < PAGE && r.off + i < Size(v, r.key) ==>
      ByteAt(v.frames[phys], i) == DiskByte(v.disk, r, i)
  }

  /** The disk holds the same bytes of page `r`, below `size`, as it did. */
  ghost predicate SameOnDisk(disk0: map<Key, seq<byte>>, disk1: map<Key, seq<byte>>, r: Record, size: nat) {
    forall i :: 0 <= i < PAGE && r.off + i < size ==> DiskByte(disk0, r, i) == DiskByte(disk1, r, i)
  }

  lemma SameOnDiskAgrees(v: View, w: View, r: Record, phys: nat)
    requires w.frames == v.frames && w.sizes == v.sizes && SameOnDisk(v.disk, w.disk, r, Size(v, r.key))
    ensures Agrees(w, r, phys) <==> Agrees(v, r, phys)
  {
  }

  /** Clean pages hold what the disk holds, except perhaps those in `pending`. */
  ghost predicate Consistent(v: View, pending: set<Record>) {
    forall r :: r in v.table && !v.table[r].dirty && r !in pending ==> Agrees(v, r, v.table[r].phys)
  }

  /** Cached pages are page-aligned and each has a frame of its own, which is referenced. */
  ghost predicate Owned(v: View, refs: map<nat, nat>) {
    && (forall p :: p in v.frames ==> |v.frames[p]| == PAGE && p in refs)
    && (forall r :: r in v.table ==>
          r.off % PAGE == 0 && v.table[r].phys in v.frames && refs[v.table[r].phys] >= 1)
    && Unshared(v.table)
  }

  ghost predicate Unshared(t: Table) {
    forall r, q :: r in t && q in t && r != q ==> PhysOf(t, r) != PhysOf(t, q)
  }

  function PhysOf(t: Table, r: Record): nat
    requires r in t
  {
    t[r].phys
  }

  /** Changing only the flags of an entry changes no byte. */
  lemma FlagsSameFiles(v: View, r: Record, e: Entry)
    requires r in v.table && e.phys == v.table[r].phys
    ensures SameFiles(v, v.(table := v.table[r := e]))
  {
  }

  /** Adding or dropping a page whose frame agrees with the disk changes no byte. */
  lemma CleanSameFiles(v: View, r: Record, e: Option<Entry>, phys: nat)
    requires Agrees(v, r, phys)
    requires if e.Some? then e.value.phys == phys && r !in v.table else r in v.table && v.table[r].phys == phys
    ensures SameFiles(v, v.(table := Apply(v.table, r, e)))
  {
    var w := v.(table := Apply(v.table, r, e));
    forall q, i | InFile(v, q, i) ensures PageByte(v, q, i) == PageByte(w, q, i) {
      assert q == r ==> ByteAt(v.frames[phys], i) == DiskByte(v.disk, r, i);
    }
  }

  /** A page that is added keeps the cache consistent exactly if it is dirty, or excepted, or agrees with the disk. */
  lemma InsertConsistent(v: View, r: Record, e: Entry, pending: set<Record>)
    requires Consistent(v, pending) && r !in v.table
    ensures Consistent(v.(table := v.table[r := e]), pending) <==> e.dirty || r in pending || Agrees(v, r, e.phys)
  {
    var w := v.(table := v.table[r := e]);
    assert Agrees(w, r, e.phys) <==> Agrees(v, r, e.phys);
    if e.dirty || r in pending || Agrees(v, r, e.phys) {
      forall q | q in w.table && !w.table[q].dirty && q !in pending ensures Agrees(w, q, w.table[q].phys) {
        assert q != r ==> Agrees(v, q, v.table[q].phys);
      }
    }
  }

  /** What is consistent stays so without some of its pages. */
  lemma FewerConsistent(v: View, t: Table, pending: set<Record>)
    requires Consistent(v, pending) && forall q :: q in t ==> q in v.table && t[q] == v.table[q]
    ensures Consistent(v.(table := t), pending)
  {
    var w := v.(table := t);
    forall q | q in w.table && !w.table[q].dirty && q !in pending ensures Agrees(w, q, w.table[q].phys) {
      assert Agrees(v, q, w.table[q].phys);
    }
  }

  lemma PutOwned(v: View, refs: map<nat, nat>, r: Record, e: Entry)
    requires Owned(v, refs) && r.off % PAGE == 0 && e.phys in v.frames && refs[e.phys] >= 1
    requires forall q :: q in v.table && q != r ==> PhysOf(v.table, q) != e.phys
    ensures Owned(v.(table := v.table[r := e]), refs)
  {
    var t := v.table[r := e];
    forall p, q | p in t && q in t && p != q ensures PhysOf(t, p) != PhysOf(t, q) {
      assert p != r ==> PhysOf(t, p) == PhysOf(v.table, p);
      assert q != r ==> PhysOf(t, q) == PhysOf(v.table, q);
    }
  }

  lemma DropOwned(v: View, refs: map<nat, nat>, r: Record)
    requires Owned(v, refs)
    ensures Owned(v.(table := v.table - {r}), refs)
  {
    var t := v.table - {r};
    forall p, q | p in t && q in t && p != q ensures PhysOf(t, p) != PhysOf(t, q) {
      assert PhysOf(t, p) == PhysOf(v.table, p) && PhysOf(t, q) == PhysOf(v.table, q);
    }
  }

  /** One reference less; a frame without references is free. */
  function Release(refs: map<nat, nat>, phys: nat): map<nat, nat>
    requires phys in refs
  {
    refs[phys := if refs[phys] > 0 then refs[phys] - 1 else 0]
  }

  /** The count of a frame that no page uses is of no concern. */
  lemma FreeOwned(v: View, refs: map<nat, nat>, phys: nat)
    requires Owned(v, refs) && phys in refs && forall q :: q in v.table ==> PhysOf(v.table, q) != phys
    ensures Owned(v, Release(refs, phys))
  {
    var now := Release(refs, phys);
    forall r | r in v.table ensures now[v.table[r].phys] >= 1 {
      assert PhysOf(v.table, r) != phys;
    }
  }

  /** Dropping a page uncovers the disk there and leaves every other page alone. */
  ghost predicate Uncovered(v: View, w: View, r: Record) {
    && v.sizes == w.sizes
    && forall q, i :: InFile(v, q, i) ==>
         PageByte(w, q, i) == if q == r then DiskByte(v.disk, q, i) else PageByte(v, q, i)
  }

  /** Frames whose pages are gone have been released once, the others not. */
  ghost predicate Released(t0: Table, t1: Table, refs0: map<nat, nat>, refs1: map<nat, nat>) {
    && refs0.Keys == refs1.Keys
    && (forall r :: r in t0 && PhysOf(t0, r) in refs0 ==>
          refs1[PhysOf(t0, r)] + (if r in t1 then 0 else 1) == refs0[PhysOf(t0, r)])
    && (forall p :: p in refs0 && refs1[p] != refs0[p] ==> exists r :: r in t0 && PhysOf(t0, r) == p)
  }

  /** The table `t` has all pages of `lo` and only pages of `hi`, with the same entries. */
  ghost predicate Between(lo: Table, t: Table, hi: Table) {
    && (forall r :: r in lo ==> r in t && t[r] == lo[r])
    && (forall r :: r in t ==> r in hi && hi[r] == t[r])
  }

  function AlignUp(size: nat): nat {
    (size + 4095) / PAGE * PAGE
  }

  /** A page starts below the rounded size exactly if it starts below the size. */
  lemma AlignUpCuts(size: nat, off: nat)
    requires off % PAGE == 0
    ensures off < AlignUp(size) <==> off < size
  {
  }

  lemma WithoutBytes(v: View, key: Key, size: nat)
    ensures var w := v.(table := Without(v.table, key, AlignUp(size)));
            forall q, i :: InFile(w, q, i) && (q.key != key || q.off + i < size) ==>
              PageByte(w, q, i) == PageByte(v, q, i)
  {
    var w := v.(table := Without(v.table, key, AlignUp(size)));
    forall q, i | InFile(w, q, i) && (q.key != key || q.off + i < size) ensures PageByte(w, q, i) == PageByte(v, q, i) {
      assert q.key == key ==> q.off < AlignUp(size);
    }
  }

  ghost predicate Remaining(todo: set<nat>, t: Table, key: Key, from: nat) {
    forall o :: o in todo <==> from <= o && Record(key, o) in t
  }

  lemma RemainingDrop(todo: set<nat>, t: Table, key: Key, from: nat, o: nat)
    requires Remaining(todo, t, key, from)
    ensures Remaining(todo - {o}, t - {Record(key, o)}, key, from)
  {
  }

  lemma BetweenDrop(lo: Table, t: Table, hi: Table, r: Record)
    requires Between(lo, t, hi) && r !in lo
    ensures Between(lo, t - {r}, hi)
  {
  }

  lemma BetweenDone(t0: Table, t: Table, key: Key, from: nat)
    requires Between(Without(t0, key, from), t, t0)
    requires Remaining({}, t, key, from)
    ensures t == Without(t0, key, from)
  {
    forall r | r in t ensures r in Without(t0, key, from) {
      assert r.key == key ==> r == Record(key, r.off);
    }
  }

  lemma ReleasedStep(t0: Table, t1: Table, refs0: map<nat, nat>, refs1: map<nat, nat>, r: Record)
    requires Released(t0, t1, refs0, refs1) && r in t0 && r in t1 && PhysOf(t0, r) in refs0 && refs0[PhysOf(t0, r)] >= 1
    requires Unshared(t0)
    ensures Released(t0, t1 - {r}, refs0, Release(refs1, PhysOf(t0, r)))
  {
  }

  lemma ReleasedNone(t: Table, u: Table, refs: map<nat, nat>)
    requires u.Keys == t.Keys
    ensures Released(t, u, refs, refs)
  {
  }

  /** Pages released in two goes; no two pages share a frame. */
  lemma ReleasedTrans(t0: Table, t1: Table, t2: Table, refs0: map<nat, nat>, refs1: map<nat, nat>, refs2: map<nat, nat>)
    requires Released(t0, t1, refs0, refs1) && Released(t1, t2, refs1, refs2) && Unshared(t0)
    requires forall q :: q in t1 ==> q in t0 && PhysOf(t1, q) == PhysOf(t0, q)
    requires t2.Keys <= t1.Keys
    ensures Released(t0, t2, refs0, refs2)
  {
    forall r | r in t0 && PhysOf(t0, r) in refs0
      ensures refs2[PhysOf(t0, r)] + (if r in t2 then 0 else 1) == refs0[PhysOf(t0, r)]
    {
      var p := PhysOf(t0, r);
      if r in t1 {
        assert PhysOf(t1, r) == p;
      }
    }
    forall p | p in refs0 && refs2[p] != refs0[p] ensures exists r :: r in t0 && PhysOf(t0, r) == p {
      if refs2[p] != refs1[p] {
        var q :| q in t1 && PhysOf(t1, q) == p;
        assert PhysOf(t0, q) == p;
      }
    }
  }

  lemma SameFilesTrans(u: View, v: View, w: View)
    requires SameFiles(u, v) && SameFiles(v, w)
    ensures SameFiles(u, w)
  {
    forall r, i | InFile(u, r, i) ensures PageByte(u, r, i) == PageByte(w, r, i) {
      assert InFile(v, r, i);
    }
  }

  /** Page `q` has the frame it had, with the same bytes, and is dirty if it was. */
  ghost predicate SamePage(v: View, w: View, q: Record)
    requires q in v.table && q in w.table
  {
    && w.table[q].phys == v.table[q].phys && (v.table[q].dirty ==> w.table[q].dirty)
    && (w.table[q].phys in v.frames && w.table[q].phys in w.frames ==>
          w.frames[w.table[q].phys] == v.frames[w.table[q].phys])
  }

  /** Clean pages may have gone; apart from those in `but`, all others are as they were, and no new ones have come. */
  ghost predicate Trimmed(v: View, w: View, but: set<Record>) {
    && w.disk == v.disk && w.sizes == v.sizes && w.frames.Keys == v.frames.Keys
    && (forall q :: q in w.table && q !in but ==> q in v.table && SamePage(v, w, q))
    && (forall q :: q in v.table && q !in w.table && q !in but ==> !v.table[q].dirty)
  }

  /** Every page that has gone held what the disk holds. */
  ghost predicate Safe(v: View, w: View) {
    forall q :: q in v.table && q !in w.table ==> Agrees(v, q, v.table[q].phys)
  }

  lemma TrimmedTrans(u: View, v: View, w: View, but: set<Record>)
    requires Trimmed(u, v, but) && Trimmed(v, w, but)
    ensures Trimmed(u, w, but)
  {
  }

  lemma TrimmedMore(v: View, w: View, but: set<Record>, more: set<Record>)
    requires Trimmed(v, w, but) && but <= more
    ensures Trimmed(v, w, more)
  {
  }

  lemma TrimmedFlags(v: View, r: Record, e: Entry)
    requires r in v.table && e.phys == v.table[r].phys && (v.table[r].dirty ==> e.dirty)
    ensures Trimmed(v, v.(table := v.table[r := e]), {})
  {
  }

  lemma TrimmedConsistent(v: View, w: View, but: set<Record>, pending: set<Record>)
    requires Trimmed(v, w, but) && Consistent(v, pending)
    ensures Consistent(w, pending + but)
  {
    forall q | q in w.table && !w.table[q].dirty && q !in pending + but ensures Agrees(w, q, w.table[q].phys) {
      assert SamePage(v, w, q) && Agrees(v, q, v.table[q].phys);
    }
  }

  /** A page that stays shows what it showed, one that goes shows the disk. */
  lemma TrimmedByte(v: View, w: View, refs: map<nat, nat>, but: set<Record>, q: Record, i: nat)
    requires Trimmed(v, w, but) && Owned(v, refs) && q !in but && i < PAGE
    ensures PageByte(w, q, i) == if q in v.table && q !in w.table then DiskByte(v.disk, q, i) else PageByte(v, q, i)
  {
  }

  /** Readers notice nothing of the pages that go exactly if these hold what the disk holds. */
  lemma TrimmedShows(v: View, w: View, refs: map<nat, nat>, r: Option<Record>)
    requires Trimmed(v, w, if r.Some? then {r.value} else {}) && Owned(v, refs)
    requires r.Some? ==> r.value in w.table
    ensures Safe(v, w) <==> forall q, i :: InFile(v, q, i) && Some(q) != r ==> PageByte(v, q, i) == PageByte(w, q, i)
  {
    var but := if r.Some? then {r.value} else {};
    if Safe(v, w) {
      forall q, i | InFile(v, q, i) && Some(q) != r ensures PageByte(v, q, i) == PageByte(w, q, i) {
        TrimmedByte(v, w, refs, but, q, i);
      }
    }
    if forall q, i :: InFile(v, q, i) && Some(q) != r ==> PageByte(v, q, i) == PageByte(w, q, i) {
      forall q | q in v.table && q !in w.table ensures Agrees(v, q, v.table[q].phys) {
        forall i | 0 <= i < PAGE && q.off + i < Size(v, q.key)
          ensures ByteAt(v.frames[v.table[q].phys], i) == DiskByte(v.disk, q, i)
        {
          assert InFile(v, q, i);
          TrimmedByte(v, w, refs, but, q, i);
        }
      }
    }
  }

  lemma TrimmedFiles(v: View, w: View, refs: map<nat, nat>)
    requires Trimmed(v, w, {}) && Owned(v, refs)
    ensures SameFiles(v, w) <==> Safe(v, w)
  {
    TrimmedShows(v, w, refs, None);
  }

  /** With every clean page as the disk has it, nothing is lost. */
  lemma TrimmedClean(v: View, w: View)
    requires Trimmed(v, w, {}) && Consistent(v, {})
    ensures Safe(v, w) && Consistent(w, {})
  {
    var none: set<Record> := {};
    TrimmedConsistent(v, w, none, none);
    assert none + none == none;
  }

  /** What eviction may do: drop clean pages that nobody maps, and clear reference bits. */
  ghost predicate Evicted(t0: Table, refs0: map<nat, nat>, t1: Table, refs1: map<nat, nat>, gone: set<Record>) {
    && t1.Keys == t0.Keys - gone && gone <= t0.Keys
    && (forall q :: q in gone ==> !t0[q].dirty && t0[q].phys in refs0 && refs0[t0[q].phys] <= 1)
    && (forall q :: q in t1 ==>
          && t1[q] in {t0[q], t0[q].(referenced := false)}
          && t0[q].phys in refs0 && t0[q].phys in refs1 && refs1[t0[q].phys] == refs0[t0[q].phys])
  }

  lemma EvictKeeps(t: Table, refs: map<nat, nat>, r: Record)
    requires r in t && Unshared(t) && (forall q :: q in t ==> PhysOf(t, q) in refs)
    requires !t[r].dirty && refs[PhysOf(t, r)] <= 1
    ensures Evicted(t, refs, t - {r}, Release(refs, PhysOf(t, r)), {r})
  {
  }

  lemma EvictedTrimmed(v: View, refs0: map<nat, nat>, w: View, refs1: map<nat, nat>, gone: set<Record>)
    requires Evicted(v.table, refs0, w.table, refs1, gone) && w == v.(table := w.table)
    ensures Trimmed(v, w, {})
  {
  }

  lemma EvictNone(t: Table, refs: map<nat, nat>)
    requires forall q :: q in t ==> t[q].phys in refs
    ensures Evicted(t, refs, t, refs, {})
  {
  }

  lemma EvictRest(t: Table, refs: map<nat, nat>, r: Record)
    requires r in t && forall q :: q in t ==> t[q].phys in refs
    ensures Evicted(t, refs, t[r := t[r].(referenced := false)], refs, {})
  {
  }

  lemma EvictedTrans(t0: Table, refs0: map<nat, nat>, t1: Table, refs1: map<nat, nat>,
                     t2: Table, refs2: map<nat, nat>, a: set<Record>, b: set<Record>)
    requires Evicted(t0, refs0, t1, refs1, a) && Evicted(t1, refs1, t2, refs2, b)
    ensures Evicted(t0, refs0, t2, refs2, a + b) && a !! b
  {
  }

  /** A page of shard `s` that eviction may drop once its reference bit is clear. */
  ghost predicate Spare(t: Table, refs: map<nat, nat>, s: nat, q: Record) {
    ShardIndex(q.key) == s && q in t && !t[q].dirty && t[q].phys in refs && refs[t[q].phys] <= 1
  }

  /** Eviction makes no page spare and sets no reference bit. */
  lemma SpareStays(t0: Table, refs0: map<nat, nat>, t1: Table, refs1: map<nat, nat>, gone: set<Record>, s: nat,
                   q: Record)
    requires Evicted(t0, refs0, t1, refs1, gone) && Spare(t1, refs1, s, q)
    ensures Spare(t0, refs0, s, q) && q !in gone && (t1[q].referenced ==> t0[q].referenced)
  {
  }

  /** If nothing goes, what was spare still is. */
  lemma SpareLeft(t0: Table, refs0: map<nat, nat>, t1: Table, refs1: map<nat, nat>, gone: set<Record>, s: nat,
                  q: Record)
    requires Evicted(t0, refs0, t1, refs1, gone) && Spare(t0, refs0, s, q)
    ensures gone == {} ==> Spare(t1, refs1, s, q)
  {
  }

  /** None of the listed pages is spare and referenced. */
  ghost predicate Rested(t: Table, refs: map<nat, nat>, s: nat, list: seq<Record>) {
    forall q :: q in list && Spare(t, refs, s, q) ==> !t[q].referenced
  }

  ghost predicate NoneSpare(t: Table, refs: map<nat, nat>, s: nat, list: seq<Record>) {
    forall q :: q in list ==> !Spare(t, refs, s, q)
  }

  /** How far the hand of a clock has come: in its first turn, in its second, or past both. */
  datatype Hand = First(todo: seq<Record>, done: seq<Record>) | Second(todo: seq<Record>, done: seq<Record>) | Past

  /** In the first turn `done` has lost its reference bits, in the second its spare pages. */
  ghost predicate Turning(t: Table, refs: map<nat, nat>, s: nat, clock: seq<Record>, h: Hand, left: int) {
    match h
    case First(todo, done) =>
      clock == todo + done && Rested(t, refs, s, done) && 2 * |todo| + |done| <= left && (todo == [] ==> done == [])
    case Second(todo, done) =>
      clock == todo + done && Rested(t, refs, s, clock) && NoneSpare(t, refs, s, done) && |todo| <= left && todo != []
    case Past => NoneSpare(t, refs, s, clock)
  }

  /** What one step of the hand does to the record `r` at the front of its clock. */
  ghost predicate Passed(t0: Table, refs0: map<nat, nat>, t1: Table, refs1: map<nat, nat>, s: nat,
                         clock0: seq<Record>, clock1: seq<Record>, gone: set<Record>)
  {
    && clock0 != [] && Evicted(t0, refs0, t1, refs1, gone)
    && clock1 in {clock0[1..], clock0[1..] + [clock0[0]]}
    && var r := clock0[0];
       && (Spare(t0, refs0, s, r) && !t0[r].referenced ==> r in gone)
       && (Spare(t1, refs1, s, r) ==> !t1[r].referenced)
  }

  /**
   * The record at the front of the clock of shard `s`: its page goes if it is clean, not referenced and not
   * mapped elsewhere, and loses its reference bit if it is clean and not mapped; a record whose page is
   * cached goes to the back, any other is forgotten.
   */
  ghost predicate Stepped(t0: Table, refs0: map<nat, nat>, t1: Table, s: nat, clock0: seq<Record>, clock1: seq<Record>,
                          evicted: bool) {
    && clock0 != []
    && var r := clock0[0];
       var cached := r in t0 && ShardIndex(r.key) == s;
       var free := cached && !t0[r].dirty && t0[r].phys in refs0 && refs0[t0[r].phys] <= 1;
       && (evicted <==> free && !t0[r].referenced)
       && t1 == (if evicted then t0 - {r} else if free then t0[r := t0[r].(referenced := false)] else t0)
       && clock1 == clock0[1..] + if cached && !evicted then [r] else []
  }

  lemma EvictedReleased(t0: Table, refs0: map<nat, nat>, t1: Table, refs1: map<nat, nat>,
                        t2: Table, refs2: map<nat, nat>, a: set<Record>, b: set<Record>)
    requires Evicted(t0, refs0, t1, refs1, a) && Evicted(t1, refs1, t2, refs2, b) && Unshared(t0)
    requires Released(t0, t1, refs0, refs1) && Released(t1, t2, refs1, refs2)
    ensures Released(t0, t2, refs0, refs2)
  {
    ReleasedTrans(t0, t1, t2, refs0, refs1, refs2);
  }

  function Moved(h: Hand, keep: seq<Record>): (next: Hand) {
    match h
    case First(todo, done) =>
      if 1 < |todo| then First(todo[1..], done + keep)
      else if done + keep == [] then Past
      else Second(done + keep, [])
    case Second(todo, done) => if |todo| <= 1 then Past else Second(todo[1..], done + keep)
    case Past => Past
  }

  lemma RestedStays(t0: Table, refs0: map<nat, nat>, t1: Table, refs1: map<nat, nat>, gone: set<Record>, s: nat,
                    list: seq<Record>)
    requires Evicted(t0, refs0, t1, refs1, gone)
    ensures Rested(t0, refs0, s, list) ==> Rested(t1, refs1, s, list)
    ensures NoneSpare(t0, refs0, s, list) ==> NoneSpare(t1, refs1, s, list)
  {
    forall q | q in list && Spare(t1, refs1, s, q) ensures Spare(t0, refs0, s, q)
      && (t1[q].referenced ==> t0[q].referenced) {
      SpareStays(t0, refs0, t1, refs1, gone, s, q);
    }
  }

  lemma FirstTurn(t0: Table, refs0: map<nat, nat>, t1: Table, refs1: map<nat, nat>, s: nat,
                  clock0: seq<Record>, clock1: seq<Record>, gone: set<Record>, h: Hand, left: int, keep: seq<Record>)
    requires Passed(t0, refs0, t1, refs1, s, clock0, clock1, gone) && Turning(t0, refs0, s, clock0, h, left) && h.First?
    requires keep in {[], [clock0[0]]} && clock1 == clock0[1..] + keep
    ensures Turning(t1, refs1, s, clock1, Moved(h, keep), left - 1)
  {
    assert h.todo != [] && clock0[0] == h.todo[0] && clock1 == h.todo[1..] + (h.done + keep);
    RestedStays(t0, refs0, t1, refs1, gone, s, h.done);
    assert Rested(t1, refs1, s, h.done + keep);
    if |h.todo| <= 1 {
      assert clock1 == h.done + keep;
    }
  }

  lemma SecondTurn(t0: Table, refs0: map<nat, nat>, t1: Table, refs1: map<nat, nat>, s: nat,
                   clock0: seq<Record>, clock1: seq<Record>, gone: set<Record>, h: Hand, left: int, keep: seq<Record>)
    requires Passed(t0, refs0, t1, refs1, s, clock0, clock1, gone) && Turning(t0, refs0, s, clock0, h, left)
             && h.Second?
    requires keep in {[], [clock0[0]]} && clock1 == clock0[1..] + keep
    ensures Turning(t1, refs1, s, clock1, Moved(h, keep), left - 1)
  {
    assert clock0[0] == h.todo[0] && clock1 == h.todo[1..] + (h.done + keep);
    RestedStays(t0, refs0, t1, refs1, gone, s, h.done);
    RestedStays(t0, refs0, t1, refs1, gone, s, clock0);
    PassedSpare(t0, refs0, t1, refs1, s, clock0, clock1, gone);
    assert NoneSpare(t1, refs1, s, h.done + keep);
    assert Rested(t1, refs1, s, clock1);
    if |h.todo| <= 1 {
      assert clock1 == h.done + keep;
    }
  }

  /** The hand moves on by one record. */
  lemma HandMoves(t0: Table, refs0: map<nat, nat>, t1: Table, refs1: map<nat, nat>, s: nat,
                  clock0: seq<Record>, clock1: seq<Record>, gone: set<Record>, h: Hand, left: int) returns (next: Hand)
    requires Passed(t0, refs0, t1, refs1, s, clock0, clock1, gone) && Turning(t0, refs0, s, clock0, h, left)
    ensures Turning(t1, refs1, s, clock1, next, left - 1)
  {
    var keep := if clock1 == clock0[1..] then [] else [clock0[0]];
    next := Moved(h, keep);
    assert clock1 == clock0[1..] + keep;
    match h
    case First(_, _) => FirstTurn(t0, refs0, t1, refs1, s, clock0, clock1, gone, h, left, keep);
    case Second(_, _) => SecondTurn(t0, refs0, t1, refs1, s, clock0, clock1, gone, h, left, keep);
    case Past => RestedStays(t0, refs0, t1, refs1, gone, s, clock0);
  }

  lemma PassedSpare(t0: Table, refs0: map<nat, nat>, t1: Table, refs1: map<nat, nat>, s: nat,
                    clock0: seq<Record>, clock1: seq<Record>, gone: set<Record>)
    requires Passed(t0, refs0, t1, refs1, s, clock0, clock1, gone) && Rested(t0, refs0, s, clock0)
    ensures !Spare(t1, refs1, s, clock0[0])
  {
    assert clock0[0] in clock0;
    if Spare(t1, refs1, s, clock0[0]) {
      SpareStays(t0, refs0, t1, refs1, gone, s, clock0[0]);
    }
  }

  /** A clock that has been turned twice, or is empty, has no spare page left in its shard. */
  lemma TwoTurns(sh: Shards, t: Table, refs: map<nat, nat>, global: nat, s: nat, h: Hand, left: int)
    requires Accounted(sh, t, global) && s < SHARDS && Turning(t, refs, s, sh[s].clock, h, left)
    requires left == 0 || sh[s].clock == []
    ensures forall q :: !Spare(t, refs, s, q)
  {
    assert NoneSpare(t, refs, s, sh[s].clock);
    forall q: Record | q in t && ShardIndex(q.key) == s ensures q in sh[s].clock {
      assert q in Clock(sh, q.key);
    }
  }

  /** No shard before `n` has a spare page. */
  ghost predicate SparedTo(t: Table, refs: map<nat, nat>, n: nat) {
    forall q: Record :: ShardIndex(q.key) < n ==> !Spare(t, refs, ShardIndex(q.key), q)
  }

  lemma SparedNext(t0: Table, refs0: map<nat, nat>, t1: Table, refs1: map<nat, nat>, gone: set<Record>, n: nat)
    requires Evicted(t0, refs0, t1, refs1, gone) && SparedTo(t0, refs0, n)
    requires forall q :: !Spare(t1, refs1, n, q)
    ensures SparedTo(t1, refs1, n + 1)
  {
    forall q: Record | ShardIndex(q.key) < n ensures !Spare(t1, refs1, ShardIndex(q.key), q) {
      if Spare(t1, refs1, ShardIndex(q.key), q) {
        SpareStays(t0, refs0, t1, refs1, gone, ShardIndex(q.key), q);
      }
    }
  }

  /** A frame that is allocated and that no page uses: whoever allocated it has it to itself. */
  ghost predicate PrivateIn(v: View, refs: map<nat, nat>, p: nat) {
    p in v.frames && p in refs && refs[p] >= 1 && forall q :: q in v.table ==> PhysOf(v.table, q) != p
  }

  /** Private frames stay private and keep their contents, except perhaps those in `but`. */
  ghost predicate KeptPrivate(v: View, refs0: map<nat, nat>, w: View, refs1: map<nat, nat>, but: set<nat>) {
    forall p :: p !in but && PrivateIn(v, refs0, p) ==> PrivateIn(w, refs1, p) && w.frames[p] == v.frames[p]
  }

  lemma KeptTrans(u: View, r0: map<nat, nat>, v: View, r1: map<nat, nat>, w: View, r2: map<nat, nat>, a: set<nat>,
                  b: set<nat>)
    requires KeptPrivate(u, r0, v, r1, a) && KeptPrivate(v, r1, w, r2, b)
    ensures KeptPrivate(u, r0, w, r2, a + b)
  {
  }

  /** Pages that go, or only change their flags, do not touch private frames. */
  lemma KeptFewer(v: View, refs: map<nat, nat>, w: View)
    requires w.frames == v.frames
    requires forall q :: q in w.table ==> q in v.table && PhysOf(w.table, q) == PhysOf(v.table, q)
    ensures KeptPrivate(v, refs, w, refs, {})
  {
  }

  lemma KeptFlags(v: View, refs: map<nat, nat>, r: Record, e: Entry)
    requires r in v.table && e.phys == v.table[r].phys
    ensures KeptPrivate(v, refs, v.(table := v.table[r := e]), refs, {})
  {
    var w := v.(table := v.table[r := e]);
    assert forall q :: q in w.table ==> PhysOf(w.table, q) == PhysOf(v.table, q);
    KeptFewer(v, refs, w);
  }

  /** A new or changed page touches no private frame but its own. */
  lemma KeptPut(v: View, refs: map<nat, nat>, r: Record, e: Entry)
    ensures KeptPrivate(v, refs, v.(table := v.table[r := e]), refs, {e.phys})
  {
    var w := v.(table := v.table[r := e]);
    forall p | p != e.phys && PrivateIn(v, refs, p) ensures PrivateIn(w, refs, p) {
      forall q | q in w.table ensures PhysOf(w.table, q) != p {
        assert q != r ==> PhysOf(w.table, q) == PhysOf(v.table, q);
      }
    }
  }

  lemma KeptFree(v: View, refs: map<nat, nat>, phys: nat)
    requires phys in refs
    ensures KeptPrivate(v, refs, v, Release(refs, phys), {phys})
  {
  }

  /** Changing flags and giving back a private frame. */
  lemma KeptReturn(v: View, refs: map<nat, nat>, r: Record, e: Entry, phys: nat)
    requires r in v.table && e.phys == v.table[r].phys && PrivateIn(v, refs, phys)
    ensures var w := v.(table := v.table[r := e]);
            && KeptPrivate(v, refs, w, Release(refs, phys), {phys})
              && forall q :: q in w.table ==> PhysOf(w.table, q) != phys
  {
    var w := v.(table := v.table[r := e]);
    assert PhysOf(v.table, r) != phys;
    KeptFlags(v, refs, r, e);
    KeptFree(w, refs, phys);
    KeptTrans(v, refs, w, refs, w, Release(refs, phys), {}, {phys});
  }

  lemma KeptClaim(v: View, refs: map<nat, nat>, phys: nat)
    requires phys in refs && refs[phys] == 0
    ensures KeptPrivate(v, refs, v, refs[phys := 1], {}) && !PrivateIn(v, refs, phys)
  {
  }

  lemma KeptStore(v: View, refs: map<nat, nat>, phys: nat, data: seq<byte>)
    ensures KeptPrivate(v, refs, v.(frames := v.frames[phys := data]), refs, {phys})
  {
  }

  /** A frame that was not private need not be excepted. */
  lemma KeptDrop(v: View, refs0: map<nat, nat>, w: View, refs1: map<nat, nat>, p: nat)
    requires KeptPrivate(v, refs0, w, refs1, {p}) && !PrivateIn(v, refs0, p)
    ensures KeptPrivate(v, refs0, w, refs1, {})
  {
  }

  /** Some frame is free. */
  ghost predicate HasFree(frames: map<nat, seq<byte>>, refs: map<nat, nat>) {
    exists p :: p in frames && p in refs && refs[p] == 0
  }

  /** Frame `phys` has been taken, if there is one, and apart from that only pages have gone and been released. */
  ghost predicate Spent(t0: Table, t1: Table, refs0: map<nat, nat>, refs1: map<nat, nat>, phys: Option<nat>) {
    match phys
    case None => Released(t0, t1, refs0, refs1)
    case Some(p) => p in refs1 && refs1[p] == 1 && Released(t0, t1, refs0, refs1[p := 0])
  }

  lemma SpentClaim(t0: Table, t1: Table, refs0: map<nat, nat>, refs1: map<nat, nat>, p: nat)
    requires Released(t0, t1, refs0, refs1) && p in refs1 && refs1[p] == 0
    ensures Spent(t0, t1, refs0, refs1[p := 1], Some(p))
  {
    assert refs1[p := 1][p := 0] == refs1;
  }

  lemma SpentBack(t0: Table, t1: Table, refs0: map<nat, nat>, refs1: map<nat, nat>, p: nat)
    requires Spent(t0, t1, refs0, refs1, Some(p))
    ensures Spent(t0, t1, refs0, Release(refs1, p), None)
  {
  }

  /** Page `r` has come into the cache with a frame that was free. */
  ghost predicate Took(t0: Table, refs0: map<nat, nat>, t1: Table, refs1: map<nat, nat>, r: Record) {
    r in t1 && t1.Keys == t0.Keys + {r} && t1[r].phys in refs0 && refs1 == refs0[t1[r].phys := 1]
  }

  /** The counts of frames that no page uses have not changed. */
  ghost predicate OthersKept(t: Table, refs0: map<nat, nat>, refs1: map<nat, nat>) {
    forall p :: p in refs0 && (forall q :: q in t ==> PhysOf(t, q) != p) ==> p in refs1 && refs1[p] == refs0[p]
  }

  lemma ReleasedOthers(t0: Table, t1: Table, refs0: map<nat, nat>, refs1: map<nat, nat>)
    requires Released(t0, t1, refs0, refs1)
    ensures OthersKept(t0, refs0, refs1)
  {
  }

  lemma EvictKeepsPrivate(v: View, refs0: map<nat, nat>, w: View, refs1: map<nat, nat>, gone: set<Record>)
    requires Evicted(v.table, refs0, w.table, refs1, gone) && OthersKept(v.table, refs0, refs1) && w.frames == v.frames
    ensures KeptPrivate(v, refs0, w, refs1, {})
  {
    forall p | PrivateIn(v, refs0, p) ensures PrivateIn(w, refs1, p) {
      forall q | q in w.table ensures PhysOf(w.table, q) != p {
        assert PhysOf(w.table, q) == PhysOf(v.table, q);
      }
    }
  }

  /** What an eviction means for readers, for later evictions, and for private frames. */
  lemma EvictedShows(v: View, refs0: map<nat, nat>, w: View, refs1: map<nat, nat>, gone: set<Record>)
    requires Owned(v, refs0) && w == v.(table := w.table)
    requires Evicted(v.table, refs0, w.table, refs1, gone) && Released(v.table, w.table, refs0, refs1)
    ensures Trimmed(v, w, {}) && KeptPrivate(v, refs0, w, refs1, {})
    ensures SameFiles(v, w) <==> forall q :: q in gone ==> q in v.table && Agrees(v, q, v.table[q].phys)
    ensures Consistent(v, {}) ==> Consistent(w, {}) && SameFiles(v, w)
  {
    ReleasedOthers(v.table, w.table, refs0, refs1);
    EvictKeepsPrivate(v, refs0, w, refs1, gone);
    EvictedTrimmed(v, refs0, w, refs1, gone);
    TrimmedFiles(v, w, refs0);
    if Consistent(v, {}) {
      TrimmedClean(v, w);
    }
  }

  /** Only bytes of page `r` may differ. */
  ghost predicate SameElsewhere(v: View, w: View, r: Record) {
    v.sizes == w.sizes && forall q, i :: InFile(v, q, i) && q != r ==> PageByte(v, q, i) == PageByte(w, q, i)
  }

  /** The frame of a page may get other bytes: no other page changes. */
  lemma StorePage(v: View, refs: map<nat, nat>, r: Record, data: seq<byte>)
    requires Owned(v, refs) && r in v.table && |data| == PAGE
    ensures var w := v.(frames := v.frames[v.table[r].phys := data]);
            Owned(w, refs) && Trimmed(v, w, {r})
  {
    var phys := PhysOf(v.table, r);
    var w := v.(frames := v.frames[phys := data]);
    forall q | q in w.table && q != r ensures SamePage(v, w, q) {
      assert PhysOf(v.table, q) != phys;
    }
  }

  lemma ClaimOwned(v: View, refs: map<nat, nat>, phys: nat)
    requires Owned(v, refs) && phys in refs && refs[phys] == 0
    ensures Owned(v, refs[phys := 1]) && forall q :: q in v.table ==> PhysOf(v.table, q) != phys
  {
    assert forall q :: q in v.table ==> refs[PhysOf(v.table, q)] >= 1;
  }

  /** The contents of a frame that no page uses are of no concern. */
  lemma StoreKeeps(v: View, refs: map<nat, nat>, phys: nat, data: seq<byte>)
    requires Owned(v, refs) && phys in refs && |data| == PAGE
    requires phys in v.frames && forall q :: q in v.table ==> PhysOf(v.table, q) != phys
    ensures var w := v.(frames := v.frames[phys := data]); Owned(w, refs) && Trimmed(v, w, {})
  {
    var w := v.(frames := v.frames[phys := data]);
    forall q | q in w.table ensures SamePage(v, w, q) {
      assert PhysOf(v.table, q) != phys;
    }
  }

  function Slot(key: Key, start: nat, p: nat): Record {
    Record(key, SlotOf(start, p))
  }

  /** The pages of a run. */
  function RunSet(key: Key, start: nat, n: nat): set<Record> {
    set p | 0 <= p < n :: Slot(key, start, p)
  }

  /** The frames of a run's pages. */
  function FramesOf(t: Table, key: Key, start: nat, n: nat): seq<nat> {
    if n == 0 then [] else
      var r := Slot(key, start, n - 1);
      FramesOf(t, key, start, n - 1) + if r in t then [t[r].phys] else []
  }

  ghost predicate AllDirty(t: Table, rs: set<Record>) {
    forall r :: r in rs ==> r in t && t[r].dirty
  }

  /** The dirty flags of `rs` cleared. */
  function Clear(t: Table, rs: set<Record>): Table {
    map r | r in t :: if r in rs then t[r].(dirty := false) else t[r]
  }

  /** The contents of some frames. */
  function PagesAt(frames: map<nat, seq<byte>>, phys: seq<nat>): seq<seq<byte>> {
    seq(|phys|, j requires 0 <= j < |phys| => if phys[j] in frames then frames[phys[j]] else [])
  }

  /** Byte `i` of page `q`, wherever the file ends. */
  predicate Cell(q: Record, i: nat) {
    q.off % PAGE == 0 && i < PAGE
  }

  /** `w` is `v` with other bytes on disk, but only under the pages of `run`. */
  ghost predicate DiskDiffers(v: View, w: View, run: set<Record>) {
    && w == v.(disk := w.disk)
    && forall q, i :: Cell(q, i) && q !in run ==>
         DiskByte(w.disk, q, i) == DiskByte(v.disk, q, i)
  }

  /** Whatever is written under cached pages, no reader sees it. */
  lemma DiskChange(v: View, w: View, refs: map<nat, nat>, run: set<Record>)
    requires Owned(v, refs) && DiskDiffers(v, w, run) && forall q :: q in run ==> q in v.table
    ensures Owned(w, refs) && SameFiles(v, w)
  {
    forall q, i | InFile(v, q, i) ensures PageByte(v, q, i) == PageByte(w, q, i) {
      assert Cell(q, i);
    }
  }

  /** Outside the run, what agreed with the disk still does. */
  lemma DiskAgrees(v: View, w: View, run: set<Record>, q: Record, phys: nat)
    requires DiskDiffers(v, w, run) && q !in run && q.off % PAGE == 0
    ensures Agrees(w, q, phys) <==> Agrees(v, q, phys)
  {
    forall i: nat | i < PAGE ensures DiskByte(w.disk, q, i) == DiskByte(v.disk, q, i) {
      assert Cell(q, i);
    }
    SameOnDiskAgrees(v, w, q, phys);
  }

  /** Pages whose flags have been cleared and whose bytes are on disk are consistent again. */
  lemma RunConsistent(v: View, w: View, refs: map<nat, nat>, run: set<Record>)
    requires Owned(v, refs) && Consistent(v, run) && DiskDiffers(v, w, run)
    requires forall q :: q in run && q in w.table ==> Agrees(w, q, w.table[q].phys)
    ensures Consistent(w, {})
  {
    forall q | q in w.table && !w.table[q].dirty ensures Agrees(w, q, w.table[q].phys) {
      if q !in run {
        DiskAgrees(v, w, run, q, v.table[q].phys);
      }
    }
  }

  /** With their flags cleared, dirty pages may differ from the disk. */
  lemma ClearConsistent(v: View, rs: set<Record>, pending: set<Record>)
    requires Consistent(v, pending)
    ensures Consistent(v.(table := Clear(v.table, rs)), pending + rs)
  {
    var w := v.(table := Clear(v.table, rs));
    forall q | q in w.table && !w.table[q].dirty && q !in pending + rs ensures Agrees(w, q, w.table[q].phys) {
      assert Agrees(v, q, v.table[q].phys);
    }
  }

  /** A byte of a run belongs to a page of the run. */
  lemma InsideRun(key: Key, start: nat, n: nat, q: Record, i: nat)
    requires start % PAGE == 0 && Cell(q, i) && q.key == key && start <= q.off + i < SlotOf(start, n)
    ensures q in RunSet(key, start, n)
  {
    var p := (q.off - start) / PAGE;
    assert q.off >= start && q.off == SlotOf(start, p) && p < n;
    assert q == Slot(key, start, p);
  }

  ghost predicate RunIn(t: Table, key: Key, start: nat, n: nat) {
    forall p :: 0 <= p < n ==> Slot(key, start, p) in t
  }

  lemma {:induction false} FramesAt(t: Table, key: Key, start: nat, n: nat)
    requires RunIn(t, key, start, n)
    ensures |FramesOf(t, key, start, n)| == n
    ensures forall p :: 0 <= p < n ==> FramesOf(t, key, start, n)[p] == PhysOf(t, Slot(key, start, p))
  {
    if n > 0 {
      FramesAt(t, key, start, n - 1);
    }
  }

  /** The run's pages as they are written. */
  lemma FramesIn(v: View, refs: map<nat, nat>, key: Key, start: nat, n: nat)
    requires Owned(v, refs) && RunIn(v.table, key, start, n)
    ensures var phys := FramesOf(v.table, key, start, n);
            var pages := PagesAt(v.frames, phys);
            && |phys| == |pages| == n && WholePages(pages)
            && (forall j :: 0 <= j < n ==> phys[j] in v.frames)
            && (forall p :: 0 <= p < n ==> pages[p] == v.frames[PhysOf(v.table, Slot(key, start, p))])
  {
    FramesAt(v.table, key, start, n);
  }

  /** A write that covers only bytes of the run changes the disk only there. */
  lemma RunDiffers(v: View, w: View, key: Key, start: nat, n: nat)
    requires w == v.(disk := w.disk) && start % PAGE == 0
    requires OtherFiles(v.disk, w.disk, key)
    requires forall i: nat :: !(start <= i < SlotOf(start, n)) ==>
               ByteAt(DiskFile(w.disk, key), i) == ByteAt(DiskFile(v.disk, key), i)
    ensures DiskDiffers(v, w, RunSet(key, start, n))
  {
    forall q, i | Cell(q, i) && q !in RunSet(key, start, n)
      ensures DiskByte(w.disk, q, i) == DiskByte(v.disk, q, i)
    {
      if q.key == key && start <= q.off + i < SlotOf(start, n) {
        InsideRun(key, start, n, q, i);
      }
    }
  }

  /** Byte `i` of page `p` of a run is on disk after the merged write. */
  lemma SlotWritten(file: seq<byte>, start: nat, pages: seq<seq<byte>>, size: nat, p: nat, data: seq<byte>)
    requires WholePages(pages) && p < |pages| && pages[p] == data
    ensures forall i :: 0 <= i < PAGE && SlotOf(start, p) + i < size ==>
              ByteAt(data, i) == ByteAt(Merged(file, start, pages, size), SlotOf(start, p) + i)
  {
    forall i | 0 <= i < PAGE && SlotOf(start, p) + i < size
      ensures ByteAt(data, i) == ByteAt(Merged(file, start, pages, size), SlotOf(start, p) + i)
    {
      MergedPage(file, start, pages, size, p, i);
    }
  }

  /** The disk is as the merged write of a run leaves it. */
  ghost predicate RunMerged(v: View, w: View, refs: map<nat, nat>, key: Key, start: nat, n: nat) {
    && w == v.(disk := w.disk) && Owned(v, refs) && RunIn(v.table, key, start, n)
    && DiskFile(w.disk, key)
       == Merged(DiskFile(v.disk, key), start, PagesAt(v.frames, FramesOf(v.table, key, start, n)), Size(v, key))
  }

  lemma SlotAgrees(v: View, w: View, refs: map<nat, nat>, key: Key, start: nat, n: nat, p: nat)
    requires RunMerged(v, w, refs, key, start, n) && p < n
    ensures var q := Slot(key, start, p); q in w.table && Agrees(w, q, w.table[q].phys)
  {
    var q, pages := Slot(key, start, p), PagesAt(v.frames, FramesOf(v.table, key, start, n));
    FramesIn(v, refs, key, start, n);
    SlotWritten(DiskFile(v.disk, key), start, pages, Size(v, key), p, v.frames[v.table[q].phys]);
  }

  /** After the merged write, the disk holds the frames of the run. */
  lemma RunWritten(v: View, w: View, refs: map<nat, nat>, key: Key, start: nat, n: nat)
    requires RunMerged(v, w, refs, key, start, n)
    ensures forall q :: q in RunSet(key, start, n) ==> q in w.table && Agrees(w, q, w.table[q].phys)
  {
    forall q | q in RunSet(key, start, n) ensures q in w.table && Agrees(w, q, w.table[q].phys) {
      var p :| 0 <= p < n && q == Slot(key, start, p);
      SlotAgrees(v, w, refs, key, start, n, p);
    }
  }

  /** Clearing flags moves no frame. */
  lemma {:induction false} ClearFrames(t: Table, rs: set<Record>, key: Key, start: nat, n: nat)
    ensures FramesOf(Clear(t, rs), key, start, n) == FramesOf(t, key, start, n)
  {
    if n > 0 {
      ClearFrames(t, rs, key, start, n - 1);
    }
  }

  lemma RunCached(t: Table, key: Key, start: nat, n: nat)
    requires AllDirty(t, RunSet(key, start, n))
    ensures RunIn(t, key, start, n) && RunIn(Clear(t, RunSet(key, start, n)), key, start, n)
  {
    forall p | 0 <= p < n ensures Slot(key, start, p) in t {
      assert Slot(key, start, p) in RunSet(key, start, n);
    }
  }

  /** A run of one page. */
  lemma OneRun(v: View, key: Key, start: nat)
    requires Record(key, start) in v.table && v.table[Record(key, start)].dirty
    ensures var r := Record(key, start);
            && AllDirty(v.table, RunSet(key, start, 1))
            && Clear(v.table, RunSet(key, start, 1)) == v.table[r := v.table[r].(dirty := false)]
            && FramesOf(v.table, key, start, 1) == [v.table[r].phys]
            && (v.table[r].phys in v.frames ==>
                  Concat(PagesAt(v.frames, [v.table[r].phys])) == v.frames[v.table[r].phys])
  {
    var r := Record(key, start);
    assert Slot(key, start, 0) == r;
    assert RunSet(key, start, 1) == {r} by {
      forall q ensures q in RunSet(key, start, 1) <==> q == r {
        assert q == r ==> q == Slot(key, start, 0);
      }
    }
    assert FramesOf(v.table, key, start, 0) == [];
    var pages := PagesAt(v.frames, [v.table[r].phys]);
    assert pages[..0] == [];
  }

  /** `offs` lists the dirty pages of a file in increasing order. */
  ghost predicate DirtyList(t: Table, key: Key, offs: seq<nat>) {
    && (forall o :: o in offs <==> Record(key, o) in t && t[Record(key, o)].dirty)
    && (forall i, j :: 0 <= i < j < |offs| ==> offs[i] < offs[j])
  }

  function Recs(key: Key, offs: seq<nat>): set<Record> {
    set o | o in offs :: Record(key, o)
  }

  function FrameSeq(t: Table, key: Key, offs: seq<nat>): seq<nat> {
    seq(|offs|, j requires 0 <= j < |offs| => if Record(key, offs[j]) in t then t[Record(key, offs[j])].phys else 0)
  }

  /** The contents of the listed pages. */
  function Listed(v: View, key: Key, offs: seq<nat>): seq<seq<byte>> {
    PagesAt(v.frames, FrameSeq(v.table, key, offs))
  }

  /** The file on disk after the pages at `done` have been written, one by one. */
  ghost function WrittenTo(v0: View, key: Key, done: seq<nat>): seq<byte> {
    Pagewise(DiskFile(v0.disk, key), done, Listed(v0, key, done), Size(v0, key))
  }

  /** The pages at `done` have been written page by page, and are clean; nothing else has changed. */
  ghost predicate Flushed(v0: View, v: View, key: Key, done: seq<nat>) {
    && v.sizes == v0.sizes && v.frames == v0.frames
    && v.table == Clear(v0.table, Recs(key, done))
    && DiskFile(v.disk, key) == WrittenTo(v0, key, done)
    && OtherFiles(v0.disk, v.disk, key)
  }

  lemma FlushedNone(v: View, key: Key)
    ensures Flushed(v, v, key, [])
  {
    assert Clear(v.table, {}) == v.table;
  }

  lemma ListedAppend(v: View, key: Key, a: seq<nat>, b: seq<nat>)
    ensures Listed(v, key, a + b) == Listed(v, key, a) + Listed(v, key, b)
  {
    assert FrameSeq(v.table, key, a + b) == FrameSeq(v.table, key, a) + FrameSeq(v.table, key, b);
  }

  /** A stretch of adjacent offsets of the list. */
  ghost predicate IsRun(offs: seq<nat>, i: nat, n: nat) {
    i < |offs| && 0 < n && i + n <= |offs| && forall p :: 0 <= p < n ==> offs[i + p] == SlotOf(offs[i], p)
  }

  lemma RunRecs(key: Key, offs: seq<nat>, i: nat, n: nat)
    requires IsRun(offs, i, n)
    ensures RunSet(key, offs[i], n) == Recs(key, offs[i..i + n])
  {
    var run, part := RunSet(key, offs[i], n), offs[i..i + n];
    forall q | q in run ensures q in Recs(key, part) {
      var p :| 0 <= p < n && q == Slot(key, offs[i], p);
      assert part[p] == offs[i + p];
    }
    forall q | q in Recs(key, part) ensures q in run {
      var p :| 0 <= p < n && q == Record(key, part[p]);
      assert q == Slot(key, offs[i], p);
    }
  }

  /** The next run is still dirty: flags have been cleared only for smaller offsets. */
  lemma RunDirty(v0: View, v: View, refs: map<nat, nat>, key: Key, offs: seq<nat>, i: nat, n: nat)
    requires Owned(v0, refs) && DirtyList(v0.table, key, offs) && IsRun(offs, i, n)
    requires v.table == Clear(v0.table, Recs(key, offs[..i])) && v.frames == v0.frames
    ensures AllDirty(v.table, RunSet(key, offs[i], n)) && offs[i] % PAGE == 0
  {
    RunRecs(key, offs, i, n);
    assert offs[i] in offs;
    forall q | q in Recs(key, offs[i..i + n]) ensures q in v.table && v.table[q].dirty {
      var p :| i <= p < i + n && q == Record(key, offs[p]);
      assert offs[p] in offs;
      assert q !in Recs(key, offs[..i]);
    }
  }

  lemma ClearTwice(t: Table, a: set<Record>, b: set<Record>)
    ensures Clear(Clear(t, a), b) == Clear(t, a + b)
  {
  }

  lemma RecsAppend(key: Key, a: seq<nat>, b: seq<nat>)
    ensures Recs(key, a) + Recs(key, b) == Recs(key, a + b)
  {
    forall q ensures q in Recs(key, a + b) <==> q in Recs(key, a) || q in Recs(key, b) {
      assert q.off in a + b <==> q.off in a || q.off in b;
    }
  }

  lemma SamePages(frames: map<nat, seq<byte>>, phys: seq<nat>, all: seq<nat>)
    requires |phys| == |all| && forall p :: 0 <= p < |phys| ==> phys[p] == all[p] && all[p] in frames
    requires forall f :: f in frames ==> |frames[f]| == PAGE
    ensures PagesAt(frames, phys) == PagesAt(frames, all) && WholePages(PagesAt(frames, all))
  {
    assert phys == all;
  }

  lemma FrameInList(v0: View, refs: map<nat, nat>, key: Key, offs: seq<nat>, i: nat, n: nat, p: nat)
    requires Owned(v0, refs) && DirtyList(v0.table, key, offs) && IsRun(offs, i, n) && p < n
    ensures var r := Slot(key, offs[i], p);
            r in v0.table && r == Record(key, offs[i + p]) && PhysOf(v0.table, r) in v0.frames
  {
    assert offs[i + p] in offs;
  }

  /** A run's frames are those of the listed pages. */
  lemma RunListed(v0: View, v: View, refs: map<nat, nat>, key: Key, offs: seq<nat>, i: nat, n: nat, part: seq<nat>)
    requires Owned(v0, refs) && DirtyList(v0.table, key, offs) && IsRun(offs, i, n) && part == offs[i..i + n]
    requires v.table == Clear(v0.table, Recs(key, offs[..i])) && v.frames == v0.frames
    ensures PagesAt(v.frames, FramesOf(v.table, key, offs[i], n)) == Listed(v0, key, part)
    ensures WholePages(Listed(v0, key, part))
  {
    RunDirty(v0, v, refs, key, offs, i, n);
    RunCached(v.table, key, offs[i], n);
    FramesAt(v.table, key, offs[i], n);
    var phys, all := FramesOf(v.table, key, offs[i], n), FrameSeq(v0.table, key, part);
    forall p | 0 <= p < n ensures phys[p] == all[p] && all[p] in v0.frames {
      FrameInList(v0, refs, key, offs, i, n, p);
      assert phys[p] == PhysOf(v.table, Slot(key, offs[i], p)) && part[p] == offs[i + p];
    }
    SamePages(v0.frames, phys, all);
  }

  lemma RunTable(v0: View, v: View, key: Key, offs: seq<nat>, i: nat, n: nat, done: seq<nat>, part: seq<nat>)
    requires IsRun(offs, i, n) && v.table == Clear(v0.table, Recs(key, done)) && part == offs[i..i + n]
    ensures Clear(v.table, RunSet(key, offs[i], n)) == Clear(v0.table, Recs(key, done + part))
  {
    RunRecs(key, offs, i, n);
    RecsAppend(key, done, part);
    ClearTwice(v0.table, Recs(key, done), Recs(key, part));
  }

  /** One merged run continues the page-by-page flush. */
  lemma RunOnDisk(v0: View, key: Key, done: seq<nat>, part: seq<nat>, pages: seq<seq<byte>>)
    requires part != [] && pages == Listed(v0, key, part) && WholePages(pages)
    requires Rising(part[0], part) && NoGap(part[0], part, Size(v0, key))
    ensures Merged(WrittenTo(v0, key, done), part[0], pages, Size(v0, key)) == WrittenTo(v0, key, done + part)
  {
    ListedAppend(v0, key, done, part);
    MergedAfter(DiskFile(v0.disk, key), done, Listed(v0, key, done), part, pages, Size(v0, key));
  }

  lemma RunFlushed(v0: View, v: View, w: View, refs: map<nat, nat>, key: Key, offs: seq<nat>, i: nat, n: nat,
                   done: seq<nat>, part: seq<nat>)
    requires Owned(v0, refs) && DirtyList(v0.table, key, offs) && IsRun(offs, i, n)
    requires done == offs[..i] && part == offs[i..i + n] && Flushed(v0, v, key, done)
    requires w.sizes == v.sizes && w.frames == v.frames && w.table == Clear(v.table, RunSet(key, offs[i], n))
    requires OtherFiles(v.disk, w.disk, key)
    requires DiskFile(w.disk, key)
             == Merged(DiskFile(v.disk, key), offs[i], PagesAt(v.frames, FramesOf(v.table, key, offs[i], n)),
                       Size(v, key))
    ensures Flushed(v0, w, key, done + part)
  {
    RunTable(v0, v, key, offs, i, n, done, part);
    RunListed(v0, v, refs, key, offs, i, n, part);
    RunRising(v0, refs, key, offs, i, n);
    RunOnDisk(v0, key, done, part, Listed(v0, key, part));
  }

  lemma RunRising(v0: View, refs: map<nat, nat>, key: Key, offs: seq<nat>, i: nat, n: nat)
    requires Owned(v0, refs) && DirtyList(v0.table, key, offs) && IsRun(offs, i, n)
    ensures Rising(offs[i], offs[i..i + n]) && NoGap(offs[i], offs[i..i + n], Size(v0, key))
  {
    var part := offs[i..i + n];
    assert offs[i] in offs;
    forall j | 0 <= j < |part| ensures offs[i] <= part[j] && part[j] % PAGE == 0 && part[j] == SlotOf(offs[i], j) {
      assert part[j] == offs[i + j] && offs[i + j] in offs;
    }
  }

  /** Adding a page shows the same bytes exactly when its frame agrees with the disk. */
  lemma InsertShows(v: View, r: Record, e: Entry)
    requires r !in v.table && r.off % PAGE == 0 && e.phys in v.frames
    ensures SameFiles(v, v.(table := v.table[r := e])) <==> Agrees(v, r, e.phys)
  {
    var w := v.(table := v.table[r := e]);
    if Agrees(v, r, e.phys) {
      CleanSameFiles(v, r, Some(e), e.phys);
    }
    if SameFiles(v, w) {
      forall i | 0 <= i < PAGE && r.off + i < Size(v, r.key)
        ensures ByteAt(v.frames[e.phys], i) == DiskByte(v.disk, r, i)
      {
        assert InFile(v, r, i);
      }
    }
  }

  /** So does dropping one. */
  lemma DropShows(v: View, r: Record)
    requires r in v.table && r.off % PAGE == 0 && v.table[r].phys in v.frames
    ensures SameFiles(v, v.(table := v.table - {r})) <==> Agrees(v, r, v.table[r].phys)
  {
    var w := v.(table := v.table - {r});
    if Agrees(v, r, v.table[r].phys) {
      CleanSameFiles(v, r, None, v.table[r].phys);
    }
    if SameFiles(v, w) {
      forall i | 0 <= i < PAGE && r.off + i < Size(v, r.key)
        ensures ByteAt(v.frames[v.table[r].phys], i) == DiskByte(v.disk, r, i)
      {
        assert InFile(v, r, i);
      }
    }
  }

  /** A fill between its read and its commit. */
  datatype Fill = Fill(r: Record, phys: nat)

  /** A frame holds page `r` of the disk. */
  ghost predicate Copied(frames: map<nat, seq<byte>>, phys: nat, disk: map<Key, seq<byte>>, r: Record) {
    phys in frames && forall i :: 0 <= i < PAGE ==> ByteAt(frames[phys], i) == DiskByte(disk, r, i)
  }

  /** Each fill has a frame of its own that holds its page as it was on disk when it was read. */
  ghost predicate Flying(v: View, refs: map<nat, nat>, fills: map<nat, Fill>, origins: map<nat, map<Key, seq<byte>>>) {
    && (forall id :: id in fills ==>
          && id in origins && fills[id].r.off % PAGE == 0 && PrivateIn(v, refs, fills[id].phys)
          && Copied(v.frames, fills[id].phys, origins[id], fills[id].r))
    && (forall a, b :: a in fills && b in fills && a != b ==> fills[a].phys != fills[b].phys)
  }

  lemma FlyingKept(v: View, refs0: map<nat, nat>, w: View, refs1: map<nat, nat>, but: set<nat>,
                   fills: map<nat, Fill>, origins: map<nat, map<Key, seq<byte>>>)
    requires Flying(v, refs0, fills, origins) && KeptPrivate(v, refs0, w, refs1, but)
    requires forall id :: id in fills ==> fills[id].phys !in but
    ensures Flying(w, refs1, fills, origins)
  {
    forall id | id in fills ensures PrivateIn(w, refs1, fills[id].phys)
      && Copied(w.frames, fills[id].phys, origins[id], fills[id].r) {
      assert PrivateIn(v, refs0, fills[id].phys);
    }
  }

  lemma FlyingMore(v: View, refs: map<nat, nat>, fills: map<nat, Fill>, origins: map<nat, map<Key, seq<byte>>>,
                   id: nat, f: Fill, disk: map<Key, seq<byte>>)
    requires Flying(v, refs, fills, origins) && id !in fills && f.r.off % PAGE == 0 && PrivateIn(v, refs, f.phys)
    requires Copied(v.frames, f.phys, disk, f.r) && forall a :: a in fills ==> fills[a].phys != f.phys
    ensures Flying(v, refs, fills[id := f], origins[id := disk])
  {
  }

  /** A frame that was not private is no frame of a fill. */
  lemma NotFlying(v: View, refs: map<nat, nat>, fills: map<nat, Fill>, origins: map<nat, map<Key, seq<byte>>>,
                  phys: nat)
    requires Flying(v, refs, fills, origins) && !PrivateIn(v, refs, phys)
    ensures forall a :: a in fills ==> fills[a].phys != phys
  {
  }

  lemma FlyingLess(v: View, refs0: map<nat, nat>, w: View, refs1: map<nat, nat>, fills: map<nat, Fill>,
                   origins: map<nat, map<Key, seq<byte>>>, id: nat)
    requires Flying(v, refs0, fills, origins) && id in fills && KeptPrivate(v, refs0, w, refs1, {fills[id].phys})
    ensures Flying(w, refs1, fills - {id}, origins)
  {
    FlyingKept(v, refs0, w, refs1, {fills[id].phys}, fills - {id}, origins);
  }

  /** A frame that holds the page as it was agrees with the disk exactly when the page has not changed there. */
  lemma CopyAgrees(v: View, r: Record, phys: nat, disk: map<Key, seq<byte>>)
    requires Copied(v.frames, phys, disk, r)
    ensures Agrees(v, r, phys) <==> SameOnDisk(disk, v.disk, r, Size(v, r.key))
  {
    if Agrees(v, r, phys) {
      forall i | 0 <= i < PAGE && r.off + i < Size(v, r.key)
        ensures DiskByte(disk, r, i) == DiskByte(v.disk, r, i)
      {
        assert ByteAt(v.frames[phys], i) == DiskByte(disk, r, i);
      }
    }
    if SameOnDisk(disk, v.disk, r, Size(v, r.key)) {
      forall i | 0 <= i < PAGE && r.off + i < Size(v, r.key)
        ensures ByteAt(v.frames[phys], i) == DiskByte(v.disk, r, i)
      {
        assert DiskByte(disk, r, i) == DiskByte(v.disk, r, i);
      }
    }
  }

  /** Page `r` has got `data` at offset `at`. */
  ghost predicate WroteHere(v: View, w: View, r: Record, at: nat, data: seq<byte>) {
    forall i: nat :: InFile(v, r, i) ==>
      PageByte(w, r, i) == if at <= i < at + |data| then data[i - at] else PageByte(v, r, i)
  }

  /** And no other byte has changed. */
  ghost predicate Wrote(v: View, w: View, r: Record, at: nat, data: seq<byte>) {
    SameElsewhere(v, w, r) && WroteHere(v, w, r, at, data)
  }

  /** Beyond what has been written, readers notice nothing exactly if the pages that go hold what the disk holds. */
  lemma TrimmedWrote(v: View, w: View, refs: map<nat, nat>, r: Record, at: nat, data: seq<byte>)
    requires Trimmed(v, w, {r}) && Owned(v, refs) && r in w.table && WroteHere(v, w, r, at, data)
    ensures Wrote(v, w, r, at, data) <==> Safe(v, w)
  {
    TrimmedShows(v, w, refs, Some(r));
  }

  lemma TrimmedAdd(u: View, v: View, r: Record, e: Entry)
    requires Trimmed(u, v, {})
    ensures Trimmed(u, v.(table := v.table[r := e]), {r})
  {
  }

  /** A page has been looked up, and, unless it was `found` or could not be read, put into the cache. */
  ghost predicate Readied(v: View, w: View, r: Record, found: bool) {
    if found then Trimmed(v, w, {}) else Trimmed(v, w, {r}) && r in w.table && r !in v.table
  }

  /** If the page came as it is on disk, nothing is noticed exactly if the pages that go hold what the disk holds. */
  lemma ReadyShows(v: View, w: View, refs: map<nat, nat>, r: Record, found: bool)
    requires Readied(v, w, r, found) && Owned(v, refs)
    ensures found || Agrees(w, r, w.table[r].phys) || Size(v, r.key) <= r.off ==> (SameFiles(v, w) <==> Safe(v, w))
    ensures Safe(v, w) ==> SameElsewhere(v, w, r)
  {
    if found {
      TrimmedFiles(v, w, refs);
    } else {
      TrimmedShows(v, w, refs, Some(r));
      if Agrees(w, r, w.table[r].phys) || Size(v, r.key) <= r.off {
        forall i | InFile(v, r, i) ensures PageByte(v, r, i) == PageByte(w, r, i) {
          assert ByteAt(w.frames[w.table[r].phys], i) == DiskByte(v.disk, r, i);
        }
      }
    }
  }

  lemma ReadyClean(v: View, w: View, r: Record, found: bool)
    requires Readied(v, w, r, found) && Consistent(v, {}) && (found || Agrees(w, r, w.table[r].phys))
    ensures Safe(v, w) && Consistent(w, {})
  {
    if found {
      TrimmedClean(v, w);
    } else {
      TrimmedConsistent(v, w, {r}, {});
    }
  }

  /** A page made ready and then written. */
  lemma ReadyWrote(u: View, v: View, w: View, r: Record, at: nat, data: seq<byte>, found: bool)
    requires Readied(u, v, r, found) && r in v.table && (found ==> r in u.table) && Trimmed(v, w, {r}) && r in w.table
    requires forall i: nat :: i < PAGE ==>
               PageByte(w, r, i) == if at <= i < at + |data| then data[i - at] else PageByte(v, r, i)
    requires found || Agrees(v, r, v.table[r].phys) || Size(u, r.key) <= r.off || (at == 0 && |data| == PAGE)
    ensures Trimmed(u, w, {r}) && WroteHere(u, w, r, at, data)
  {
    if found {
      TrimmedMore(u, v, {}, {r});
    }
    TrimmedTrans(u, v, w, {r});
    forall i: nat | InFile(u, r, i)
      ensures PageByte(w, r, i) == if at <= i < at + |data| then data[i - at] else PageByte(u, r, i)
    {
      if found {
        assert SamePage(u, v, r);
      } else if Agrees(v, r, v.table[r].phys) {
        assert ByteAt(v.frames[v.table[r].phys], i) == DiskByte(u.disk, r, i);
      }
    }
  }

  /** A write inside one page of a file is a write to its bytes, and to no other file. */
  lemma WroteContents(v: View, w: View, r: Record, at: nat, data: seq<byte>, key: Key)
    requires Wrote(v, w, r, at, data) && r.off % PAGE == 0 && at + |data| <= PAGE
             && r.off + at + |data| <= Size(v, r.key)
    ensures Contents(w, key) == if key == r.key then WriteAt(Contents(v, key), r.off + at, data) else Contents(v, key)
  {
    var file := if key == r.key then WriteAt(Contents(v, key), r.off + at, data) else Contents(v, key);
    forall j | 0 <= j < Size(v, key) ensures Contents(w, key)[j] == file[j] {
      var q, i := Record(key, j - j % PAGE), j % PAGE;
      assert InFile(v, q, i);
      assert Contents(v, key)[j] == PageByte(v, q, i) && Contents(w, key)[j] == PageByte(w, q, i);
      assert key == r.key && r.off + at <= j < r.off + at + |data| ==> q == r;
    }
  }
}
