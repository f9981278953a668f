// Two runs after which a reader sees bytes that have been overwritten.
module StaleFill {
  import opened CacheViews
  import opened Bytes
  import opened FileWrites
  import opened Flushes
  import opened PageCache
  import opened PageCacheState
  import opened Wrappers

  const KEY: Key := Key(1, 2)
  const FIRST: Record := Record(KEY, 0)

  /** A file of one byte, which is zero, and two free frames; nothing fails. */
  method Setup() returns (c: Cache)
    ensures fresh(c) && c.Valid() && c.InFlight() && !c.faulty
    ensures c.table == map[] && c.fills == map[] && c.flushes == map[]
    ensures c.frames.Keys == {7, 8} && c.refs == map[7 := 0, 8 := 0]
    ensures c.disk == map[KEY := [0]] && c.sizes == map[KEY := 1]
  {
    c := new Cache(map[7 := Zeros(PAGE), 8 := Zeros(PAGE)], map[7 := 0, 8 := 0], map[KEY := [0]], map[KEY := 1], false);
  }

  /** Fill 0 has read the page into frame `p`; the other frame is free. */
  ghost predicate HasRead(c: Cache, p: nat)
    reads c
  {
    && c.Valid() && c.InFlight() && !c.faulty && c.sizes == map[KEY := 1] && c.frames.Keys == {7, 8}
    && c.fills == map[0 := Fill(FIRST, p)] && 0 in c.origins && c.origins[0] == map[KEY := [0]]
    && p in {7, 8} && c.refs.Keys == {7, 8} && c.refs[p] == 1
  }

  ghost predicate Untouched(c: Cache, p: nat)
    reads c
  {
    HasRead(c, p) && c.table == map[] && c.refs == map[7 := 0, 8 := 0][p := 1]
  }

  /** The page is cached with its one, unmapped, and `dirty` or not. */
  ghost predicate Cached(v: View, refs: map<nat, nat>, dirty: bool) {
    && v.table.Keys == {FIRST} && v.table[FIRST].dirty == dirty && PageByte(v, FIRST, 0) == 1
    && v.table[FIRST].phys in refs && refs[v.table[FIRST].phys] == 1
    && (!dirty ==> DiskByte(v.disk, FIRST, 0) == 1)
  }

  ghost predicate Changed(c: Cache, p: nat, dirty: bool)
    reads c
  {
    HasRead(c, p) && Cached(c.V(), c.refs, dirty)
  }

  lemma WroteOne(v: View, refs0: map<nat, nat>, w: View, refs1: map<nat, nat>)
    requires v.table == map[] && v.sizes == map[KEY := 1] && Wrote(v, w, FIRST, 0, [1])
    requires Took(v.table, refs0, w.table, refs1, FIRST) && w.table[FIRST].dirty
    ensures Cached(w, refs1, true)
  {
    assert InFile(v, FIRST, 0);
  }

  /** The page is on disk with its one, and not cached. */
  ghost predicate Gone(c: Cache)
    reads c
  {
    && c.Valid() && c.InFlight() && c.table == map[] && DiskByte(c.disk, FIRST, 0) == 1 && c.sizes == map[KEY := 1]
    && 0 in c.fills && c.fills[0].r == FIRST && 0 in c.origins && c.origins[0] == map[KEY := [0]]
  }

  method ReadOld() returns (c: Cache, ghost p: nat)
    ensures fresh(c) && Untouched(c, p)
  {
    c := Setup();
    assert HasFree(c.frames, c.refs) by {
      assert 7 in c.frames && c.refs[7] == 0;
    }
    var _ := c.BeginFill(0, FIRST);
    p := c.fills[0].phys;
  }

  /** Meanwhile a one is written over the byte. */
  method Overwrite(c: Cache, ghost p: nat)
    requires Untouched(c, p)
    modifies c`shards, c`globalDirty, c`table, c`refs, c`frames
    ensures Changed(c, p, true)
  {
    assert HasFree(c.frames, c.refs) by {
      assert (15 - p) in c.frames && c.refs[15 - p] == 0;
    }
    var _ := c.WritePage(FIRST, 0, [1]);
    assert HasRead(c, p) by {
      FlyingKept(old(c.V()), old(c.refs), c.V(), c.refs, {}, c.fills, c.origins);
      assert PrivateIn(c.V(), c.refs, c.fills[0].phys);
    }
    WroteOne(old(c.V()), old(c.refs), c.V(), c.refs);
  }

  /** The page is flushed. */
  method FlushIt(c: Cache, ghost p: nat)
    requires Changed(c, p, true)
    modifies c`shards, c`globalDirty, c`table, c`disk
    ensures Changed(c, p, false)
  {
    var _ := c.FlushPage(KEY, 0);
    assert HasRead(c, p) by {
      KeptFewer(old(c.V()), c.refs, c.V());
      FlyingKept(old(c.V()), c.refs, c.V(), c.refs, {}, c.fills, c.origins);
    }
    FlushedOne(old(c.V()), c.V(), c.refs);
  }

  lemma FlushedOne(v: View, w: View, refs: map<nat, nat>)
    requires Cached(v, refs, true) && w.sizes == v.sizes == map[KEY := 1] && w.frames == v.frames
    requires v.table[FIRST].phys in v.frames && w.table == v.table[FIRST := v.table[FIRST].(dirty := false)]
    requires DiskFile(w.disk, KEY) == WriteAt(DiskFile(v.disk, KEY), 0, Clipped(v.frames[v.table[FIRST].phys], 0, 1))
    requires |v.frames[v.table[FIRST].phys]| == PAGE
    ensures Cached(w, refs, false)
  {
    var frame := v.frames[v.table[FIRST].phys];
    assert Clipped(frame, 0, 1)[0] == frame[0] == 1;
  }

  /** The only page of a cache, clean and not mapped, goes when one page is asked for. */
  lemma OnlyPageGoes(t: Table, refs: map<nat, nat>, t1: Table, refs1: map<nat, nat>, gone: set<Record>)
    requires Evicted(t, refs, t1, refs1, gone) && t.Keys == {FIRST} && Spare(t, refs, ShardIndex(FIRST.key), FIRST)
    requires |gone| < 1 ==> forall q: Record :: !Spare(t1, refs1, ShardIndex(q.key), q)
    ensures t1 == map[]
  {
    SpareLeft(t, refs, t1, refs1, gone, ShardIndex(FIRST.key), FIRST);
    assert gone <= {FIRST};
  }

  /** The page, now clean, is evicted. */
  method EvictIt(c: Cache, ghost p: nat)
    requires Changed(c, p, false)
    modifies c`shards, c`globalDirty, c`table, c`refs
    ensures Gone(c)
  {
    var n;
    ghost var gone;
    n, gone := c.EvictCleanPages(1);
    assert c.InFlight() by {
      FlyingKept(old(c.V()), old(c.refs), c.V(), c.refs, {}, c.fills, c.origins);
    }
    OnlyPageGoes(old(c.table), old(c.refs), c.table, c.refs, gone);
  }

  /** The commit of fill 0 now makes a reader see the zero that has been overwritten. */
  method CommitOld(c: Cache)
    requires Gone(c)
    modifies c`shards, c`globalDirty, c`table, c`refs, c`fills
    ensures PageByte(old(c.V()), FIRST, 0) == 1 && PageByte(c.V(), FIRST, 0) == 0
    ensures FIRST in c.table && !c.table[FIRST].dirty && !c.Clean()
  {
    assert ByteAt(c.frames[c.fills[0].phys], 0) == DiskByte(c.origins[0], FIRST, 0) == 0;
    assert !SameOnDisk(c.origins[0], c.disk, FIRST, 1);
    c.EndFill(0);
  }

  /** The whole run, by one cache from its start: a clean page shows a byte that the file no longer holds. */
  method Overtaken() returns (c: Cache, ghost before: View)
    ensures fresh(c) && PageByte(before, FIRST, 0) == 1 && PageByte(c.V(), FIRST, 0) == 0
    ensures FIRST in c.table && !c.table[FIRST].dirty && !c.Clean()
  {
    ghost var p;
    c, p := ReadOld();
    Overwrite(c, p);
    FlushIt(c, p);
    EvictIt(c, p);
    before := c.V();
    CommitOld(c);
  }

  /** The page has been written, and nothing else has happened. */
  method WriteOnly() returns (c: Cache)
    ensures fresh(c) && c.Valid() && c.InFlight() && !c.faulty && c.sizes == map[KEY := 1] && c.disk == map[KEY := [0]]
    ensures c.flushes == map[] && Cached(c.V(), c.refs, true)
  {
    c := Setup();
    assert HasFree(c.frames, c.refs) by {
      assert 7 in c.frames && c.refs[7] == 0;
    }
    ghost var v, refs := c.V(), c.refs;
    var _ := c.WritePage(FIRST, 0, [1]);
    FlyingKept(v, refs, c.V(), c.refs, {}, c.fills, c.origins);
    WroteOne(v, refs, c.V(), c.refs);
  }

  /** The flag of the page is cleared, `pages` are copied; the file has `now` as its only byte. */
  ghost predicate Cleared(c: Cache, pages: Option<seq<seq<byte>>>, now: byte)
    reads c
  {
    && c.Valid() && c.InFlight() && !c.faulty && c.sizes == map[KEY := 1] && c.disk == map[KEY := [0]]
    && c.table.Keys == {FIRST} && !c.table[FIRST].dirty && PageByte(c.V(), FIRST, 0) == now
    && c.table[FIRST].phys in c.refs && c.refs[c.table[FIRST].phys] == 1
    && c.flushes == map[0 := Flush(KEY, 0, [0], [c.table[FIRST].phys], pages)]
  }

  method BeginIt(c: Cache)
    requires c.Valid() && c.InFlight() && !c.faulty && c.sizes == map[KEY := 1] && c.disk == map[KEY := [0]]
    requires c.flushes == map[] && Cached(c.V(), c.refs, true)
    modifies c`shards, c`globalDirty, c`table, c`flushes
    ensures Cleared(c, None, 1)
  {
    OneRun(c.V(), KEY, 0);
    AllDirtyIn(c.table, KEY, 0, 1);
    assert DirtyIn(c.table, KEY, 0, 1) == [0];
    assert InFile(c.V(), FIRST, 0);
    c.BeginFlush(0, KEY, 0, 1);
  }

  /** The page is evicted, and then read again. */
  method EvictAndRead(c: Cache)
    requires Cleared(c, None, 1)
    modifies c`shards, c`globalDirty, c`table, c`refs, c`frames
    ensures PageByte(c.V(), FIRST, 0) == 0
  {
    ghost var t, refs := c.table, c.refs;
    var n;
    ghost var gone;
    n, gone := c.EvictCleanPages(1);
    OnlyPageGoes(t, refs, c.table, c.refs, gone);
    var page := c.GetPage(FIRST);
    assert FIRST in c.table ==> ByteAt(c.frames[c.table[FIRST].phys], 0) == DiskByte(c.disk, FIRST, 0);
  }

  /** A write that succeeds is lost: its page is evicted between the first part of its flush and the second. */
  method LostWrite() returns (c: Cache, ghost before: View)
    ensures fresh(c) && PageByte(before, FIRST, 0) == 1 && PageByte(c.V(), FIRST, 0) == 0
    ensures FIRST in PendingOf(c.flushes)
  {
    c := WriteOnly();
    BeginIt(c);
    assert FIRST in RecsOf(c.flushes[0]);
    before := c.V();
    EvictAndRead(c);
  }

  /** The frame is copied, and only then the byte is overwritten again. */
  method SnapAndCopy(c: Cache) returns (ghost page: seq<byte>)
    requires Cleared(c, None, 1)
    modifies c`frames, c`flushes
    ensures |page| == PAGE && page[0] == 1 && Cleared(c, Some([page]), 2)
  {
    page := c.frames[c.table[FIRST].phys];
    var phys := c.flushes[0].phys[0];
    c.Snapshot(0);
    assert PagesAt(c.frames, [phys]) == [page];
    assert InFile(c.V(), FIRST, 0);
    var _ := c.CopyBytes(FIRST, phys, 0, [2]);
  }

  /** The copy is written. */
  method EndIt(c: Cache, ghost page: seq<byte>)
    requires |page| == PAGE && page[0] == 1 && Cleared(c, Some([page]), 2)
    modifies c`shards, c`globalDirty, c`table, c`disk, c`flushes
    ensures c.flushes == map[] && FIRST in c.table && !c.table[FIRST].dirty
    ensures PageByte(c.V(), FIRST, 0) == 2 && DiskByte(c.disk, FIRST, 0) == 1
  {
    ghost var v, f := c.V(), c.flushes[0];
    var _ := c.EndFlush(0, true);
    assert InFile(v, Dest(f, 0), 0) && Dest(f, 0) == FIRST;
    Landed(v, c.V(), f, 0, 0);
  }

  /**
   * A write that falls between the second part of a flush and the last: the flush is over, and the page is clean with
   * a byte that is not on disk.
   */
  method LateCopy() returns (c: Cache)
    ensures fresh(c) && c.flushes == map[] && FIRST in c.table && !c.table[FIRST].dirty
    ensures PageByte(c.V(), FIRST, 0) == 2 && DiskByte(c.disk, FIRST, 0) == 1
  {
    c := WriteOnly();
    BeginIt(c);
    ghost var page;
    page := SnapAndCopy(c);
    EndIt(c, page);
  }
}
