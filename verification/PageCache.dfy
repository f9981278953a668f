// The page cache over one disk: lookups, fills, eviction and write-back keep every file's bytes.
module PageCache {
  import opened Bytes
  import opened CacheRuns
  import opened CacheViews
  import opened FileWrites
  import opened Flushes
  import opened PageCacheState
  import opened Sets
  import opened Wrappers

  datatype Errno = ENOMEM | EIO

  /** The read loop of a fill: short reads are repeated, the rest of the page past the end is zeroed. */
  method ReadPage(file: seq<byte>, off: nat, frame: seq<byte>, faulty: bool) returns (res: Result<seq<byte>, Errno>)
    requires |frame| == PAGE
    ensures !faulty ==> res.Ok?
    ensures res.Ok? ==> |res.value| == PAGE && forall i :: 0 <= i < PAGE ==> res.value[i] == ByteAt(file, off + i)
    ensures res.Err? ==> res.error == EIO
  {
    var buf, total := frame, 0;
    while total < PAGE
      invariant 0 <= total <= PAGE == |buf|
      invariant forall i :: 0 <= i < total ==> buf[i] == ByteAt(file, off + i)
    {
      var fails := *;
      if faulty && fails {
        return Err(EIO);
      }
      if |file| <= off + total {
        break;
      }
      assert 1 <= PAGE - total && 1 <= |file| - (off + total);
      var n :| 1 <= n <= PAGE - total && n <= |file| - (off + total);
      buf := buf[..total] + file[off + total..off + total + n] + buf[total + n..];
      total := total + n;
    }
    return Ok(buf[..total] + Zeros(PAGE - total));
  }

  /** Adjacent offsets from `i` on are merged, at most 32 of them. */
  method RunLength(offs: seq<nat>, i: nat) returns (n: nat)
    requires i < |offs|
    ensures 1 <= n <= 32 && i + n <= |offs|
    ensures forall p :: 0 <= p < n ==> offs[i + p] == SlotOf(offs[i], p)
    ensures n == 32 || i + n == |offs| || offs[i + n] != SlotOf(offs[i], n)
  {
    n := 1;
    while i + n < |offs| && offs[i + n] == offs[i] + n * PAGE && n < 32
      invariant 1 <= n <= 32 && i + n <= |offs|
      invariant forall p :: 0 <= p < n ==> offs[i + p] == SlotOf(offs[i], p)
    {
      n := n + 1;
    }
  }

  /** The pages of a run in one buffer. */
  method Join(pages: seq<seq<byte>>) returns (buf: seq<byte>)
    ensures buf == Concat(pages)
  {
    buf := [];
    for j := 0 to |pages|
      invariant buf == Concat(pages[..j])
    {
      assert pages[..j + 1][..j] == pages[..j];
      buf := buf + pages[j];
    }
    assert pages[..|pages|] == pages;
  }

  class Cache {
    var shards: Shards
    var globalDirty: nat
    var frames: map<nat, seq<byte>>
    var refs: map<nat, nat>
    var disk: map<Key, seq<byte>>
    const sizes: map<Key, nat>
    const faulty: bool                                 // whether allocations, reads and writes may fail
    var fills: map<nat, Fill>                          // fills between their read and their commit
    ghost var origins: map<nat, map<Key, seq<byte>>>   // the disk when each of them read its page
    var flushes: map<nat, Flush>                       // flushes between their first part and their last
    ghost var table: Table

    /** An empty cache over a disk. */
    constructor (frames: map<nat, seq<byte>>, refs: map<nat, nat>, disk: map<Key, seq<byte>>, sizes: map<Key, nat>,
                 faulty: bool)
      requires forall p :: p in frames ==> |frames[p]| == PAGE && p in refs
      ensures Valid() && InFlight() && Clean() && table == map[] && fills == map[] && flushes == map[]
      ensures this.disk == disk && this.sizes == sizes
      ensures this.frames == frames && this.refs == refs && this.faulty == faulty
    {
      shards := seq(SHARDS, i => Shard(map[], []));
      globalDirty := 0;
      this.frames, this.refs, this.disk, this.sizes, this.faulty := frames, refs, disk, sizes, faulty;
      table, fills, origins, flushes := map[], map[], map[], map[];
      new;
      assert forall key :: State(shards, key).dirtyCount == 0 && DirtyOffs(State(shards, key).pages) == {};
      assert DirtySet(table) == {};
    }

    ghost function V(): View
      reads this
    {
      View(table, frames, disk, sizes)
    }

    ghost predicate Valid()
      reads this
    {
      Accounted(shards, table, globalDirty) && Owned(V(), refs)
    }

    ghost function M(): Moment
      reads this
    {
      Moment(V(), refs, fills, origins, flushes)
    }

    /** Clean pages hold what the disk holds. */
    ghost predicate Clean()
      reads this
    {
      Consistent(V(), {})
    }

    ghost predicate InFlight()
      reads this
    {
      Flying(V(), refs, fills, origins) && AllFit(frames, flushes)
    }

    /** Both counters follow the dirty flag of a page that gets new flags. */
    method Recount(st: InodeState, off: nat, e: Entry) returns (next: InodeState)
      requires off in st.pages && (st.pages[off].dirty ==> st.dirtyCount > 0 && globalDirty > 0)
      modifies this`globalDirty
      ensures next == ChangedInode(st, off, Some(e))
      ensures globalDirty + (if st.pages[off].dirty then 1 else 0) == old(globalDirty) + if e.dirty then 1 else 0
    {
      var was, count := st.pages[off].dirty, st.dirtyCount;
      if was && !e.dirty {
        count := if count == 0 then 0 else count - 1;
        globalDirty := globalDirty - 1;
      } else if !was && e.dirty {
        count := count + 1;
        globalDirty := globalDirty + 1;
      }
      next := InodeState(st.pages[off := e], count);
    }

    /** Give a cached page other flags, keeping both counters in step. */
    method PutFlags(r: Record, e: Entry)
      requires Accounted(shards, table, globalDirty) && r in table
      modifies this`shards, this`globalDirty, this`table
      ensures Accounted(shards, table, globalDirty) && table == old(table)[r := e]
      ensures Clock(shards, r.key) == Clock(old(shards), r.key)
    {
      ChangedGlobal(shards, table, globalDirty, r, Some(e));
      ChangedAccounted(shards, table, globalDirty, r, Some(e));
      var st := Recount(State(shards, r.key), r.off, e);
      shards := SetState(shards, r.key, st);
      table := table[r := e];
    }

    method PushClock(r: Record)
      requires Accounted(shards, table, globalDirty)
      modifies this`shards
      ensures Accounted(shards, table, globalDirty) && r in Clock(shards, r.key)
    {
      PushClockAccounted(shards, table, globalDirty, r);
      var s := ShardIndex(r.key);
      shards := SetClock(shards, s, shards[s].clock + [r]);
    }

    /** Add a page that is not cached, with its clock record. */
    method AddPage(r: Record, e: Entry)
      requires Accounted(shards, table, globalDirty) && r !in table
      modifies this`shards, this`globalDirty, this`table
      ensures Accounted(shards, table, globalDirty) && table == old(table)[r := e]
    {
      PushClock(r);
      ChangedGlobal(shards, table, globalDirty, r, Some(e));
      ChangedAccounted(shards, table, globalDirty, r, Some(e));
      var st := State(shards, r.key);
      var count := st.dirtyCount;
      if e.dirty {
        count := count + 1;
        globalDirty := globalDirty + 1;
      }
      assert InodeState(st.pages[r.off := e], count) == ChangedInode(st, r.off, Some(e));
      shards := SetState(shards, r.key, InodeState(st.pages[r.off := e], count));
      table := table[r := e];
    }

    /** Both counters follow the removal of a page. */
    method Uncount(st: InodeState, off: nat) returns (next: InodeState)
      requires off in st.pages && (st.pages[off].dirty ==> st.dirtyCount > 0 && globalDirty > 0)
      modifies this`globalDirty
      ensures next == ChangedInode(st, off, None)
      ensures globalDirty + (if st.pages[off].dirty then 1 else 0) == old(globalDirty)
    {
      var count := st.dirtyCount;
      if st.pages[off].dirty {
        count := if count == 0 then 0 else count - 1;
        globalDirty := globalDirty - 1;
      }
      next := InodeState(st.pages - {off}, count);
    }

    /** Drop a cached page; an inode left without pages goes too. */
    method DropPage(r: Record)
      requires Accounted(shards, table, globalDirty) && r in table
      modifies this`shards, this`globalDirty, this`table
      ensures Accounted(shards, table, globalDirty) && table == old(table) - {r}
      ensures Clock(shards, r.key) == Clock(old(shards), r.key)
    {
      ChangedGlobal(shards, table, globalDirty, r, None);
      ChangedAccounted(shards, table, globalDirty, r, None);
      var st := Uncount(State(shards, r.key), r.off);
      shards := SetState(shards, r.key, st);
      table := table - {r};
    }

    /** Whether a page is cached, and its entry. */
    method Lookup(r: Record) returns (e: Option<Entry>)
      requires Accounted(shards, table, globalDirty)
      ensures e == if r in table then Some(table[r]) else None
    {
      assert r in table <==> Cached(shards, r);
      var st := State(shards, r.key);
      return if r.off in st.pages then Some(st.pages[r.off]) else None;
    }

    method SetFlags(r: Record, e: Entry)
      requires Valid() && r in table && e.phys == table[r].phys
      modifies this`shards, this`globalDirty, this`table
      ensures Valid() && table == old(table)[r := e] && SameFiles(old(V()), V())
      ensures (old(table)[r].dirty ==> e.dirty) ==> Trimmed(old(V()), V(), {})
      ensures KeptPrivate(old(V()), refs, V(), refs, {})
      ensures Clock(shards, r.key) == Clock(old(shards), r.key)
    {
      FlagsSameFiles(V(), r, e);
      if table[r].dirty ==> e.dirty {
        TrimmedFlags(V(), r, e);
      }
      assert PhysOf(table, r) == e.phys;
      PutOwned(V(), refs, r, e);
      KeptFlags(V(), refs, r, e);
      PutFlags(r, e);
    }

    /** `page_cache_get`. */
    method Get(r: Record) returns (hit: Option<Entry>)
      requires Valid()
      modifies this`shards, this`globalDirty, this`table
      ensures Valid() && SameFiles(old(V()), V()) && KeptPrivate(old(V()), refs, V(), refs, {})
      ensures Trimmed(old(V()), V(), {})
      ensures hit == if r in old(table) then Some(old(table)[r].(referenced := true)) else None
      ensures table == if hit.Some? then old(table)[r := hit.value] else old(table)
    {
      hit := Lookup(r);
      if hit.Some? {
        hit := Some(hit.value.(referenced := true));
        SetFlags(r, hit.value);
      }
    }

    /** `page_cache_mark_dirty`. */
    method MarkDirty(r: Record)
      requires Valid()
      modifies this`shards, this`globalDirty, this`table
      ensures Valid() && SameFiles(old(V()), V()) && KeptPrivate(old(V()), refs, V(), refs, {})
      ensures Trimmed(old(V()), V(), {})
      ensures table == if r in old(table) then old(table)[r := old(table)[r].(dirty := true)] else old(table)
    {
      var hit := Lookup(r);
      if hit.Some? && !hit.value.dirty {
        SetFlags(r, hit.value.(dirty := true));
      }
    }

    /** The caller owns the frame of `e`. */
    ghost predicate MayAdd(r: Record, e: Entry)
      reads this
    {
      && r.off % PAGE == 0 && e.phys in frames && e.phys in refs && refs[e.phys] >= 1
      && (forall q :: q in table && q != r ==> PhysOf(table, q) != e.phys)
    }

    /** `page_cache_insert_or_get`; also the last step of a fill, when another may have filled the page first. */
    method InsertOrGet(r: Record, e: Entry) returns (existing: Option<nat>)
      requires Valid() && (r !in table ==> MayAdd(r, e))
      modifies this`shards, this`globalDirty, this`table
      ensures Valid() && (SameFiles(old(V()), V()) <==> r in old(table) || Agrees(old(V()), r, e.phys))
      ensures existing == if r in old(table) then Some(old(table)[r].phys) else None
      ensures table == old(table)[r := if r in old(table) then old(table)[r].(referenced := true) else e]
    {
      var hit := Lookup(r);
      if hit.Some? {
        SetFlags(r, hit.value.(referenced := true));
        return Some(hit.value.phys);
      }
      PutOwned(V(), refs, r, e);
      InsertShows(V(), r, e);
      AddPage(r, e);
      return None;
    }

    /** `page_cache_insert`. */
    method Insert(r: Record, e: Entry)
      requires Valid() && MayAdd(r, e)
      modifies this`shards, this`globalDirty, this`table
      ensures Valid() && table == old(table)[r := e]
    {
      PutOwned(V(), refs, r, e);
      var hit := Lookup(r);
      if hit.Some? {
        PutFlags(r, e);
      } else {
        AddPage(r, e);
      }
    }

    /** `page_cache_remove`: the page uncovers what the disk holds. */
    method Remove(r: Record)
      requires Valid()
      modifies this`shards, this`globalDirty, this`table
      ensures Valid() && table == old(table) - {r} && Uncovered(old(V()), V(), r)
      ensures SameFiles(old(V()), V()) <==> r !in old(table) || Agrees(old(V()), r, old(table)[r].phys)
      ensures old(Clean()) ==> Clean()
      ensures Clock(shards, r.key) == Clock(old(shards), r.key)
    {
      var hit := Lookup(r);
      if hit.Some? {
        DropOwned(V(), refs, r);
        DropShows(V(), r);
        if Clean() {
          FewerConsistent(V(), table - {r}, {});
        }
        DropPage(r);
      } else {
        assert table - {r} == table;
      }
    }

    /** `deallocate_frame` of a frame that no page uses any more. */
    method Free(phys: nat)
      requires Valid() && phys in refs && forall q :: q in table ==> PhysOf(table, q) != phys
      modifies this`refs
      ensures Valid() && refs == Release(old(refs), phys)
    {
      FreeOwned(V(), refs, phys);
      refs := Release(refs, phys);
    }

    /** Drop a page and release its frame. */
    method DropFreed(r: Record)
      requires Valid() && r in table
      modifies this`shards, this`globalDirty, this`table, this`refs
      ensures Valid() && table == old(table) - {r} && (old(Clean()) ==> Clean())
      ensures Clock(shards, r.key) == Clock(old(shards), r.key)
      ensures PhysOf(old(table), r) in old(refs) && refs == Release(old(refs), PhysOf(old(table), r))
    {
      var hit := Lookup(r);
      assert forall q :: q in table && q != r ==> PhysOf(table, q) != PhysOf(table, r);
      assert PhysOf(table, r) == hit.value.phys;
      ghost var t := table;
      Remove(r);
      forall q | q in table ensures PhysOf(table, q) != hit.value.phys {
        assert PhysOf(table, q) == PhysOf(t, q);
      }
      Free(hit.value.phys);
    }

    method TruncateStep(key: Key, o: nat, ghost t0: Table, ghost refs0: map<nat, nat>)
      requires Valid() && Record(key, o) in table && Unshared(t0)
      requires Between(map[], table, t0) && Released(t0, table, refs0, refs)
      modifies this`shards, this`globalDirty, this`table, this`refs
      ensures Valid() && table == old(table) - {Record(key, o)} && Released(t0, table, refs0, refs)
      ensures old(Clean()) ==> Clean()
    {
      ghost var r := Record(key, o);
      assert PhysOf(t0, r) == PhysOf(table, r);
      DropFreed(Record(key, o));
      ReleasedStep(t0, old(table), refs0, old(refs), r);
    }

    /** The offsets of an inode's cached pages from `from` on. */
    method OffsetsFrom(key: Key, from: nat) returns (todo: set<nat>)
      requires Accounted(shards, table, globalDirty)
      ensures Remaining(todo, table, key, from)
    {
      var pages := State(shards, key).pages;
      todo := set o | o in pages && from <= o;
      forall o: nat ensures o in todo <==> from <= o && Record(key, o) in table {
        assert Record(key, o) in table <==> Cached(shards, Record(key, o));
      }
    }

    method DropFrom(key: Key, from: nat)
      requires Valid()
      modifies this`shards, this`globalDirty, this`table, this`refs
      ensures Valid() && table == Without(old(table), key, from) && Released(old(table), table, old(refs), refs)
      ensures old(Clean()) ==> Clean()
    {
      var todo := OffsetsFrom(key, from);
      while todo != {}
        invariant Valid() && Released(old(table), table, old(refs), refs) && (old(Clean()) ==> Clean())
        invariant Between(Without(old(table), key, from), table, old(table))
        invariant Remaining(todo, table, key, from)
        decreases todo
      {
        var o :| o in todo;
        ghost var t := table;
        TruncateStep(key, o, old(table), old(refs));
        BetweenDrop(Without(old(table), key, from), t, old(table), Record(key, o));
        RemainingDrop(todo, t, key, from, o);
        todo := todo - {o};
      }
      BetweenDone(old(table), table, key, from);
    }

    /** `page_cache_truncate_inode`: pages wholly past `size` go, bytes below `size` stay. */
    method TruncateInode(key: Key, size: nat)
      requires Valid()
      modifies this`shards, this`globalDirty, this`table, this`refs
      ensures Valid() && (old(Clean()) ==> Clean()) && Released(old(table), table, old(refs), refs)
      ensures forall q :: q in old(table) ==> (q in table <==> q.key != key || q.off < size)
      ensures forall q :: q in table ==> q in old(table) && table[q] == old(table)[q]
      ensures forall q, i :: InFile(V(), q, i) && (q.key != key || q.off + i < size) ==>
                PageByte(V(), q, i) == PageByte(old(V()), q, i)
    {
      WithoutBytes(V(), key, size);
      DropFrom(key, AlignUp(size));
      forall q | q in old(table) ensures q in table <==> q.key != key || q.off < size {
        AlignUpCuts(size, q.off);
      }
    }

    /** One page of an inode that has just been removed from its shard; `mid` still has the pages to come. */
    method ReleasePage(r: Record, e: Entry, ghost mid: Table)
      requires Owned(V().(table := mid), refs) && globalDirty == |DirtySet(mid)| && r in mid && mid[r] == e
      modifies this`globalDirty, this`refs
      ensures Owned(V().(table := mid - {r}), refs) && globalDirty == |DirtySet(mid - {r})|
      ensures PhysOf(mid, r) in old(refs) && refs == Release(old(refs), PhysOf(mid, r))
    {
      DirtySetApply(mid, r, None);
      if e.dirty {
        globalDirty := globalDirty - 1;
      }
      DropOwned(V().(table := mid), refs, r);
      forall q | q in mid - {r} ensures PhysOf(mid - {r}, q) != e.phys {
        assert PhysOf(mid - {r}, q) == PhysOf(mid, q) != PhysOf(mid, r);
      }
      FreeOwned(V().(table := mid - {r}), refs, e.phys);
      refs := Release(refs, e.phys);
    }

    /** The cached pages of an inode. */
    method PagesOf(key: Key) returns (pages: map<nat, Entry>)
      requires Accounted(shards, table, globalDirty)
      ensures Remaining(pages.Keys, table, key, 0) && forall o :: o in pages ==> table[Record(key, o)] == pages[o]
    {
      pages := State(shards, key).pages;
      forall o: nat ensures o in pages <==> Record(key, o) in table {
        assert Record(key, o) in table <==> Cached(shards, Record(key, o));
      }
      forall o | o in pages ensures table[Record(key, o)] == pages[o] {
        assert Cached(shards, Record(key, o));
      }
    }

    /** Take an inode out of its shard; the global counter still counts its dirty pages. */
    method Forget(key: Key)
      requires Accounted(shards, table, globalDirty)
      modifies this`shards, this`table
      ensures table == Without(old(table), key, 0) && Accounted(shards, table, |DirtySet(table)|)
    {
      ForgetAccounted(shards, table, globalDirty, key);
      shards := SetState(shards, key, InodeState(map[], 0));
      table := Without(table, key, 0);
    }

    /** Count and release the pages of an inode that is no longer in its shard. */
    method ReleaseAll(key: Key, pages: map<nat, Entry>, ghost t0: Table)
      requires Owned(V().(table := t0), refs) && globalDirty == |DirtySet(t0)|
      requires Remaining(pages.Keys, t0, key, 0) && forall o :: o in pages ==> t0[Record(key, o)] == pages[o]
      modifies this`globalDirty, this`refs
      ensures globalDirty == |DirtySet(Without(t0, key, 0))|
      ensures Owned(V().(table := Without(t0, key, 0)), refs) && Released(t0, Without(t0, key, 0), old(refs), refs)
    {
      var todo := pages.Keys;
      ghost var mid := t0;
      while todo != {}
        invariant Owned(V().(table := mid), refs) && globalDirty == |DirtySet(mid)|
        invariant Released(t0, mid, old(refs), refs)
        invariant todo <= pages.Keys && Between(Without(t0, key, 0), mid, t0) && Remaining(todo, mid, key, 0)
        decreases todo
      {
        var o :| o in todo;
        ghost var before, r := refs, Record(key, o);
        assert r in mid && PhysOf(mid, r) == PhysOf(t0, r);
        ReleasePage(Record(key, o), pages[o], mid);
        ReleasedStep(t0, mid, old(refs), before, r);
        BetweenDrop(Without(t0, key, 0), mid, t0, r);
        RemainingDrop(todo, mid, key, 0, o);
        mid := mid - {r};
        todo := todo - {o};
      }
      BetweenDone(t0, mid, key, 0);
    }

    /** `page_cache_invalidate_inode`. */
    method InvalidateInode(key: Key)
      requires Valid()
      modifies this`shards, this`globalDirty, this`table, this`refs
      ensures Valid() && (old(Clean()) ==> Clean()) && Released(old(table), table, old(refs), refs)
      ensures forall q :: q in table <==> q in old(table) && q.key != key
      ensures forall q :: q in table ==> table[q] == old(table)[q]
    {
      ghost var t0 := table;
      if Clean() {
        FewerConsistent(V(), Without(table, key, 0), {});
      }
      var pages := PagesOf(key);
      Forget(key);
      ReleaseAll(key, pages, t0);
    }

    /** The record at the front of a shard's clock, and its page if that is still cached. */
    method Front(s: nat) returns (r: Record, e: Option<Entry>)
      requires Accounted(shards, table, globalDirty) && s < SHARDS && shards[s].clock != []
      ensures r == shards[s].clock[0]
      ensures e.Some? ==> r in table && table[r] == e.value && ShardIndex(r.key) == s
      ensures e.None? ==> r !in table || ShardIndex(r.key) != s
    {
      r := shards[s].clock[0];
      var inodes := shards[s].inodes;
      assert Holding(shards, s, r.key) <==> r.key in inodes;
      assert r in table <==> Cached(shards, r);
      return r, if r.key in inodes && r.off in inodes[r.key].pages then Some(inodes[r.key].pages[r.off]) else None;
    }

    /** Move the front record of a clock to its back, or forget it when its page is not cached. */
    method Turn(s: nat, keep: bool)
      requires Accounted(shards, table, globalDirty) && s < SHARDS && shards[s].clock != []
      requires keep || shards[s].clock[0] !in table || ShardIndex(shards[s].clock[0].key) != s
      modifies this`shards
      ensures Accounted(shards, table, globalDirty)
      ensures shards[s].clock == if keep then old(shards)[s].clock[1..] + [old(shards)[s].clock[0]]
                                 else old(shards)[s].clock[1..]
    {
      var clock := shards[s].clock;
      var next := if keep then clock[1..] + [clock[0]] else clock[1..];
      forall q | q in table && ShardIndex(q.key) == s ensures q in next {
        assert q in Clock(shards, q.key);
        assert q == clock[0] || q in clock[1..];
      }
      SetClockAccounted(shards, table, globalDirty, s, next);
      shards := SetClock(shards, s, next);
    }

    /** Evict the page of the front record, if it is clean, unreferenced and not mapped anywhere. */
    method EvictStep(s: nat) returns (evicted: bool, ghost gone: set<Record>)
      requires Valid() && s < SHARDS && shards[s].clock != []
      modifies this`shards, this`globalDirty, this`table, this`refs
      ensures Valid() && |gone| == if evicted then 1 else 0
      ensures forall q :: q in gone ==> q in old(table) && !old(table)[q].referenced
      ensures Passed(old(table), old(refs), table, refs, s, old(shards)[s].clock, shards[s].clock, gone)
      // what happens to the front record and its page
      ensures Stepped(old(table), old(refs), table, s, old(shards)[s].clock, shards[s].clock, evicted)
      ensures Released(old(table), table, old(refs), refs)
    {
      EvictNone(table, refs);
      ReleasedNone(table, table, refs);
      var r, hit := Front(s);
      if hit.None? {
        Turn(s, false);
        return false, {};
      }
      var e := hit.value;
      var count := if e.phys in refs then refs[e.phys] else 2;
      if e.dirty || count > 1 {
        Turn(s, true);
        return false, {};
      }
      if e.referenced {
        EvictRest(table, refs, r);
        ReleasedNone(table, table[r := e.(referenced := false)], refs);
        Turn(s, true);
        SetFlags(r, e.(referenced := false));
        return false, {};
      }
      EvictFront(s, r);
      return true, {r};
    }

    /** The front page is clean, unreferenced and not mapped: it goes. */
    method EvictFront(s: nat, r: Record)
      requires Valid() && s < SHARDS && shards[s].clock != [] && r == shards[s].clock[0] && ShardIndex(r.key) == s
      requires r in table && !table[r].dirty && table[r].phys in refs && refs[table[r].phys] <= 1
      modifies this`shards, this`globalDirty, this`table, this`refs
      ensures Valid() && Evicted(old(table), old(refs), table, refs, {r})
      ensures shards[s].clock == old(shards)[s].clock[1..]
      ensures table == old(table) - {r} && Released(old(table), table, old(refs), refs)
    {
      EvictKeeps(table, refs, r);
      ReleasedNone(table, table, refs);
      assert PhysOf(table, r) in refs && refs[PhysOf(table, r)] >= 1;
      ReleasedStep(table, table, refs, refs, r);
      DropFreed(r);
      Turn(s, false);
    }

    /** One step of a shard's clock, as a part of an eviction that began with `t0` and `refs0`. */
    method EvictTurn(s: nat, ghost t0: Table, ghost refs0: map<nat, nat>, ghost gone: set<Record>, ghost hand: Hand,
                     ghost left: int)
      returns (one: bool, ghost gone': set<Record>, ghost hand': Hand)
      requires Valid() && s < SHARDS && shards[s].clock != [] && Unshared(t0)
      requires Evicted(t0, refs0, table, refs, gone) && Released(t0, table, refs0, refs)
      requires Turning(table, refs, s, shards[s].clock, hand, left)
      modifies this`shards, this`globalDirty, this`table, this`refs
      ensures Valid() && Evicted(t0, refs0, table, refs, gone') && Released(t0, table, refs0, refs)
      ensures |gone'| == |gone| + (if one then 1 else 0) && Turning(table, refs, s, shards[s].clock, hand', left - 1)
    {
      ghost var t, c, clock := table, refs, shards[s].clock;
      ghost var now;
      one, now := EvictStep(s);
      EvictedReleased(t0, refs0, t, c, table, refs, gone, now);
      EvictedTrans(t0, refs0, t, c, table, refs, gone, now);
      hand' := HandMoves(t, c, table, refs, s, clock, shards[s].clock, now, hand, left);
      gone' := gone + now;
    }

    /** One shard's part of an eviction: at most two turns of its clock. */
    method EvictShard(s: nat, target: nat) returns (evicted: nat, ghost gone: set<Record>)
      requires Valid() && s < SHARDS
      modifies this`shards, this`globalDirty, this`table, this`refs
      ensures Valid() && Evicted(old(table), old(refs), table, refs, gone) && evicted == |gone| <= target
      ensures evicted < target ==> forall q :: !Spare(table, refs, s, q)
      ensures Released(old(table), table, old(refs), refs)
    {
      ReleasedNone(table, table, refs);
      var maxCheck, checked := |shards[s].clock| * 2, 0;
      evicted, gone := 0, {};
      ghost var hand := First(shards[s].clock, []);
      while checked < maxCheck && evicted < target
        invariant Valid() && Evicted(old(table), old(refs), table, refs, gone) && evicted == |gone| <= target
        invariant Released(old(table), table, old(refs), refs)
        invariant checked <= maxCheck && Turning(table, refs, s, shards[s].clock, hand, maxCheck - checked)
        decreases maxCheck - checked
      {
        checked := checked + 1;
        if shards[s].clock == [] {
          break;
        }
        var one;
        one, gone, hand := EvictTurn(s, old(table), old(refs), gone, hand, maxCheck - checked + 1);
        if one {
          evicted := evicted + 1;
        }
      }
      if evicted < target {
        TwoTurns(shards, table, refs, globalDirty, s, hand, maxCheck - checked);
      }
    }

    /** All shards in turn, until enough pages have gone. */
    method EvictShards(target: nat) returns (evicted: nat, ghost gone: set<Record>)
      requires Valid()
      modifies this`shards, this`globalDirty, this`table, this`refs
      ensures Valid() && Evicted(old(table), old(refs), table, refs, gone) && evicted == |gone| <= target
      ensures evicted < target ==> forall q: Record :: !Spare(table, refs, ShardIndex(q.key), q)
      ensures Released(old(table), table, old(refs), refs)
    {
      evicted, gone := 0, {};
      ReleasedNone(table, table, refs);
      var s := 0;
      while s < SHARDS
        invariant 0 <= s <= SHARDS && Valid()
        invariant Evicted(old(table), old(refs), table, refs, gone) && evicted == |gone| <= target
        invariant evicted < target ==> SparedTo(table, refs, s)
        invariant Released(old(table), table, old(refs), refs)
      {
        ghost var t, c := table, refs;
        var more;
        ghost var now;
        more, now := EvictShard(s, target - evicted);
        EvictedReleased(old(table), old(refs), t, c, table, refs, gone, now);
        EvictedTrans(old(table), old(refs), t, c, table, refs, gone, now);
        gone, evicted := gone + now, evicted + more;
        if evicted >= target {
          break;
        }
        SparedNext(t, c, table, refs, now, s);
        s := s + 1;
      }
    }

    /** `page_cache_evict_clean_pages`: readers notice nothing exactly if what goes is what the disk holds. */
    method EvictCleanPages(target: nat) returns (evicted: nat, ghost gone: set<Record>)
      requires Valid()
      modifies this`shards, this`globalDirty, this`table, this`refs
      ensures Valid() && Trimmed(old(V()), V(), {})
      ensures SameFiles(old(V()), V()) <==>
                forall q :: q in gone ==> q in old(table) && Agrees(old(V()), q, old(table)[q].phys)
      ensures old(Clean()) ==> Clean() && SameFiles(old(V()), V())
      ensures Evicted(old(table), old(refs), table, refs, gone) && evicted == |gone| <= target
      // fewer than asked for only when there is nothing left to evict
      ensures evicted < target ==> forall q: Record :: !Spare(table, refs, ShardIndex(q.key), q)
      ensures KeptPrivate(old(V()), old(refs), V(), refs, {})
    {
      evicted, gone := EvictShards(target);
      EvictedShows(old(V()), old(refs), V(), refs, gone);
    }

    /** The caller has this frame to itself. */
    ghost predicate Private(phys: nat)
      reads this
    {
      PrivateIn(V(), refs, phys)
    }

    /** `allocate_frame`: any frame without references, or none. */
    method AllocateFrame() returns (phys: Option<nat>)
      requires Valid()
      modifies this`refs
      ensures Valid() && KeptPrivate(old(V()), old(refs), V(), refs, {})
      ensures if phys.Some? then
                && Private(phys.value) && !old(Private(phys.value))
                && phys.value in old(refs) && old(refs)[phys.value] == 0 && refs == old(refs)[phys.value := 1]
              else refs == old(refs)
      ensures !faulty && HasFree(frames, old(refs)) ==> phys.Some?
    {
      var fails := *;
      if faulty && fails {
        return None;
      }
      if p :| p in frames && p in refs && refs[p] == 0 {
        ClaimOwned(V(), refs, p);
        KeptClaim(V(), refs, p);
        refs := refs[p := 1];
        return Some(p);
      }
      return None;
    }

    /** Allocate a frame, after evicting clean pages if that fails at first. */
    method ObtainFrame() returns (phys: Option<nat>)
      requires Valid()
      modifies this`shards, this`globalDirty, this`table, this`refs
      ensures Valid() && Trimmed(old(V()), V(), {}) && KeptPrivate(old(V()), old(refs), V(), refs, {})
      ensures phys.Some? ==> Private(phys.value) && !old(Private(phys.value)) && refs[phys.value] == 1
      ensures !faulty && HasFree(frames, old(refs)) ==>
                phys.Some? && table == old(table) && phys.value in old(refs) && refs == old(refs)[phys.value := 1]
      ensures Spent(old(table), table, old(refs), refs, phys)
      ensures phys.None? && !faulty ==> !HasFree(frames, refs)
    {
      phys := AllocateFrame();
      ReleasedNone(old(table), table, old(refs));
      if phys.None? {
        var n;
        ghost var gone;
        n, gone := EvictShards(32);
        EvictedShows(old(V()), old(refs), V(), refs, gone);
        ghost var v, c := V(), refs;
        phys := AllocateFrame();
        KeptTrans(old(V()), old(refs), v, c, V(), refs, {}, {});
        if phys.Some? {
          SpentClaim(old(table), table, old(refs), c, phys.value);
        }
      } else {
        SpentClaim(old(table), table, old(refs), old(refs), phys.value);
      }
    }

    /** Put `data` into a private frame. */
    method StoreFrame(phys: nat, data: seq<byte>)
      requires Valid() && Private(phys) && |data| == PAGE
      modifies this`frames
      ensures Valid() && Private(phys) && Trimmed(old(V()), V(), {}) && frames == old(frames)[phys := data]
      ensures KeptPrivate(old(V()), refs, V(), refs, {phys})
    {
      StoreKeeps(V(), refs, phys, data);
      KeptStore(V(), refs, phys, data);
      frames := frames[phys := data];
    }

    /**
     * The last step of a fill: insert the frame, clean, unless the page has been
     * cached meanwhile. Every file stays as it was exactly if it has been, or the
     * frame still holds what the disk holds.
     */
    method CommitFill(r: Record, phys: nat) returns (res: Result<nat, Errno>)
      requires Valid() && r.off % PAGE == 0 && Private(phys)
      modifies this`shards, this`globalDirty, this`table, this`refs
      ensures Valid() && KeptPrivate(old(V()), old(refs), V(), refs, {phys})
      ensures SameFiles(old(V()), V()) <==> r in old(table) || Agrees(old(V()), r, phys)
      ensures res.Ok? && r in table && table[r].phys == res.value
      ensures r in old(table) ==> phys in old(refs) && refs == Release(old(refs), phys)
      ensures if r in old(table) then table == old(table)[r := old(table)[r].(referenced := true)]
              else res.value == phys && table == old(table)[r := Entry(phys, false, true)] && refs == old(refs)
    {
      var hit := Lookup(r);
      if hit.Some? {
        KeepFirst(r, phys, hit.value.(referenced := true));
        return Ok(hit.value.phys);
      }
      InsertShows(V(), r, Entry(phys, false, true));
      AddPrivate(r, Entry(phys, false, true));
      return Ok(phys);
    }

    /** A page that is not cached comes in with a private frame. */
    method AddPrivate(r: Record, e: Entry)
      requires Valid() && r.off % PAGE == 0 && Private(e.phys) && r !in table
      modifies this`shards, this`globalDirty, this`table
      ensures Valid() && table == old(table)[r := e] && KeptPrivate(old(V()), refs, V(), refs, {e.phys})
    {
      PutOwned(V(), refs, r, e);
      KeptPut(V(), refs, r, e);
      AddPage(r, e);
    }

    /** The page is cached already: its flags become those of `e`, and the new frame is given back. */
    method KeepFirst(r: Record, phys: nat, e: Entry)
      requires Valid() && Private(phys) && r in table && e.phys == table[r].phys && (table[r].dirty ==> e.dirty)
      modifies this`shards, this`globalDirty, this`table, this`refs
      ensures Valid() && SameFiles(old(V()), V()) && KeptPrivate(old(V()), old(refs), V(), refs, {phys})
      ensures table == old(table)[r := e] && Trimmed(old(V()), V(), {})
      ensures phys in old(refs) && refs == Release(old(refs), phys)
    {
      KeptReturn(V(), refs, r, e, phys);
      SetFlags(r, e);
      Free(phys);
    }

    /** Read a page into a private frame. */
    method ReadInto(r: Record, phys: nat) returns (ok: bool)
      requires Valid() && Private(phys)
      modifies this`frames
      ensures Valid() && Private(phys) && Trimmed(old(V()), V(), {}) && KeptPrivate(old(V()), refs, V(), refs, {phys})
      ensures (ok ==> Copied(frames, phys, disk, r)) && (!faulty ==> ok)
    {
      var data := ReadPage(DiskFile(disk, r.key), r.off, frames[phys], faulty);
      if data.Err? {
        return false;
      }
      StoreFrame(phys, data.value);
      return true;
    }

    /** The first half of a miss: a frame that holds the page as it is on disk now. */
    method ReadFrame(r: Record) returns (res: Result<nat, Errno>)
      requires Valid()
      modifies this`shards, this`globalDirty, this`table, this`refs, this`frames
      ensures Valid() && Trimmed(old(V()), V(), {}) && KeptPrivate(old(V()), old(refs), V(), refs, {})
      ensures res.Ok? ==>
                && Private(res.value) && !old(Private(res.value)) && refs[res.value] == 1
                && Copied(frames, res.value, disk, r)
      ensures !faulty && HasFree(old(frames), old(refs)) ==>
                res.Ok? && table == old(table) && res.value in old(refs) && refs == old(refs)[res.value := 1]
      ensures Spent(old(table), table, old(refs), refs, if res.Ok? then Some(res.value) else None)
      ensures res.Err? && !faulty ==> res.error == ENOMEM && !HasFree(frames, refs)
    {
      var frame := ObtainFrame();
      if frame.None? {
        return Err(ENOMEM);
      }
      ghost var v, c := V(), refs;
      var ok := ReadInto(r, frame.value);
      TrimmedTrans(old(V()), v, V(), {});
      KeptTrans(old(V()), old(refs), v, c, V(), refs, {}, {frame.value});
      KeptDrop(old(V()), old(refs), V(), refs, frame.value);
      if !ok {
        KeptFree(V(), refs, frame.value);
        KeptTrans(old(V()), old(refs), V(), refs, V(), Release(refs, frame.value), {}, {frame.value});
        KeptDrop(old(V()), old(refs), V(), Release(refs, frame.value), frame.value);
        SpentBack(old(table), table, old(refs), refs, frame.value);
        Free(frame.value);
        return Err(EIO);
      }
      return Ok(frame.value);
    }

    /** A miss, when nothing comes between the read and the commit. */
    method FillPage(r: Record) returns (res: Result<nat, Errno>)
      requires Valid() && r.off % PAGE == 0 && r !in table
      modifies this`shards, this`globalDirty, this`table, this`refs, this`frames
      ensures Valid() && KeptPrivate(old(V()), old(refs), V(), refs, {})
      ensures if res.Err? then Trimmed(old(V()), V(), {}) && Released(old(table), table, old(refs), refs)
              else Trimmed(old(V()), V(), {r}) && r in table && Agrees(V(), r, res.value)
      ensures res.Ok? ==> r in table && table[r] == Entry(res.value, false, true)
      ensures res.Err? && !faulty ==> res.error == ENOMEM && !HasFree(frames, refs)
      ensures !faulty && HasFree(old(frames), old(refs)) ==> res.Ok? && Took(old(table), old(refs), table, refs, r)
    {
      var frame := ReadFrame(r);
      if frame.Err? {
        return Err(frame.error);
      }
      ghost var v, c := V(), refs;
      CopyAgrees(v, r, frame.value, disk);
      res := CommitFill(r, frame.value);
      TrimmedAdd(old(V()), v, r, Entry(frame.value, false, true));
      KeptTrans(old(V()), old(refs), v, c, V(), refs, {}, {frame.value});
      KeptDrop(old(V()), old(refs), V(), refs, frame.value);
    }

    /** A page, from the cache or from disk, when nothing comes between the read and the commit. */
    method GetPage(r: Record) returns (res: Result<nat, Errno>)
      requires Valid() && r.off % PAGE == 0
      modifies this`shards, this`globalDirty, this`table, this`refs, this`frames
      ensures Valid() && KeptPrivate(old(V()), old(refs), V(), refs, {})
      ensures if r in old(table) || res.Err? then Trimmed(old(V()), V(), {})
              else Trimmed(old(V()), V(), {r}) && r in table && Agrees(V(), r, res.value)
      ensures r in old(table) ==>
                && res == Ok(old(table)[r].phys) && refs == old(refs) && frames == old(frames)
                && table == old(table)[r := old(table)[r].(referenced := true)]
      ensures res.Ok? ==> r in table && table[r].phys == res.value && table[r].referenced
      ensures res.Ok? && r !in old(table) ==> !table[r].dirty
      ensures res.Err? ==> Released(old(table), table, old(refs), refs)
      ensures res.Err? && !faulty ==> res.error == ENOMEM && !HasFree(frames, refs)
      ensures !faulty && HasFree(old(frames), old(refs)) && r !in old(table) ==>
                res.Ok? && Took(old(table), old(refs), table, refs, r)
    {
      var hit := Get(r);
      if hit.Some? {
        return Ok(hit.value.phys);
      }
      res := FillPage(r);
    }

    /** `get_or_create_page_inner`, when nothing comes between the read and the commit. */
    method GetOrCreatePage(key: Key, offset: nat) returns (res: Result<nat, Errno>)
      requires Valid()
      modifies this`shards, this`globalDirty, this`table, this`refs, this`frames
      ensures Valid() && KeptPrivate(old(V()), old(refs), V(), refs, {})
      ensures SameFiles(old(V()), V()) <==> Safe(old(V()), V())
      ensures old(Clean()) ==> Clean() && SameFiles(old(V()), V())
      ensures res.Ok? ==> Aligned(key, offset) in table && table[Aligned(key, offset)].phys == res.value
    {
      var r := Aligned(key, offset);
      res := GetPage(r);
      ghost var found := r in old(table) || res.Err?;
      ReadyShows(old(V()), V(), old(refs), r, found);
      if old(Clean()) {
        ReadyClean(old(V()), V(), r, found);
      }
    }

    /** The first half of `get_or_create_page_inner`: a hit, or fill `id` has read its page. */
    method BeginFill(id: nat, r: Record) returns (ok: bool)
      requires Valid() && InFlight() && id !in fills && r.off % PAGE == 0
      modifies this`shards, this`globalDirty, this`table, this`refs, this`frames, this`fills, this`origins
      ensures Valid() && InFlight() && Trimmed(old(V()), V(), {})
      ensures if ok && r !in old(table) then Started(old(fills), old(origins), id, r) else fills == old(fills)
      ensures r in old(table) ==> ok
      ensures !faulty && HasFree(old(frames), old(refs)) && r !in old(table) ==>
                && Started(old(fills), old(origins), id, r) && table == old(table)
                && fills[id].phys in old(refs) && refs == old(refs)[fills[id].phys := 1]
    {
      var hit := Get(r);
      FlyingKept(old(V()), refs, V(), refs, {}, fills, origins);
      if hit.Some? {
        return true;
      }
      ok := StartFill(id, r);
    }

    /** Fill `id` of page `r` has been read from the disk as it is now. */
    ghost predicate Started(fills0: map<nat, Fill>, origins0: map<nat, map<Key, seq<byte>>>, id: nat, r: Record)
      reads this
    {
      id in fills && fills == fills0[id := Fill(r, fills[id].phys)] && origins == origins0[id := disk]
    }

    method StartFill(id: nat, r: Record) returns (ok: bool)
      requires Valid() && InFlight() && id !in fills && r.off % PAGE == 0
      modifies this`shards, this`globalDirty, this`table, this`refs, this`frames, this`fills, this`origins
      ensures Valid() && InFlight() && Trimmed(old(V()), V(), {})
      ensures if ok then Started(old(fills), old(origins), id, r) else fills == old(fills)
      ensures !ok ==> Released(old(table), table, old(refs), refs)
      ensures !ok && !faulty ==> !HasFree(frames, refs)
      ensures !faulty && HasFree(old(frames), old(refs)) ==>
                && Started(old(fills), old(origins), id, r) && table == old(table)
                && fills[id].phys in old(refs) && refs == old(refs)[fills[id].phys := 1]
    {
      var frame := ReadFrame(r);
      FlyingKept(old(V()), old(refs), V(), refs, {}, fills, origins);
      if frame.Err? {
        return false;
      }
      NotFlying(old(V()), old(refs), fills, origins, frame.value);
      Track(id, Fill(r, frame.value));
      return true;
    }

    method Track(id: nat, f: Fill)
      requires Valid() && InFlight() && id !in fills && f.r.off % PAGE == 0
      requires Private(f.phys) && Copied(frames, f.phys, disk, f.r)
      requires forall a :: a in fills ==> fills[a].phys != f.phys
      modifies this`fills, this`origins
      ensures Valid() && InFlight() && fills == old(fills)[id := f] && origins == old(origins)[id := disk]
    {
      FlyingMore(V(), refs, fills, origins, id, f, disk);
      fills, origins := fills[id := f], origins[id := disk];
    }

    /**
     * The second half, after any other operations: every file stays as it was
     * exactly if the page has been cached meanwhile, or the disk still holds the
     * bytes of the page, below the size of the file, that it held at the read.
     */
    method EndFill(id: nat)
      requires Valid() && InFlight() && id in fills
      modifies this`shards, this`globalDirty, this`table, this`refs, this`fills
      ensures Valid() && InFlight() && fills == old(fills) - {id} && id in old(origins)
      ensures SameFiles(old(V()), V()) <==> Unchanged(old(M()), id)
      ensures var f := old(fills)[id];
              table == old(table)[f.r := if f.r in old(table) then old(table)[f.r].(referenced := true)
                                         else Entry(f.phys, false, true)]
      ensures var f := old(fills)[id];
              if f.r in old(table) then f.phys in old(refs) && refs == Release(old(refs), f.phys) else refs == old(refs)
    {
      var f := fills[id];
      FillUnchanged(M(), id);
      var _ := CommitFill(f.r, f.phys);
      FlyingLess(old(V()), old(refs), V(), refs, fills, origins, id);
      Forgo(id);
    }

    method Forgo(id: nat)
      requires Valid() && Flying(V(), refs, fills - {id}, origins) && AllFit(frames, flushes)
      modifies this`fills
      ensures Valid() && InFlight() && fills == old(fills) - {id}
    {
      fills := fills - {id};
    }

    /** Insert a frame as a dirty page, or mark the page dirty if it has been cached meanwhile. */
    method CommitDirty(r: Record, phys: nat) returns (res: Result<nat, Errno>)
      requires Valid() && r.off % PAGE == 0 && Private(phys)
      modifies this`shards, this`globalDirty, this`table, this`refs
      ensures Valid() && KeptPrivate(old(V()), old(refs), V(), refs, {phys})
      ensures SameFiles(old(V()), V()) <==> r in old(table) || Agrees(old(V()), r, phys)
      ensures res.Ok? && r in table && table[r].phys == res.value
      ensures r in old(table) ==> phys in old(refs) && refs == Release(old(refs), phys)
      ensures if r in old(table) then table == old(table)[r := old(table)[r].(dirty := true, referenced := true)]
              else res.value == phys && table == old(table)[r := Entry(phys, true, true)] && refs == old(refs)
    {
      var hit := Lookup(r);
      if hit.Some? {
        KeepFirst(r, phys, hit.value.(dirty := true, referenced := true));
        return Ok(hit.value.phys);
      }
      InsertShows(V(), r, Entry(phys, true, true));
      AddPrivate(r, Entry(phys, true, true));
      return Ok(phys);
    }

    /** A new dirty page that is not read from disk; zeroed unless the caller overwrites all of it. */
    method FreshPage(r: Record, fullPage: bool) returns (res: Result<nat, Errno>)
      requires Valid() && r.off % PAGE == 0
      modifies this`shards, this`globalDirty, this`table, this`refs, this`frames
      ensures Valid() && KeptPrivate(old(V()), old(refs), V(), refs, {})
      ensures Trimmed(old(V()), V(), if res.Err? then {} else {r})
      ensures res.Ok? ==> r in table && table[r].dirty && table[r].referenced && table[r].phys == res.value
      ensures res.Err? ==> res.error == ENOMEM && Released(old(table), table, old(refs), refs)
      ensures res.Err? && !faulty ==> !HasFree(frames, refs)
      ensures res.Ok? && !fullPage && r !in old(table) ==> res.value in frames && frames[res.value] == Zeros(PAGE)
    {
      var frame := ObtainFrame();
      if frame.None? {
        return Err(ENOMEM);
      }
      if !fullPage {
        ghost var v, c := V(), refs;
        StoreFrame(frame.value, Zeros(PAGE));
        TrimmedTrans(old(V()), v, V(), {});
        KeptTrans(old(V()), old(refs), v, c, V(), refs, {}, {frame.value});
        KeptDrop(old(V()), old(refs), V(), refs, frame.value);
      }
      ghost var w, c := V(), refs;
      res := CommitDirty(r, frame.value);
      TrimmedAdd(old(V()), w, r, table[r]);
      KeptTrans(old(V()), old(refs), w, c, V(), refs, {}, {frame.value});
      KeptDrop(old(V()), old(refs), V(), refs, frame.value);
    }

    /** `get_or_create_page_for_write`, for an aligned offset. */
    method PageForWrite(r: Record, skipRead: bool, fullPage: bool) returns (res: Result<nat, Errno>)
      requires Valid() && r.off % PAGE == 0
      modifies this`shards, this`globalDirty, this`table, this`refs, this`frames
      ensures Valid() && KeptPrivate(old(V()), old(refs), V(), refs, {})
      ensures if r in old(table) || res.Err? then Trimmed(old(V()), V(), {})
              else
                && Trimmed(old(V()), V(), {r}) && r in table
                && (!skipRead && r.off < Size(V(), r.key) ==> Agrees(V(), r, res.value))
      ensures res.Ok? ==> r in table && table[r].dirty && table[r].referenced && table[r].phys == res.value
      ensures r in old(table) ==>
                && res == Ok(old(table)[r].phys) && refs == old(refs) && frames == old(frames)
                && table == old(table)[r := old(table)[r].(dirty := true, referenced := true)]
      ensures res.Err? ==> Released(old(table), table, old(refs), refs)
      ensures res.Err? && !faulty ==> res.error == ENOMEM && !HasFree(frames, refs)
      // a page that was neither cached nor read starts as zeros, unless the caller overwrites all of it
      ensures res.Ok? && (skipRead || Size(V(), r.key) <= r.off) && !fullPage && r !in old(table) ==>
                res.value in frames && frames[res.value] == Zeros(PAGE)
      ensures !faulty && HasFree(old(frames), old(refs)) && r !in old(table) && !skipRead
              && r.off < Size(V(), r.key) ==>
                res.Ok? && Took(old(table), old(refs), table, refs, r)
    {
      var hit := Lookup(r);
      if hit.Some? {
        SetFlags(r, hit.value.(dirty := true, referenced := true));
        return Ok(hit.value.phys);
      }
      var fileSize := if r.key in sizes then sizes[r.key] else 0;
      if skipRead || fileSize <= r.off {
        res := FreshPage(r, fullPage);
      } else {
        res := ReadForWrite(r);
      }
    }

    /** A page that is read before it is written. */
    method ReadForWrite(r: Record) returns (res: Result<nat, Errno>)
      requires Valid() && r.off % PAGE == 0 && r !in table
      modifies this`shards, this`globalDirty, this`table, this`refs, this`frames
      ensures Valid() && KeptPrivate(old(V()), old(refs), V(), refs, {})
      ensures if res.Err? then Trimmed(old(V()), V(), {})
              else Trimmed(old(V()), V(), {r}) && r in table && Agrees(V(), r, res.value)
      ensures res.Ok? ==> r in table && table[r].dirty && table[r].referenced && table[r].phys == res.value
      ensures res.Err? ==> Released(old(table), table, old(refs), refs)
      ensures res.Err? && !faulty ==> res.error == ENOMEM && !HasFree(frames, refs)
      ensures !faulty && HasFree(old(frames), old(refs)) ==> res.Ok? && Took(old(table), old(refs), table, refs, r)
    {
      res := GetPage(r);
      if res.Ok? {
        ghost var v, c := V(), refs;
        MarkDirty(r);
        TrimmedMore(v, V(), {}, {r});
        TrimmedTrans(old(V()), v, V(), {r});
        KeptTrans(old(V()), old(refs), v, c, V(), refs, {}, {});
      }
    }

    /** `get_or_create_page_for_write`. */
    method GetOrCreateForWrite(key: Key, offset: nat, skipRead: bool, fullPage: bool) returns (res: Result<nat, Errno>)
      requires Valid()
      modifies this`shards, this`globalDirty, this`table, this`refs, this`frames
      ensures Valid() && KeptPrivate(old(V()), old(refs), V(), refs, {})
      ensures var r := Aligned(key, offset);
              && (r in old(table) || res.Err? || (!skipRead && r.off < Size(V(), key)) || Size(V(), key) <= r.off ==>
                    (SameFiles(old(V()), V()) <==> Safe(old(V()), V())))
              && (Safe(old(V()), V()) ==> SameElsewhere(old(V()), V(), r))
              && (res.Ok? ==> r in table && table[r].dirty && table[r].phys == res.value)
    {
      var r := Aligned(key, offset);
      res := PageForWrite(r, skipRead, fullPage);
      ReadyShows(old(V()), V(), old(refs), r, r in old(table) || res.Err?);
    }

    /** The copy of user bytes into the frame of a cached page. */
    method StoreBytes(r: Record, at: nat, data: seq<byte>)
      requires Valid() && r in table && at + |data| <= PAGE
      modifies this`frames
      ensures Valid() && Trimmed(old(V()), V(), {r}) && KeptPrivate(old(V()), refs, V(), refs, {})
      ensures forall i: nat :: i < PAGE ==>
                PageByte(V(), r, i) == if at <= i < at + |data| then data[i - at] else PageByte(old(V()), r, i)
    {
      var hit := Lookup(r);
      var phys := hit.value.phys;
      StorePage(V(), refs, r, WriteAt(frames[phys], at, data));
      KeptStore(V(), refs, phys, WriteAt(frames[phys], at, data));
      assert PhysOf(table, r) == phys && !Private(phys);
      frames := frames[phys := WriteAt(frames[phys], at, data)];
      KeptDrop(old(V()), refs, V(), refs, phys);
    }

    /** One page of `write_page_cache`, inside the file: the page is made ready and the bytes are copied in. */
    method WritePage(r: Record, at: nat, data: seq<byte>) returns (ok: bool)
      requires Valid() && r.off % PAGE == 0 && at + |data| <= PAGE && r.off + at + |data| <= Size(V(), r.key)
      modifies this`shards, this`globalDirty, this`table, this`refs, this`frames
      ensures Valid() && KeptPrivate(old(V()), old(refs), V(), refs, {})
      ensures if ok then Trimmed(old(V()), V(), {r}) && r in table && table[r].dirty else Trimmed(old(V()), V(), {})
      ensures if ok then Wrote(old(V()), V(), r, at, data) <==> Safe(old(V()), V())
              else SameFiles(old(V()), V()) <==> Safe(old(V()), V())
      ensures ok ==> WroteHere(old(V()), V(), r, at, data)
      ensures !faulty && HasFree(old(frames), old(refs)) && r !in old(table) && 0 < |data| < PAGE ==>
                ok && Took(old(table), old(refs), table, refs, r)
    {
      var full := |data| == PAGE;
      var page := PageForWrite(r, full, full);
      if page.Err? {
        TrimmedFiles(old(V()), V(), old(refs));
        return false;
      }
      ghost var v, c := V(), refs;
      StoreBytes(r, at, data);
      ReadyWrote(old(V()), v, V(), r, at, data, r in old(table));
      TrimmedWrote(old(V()), V(), old(refs), r, at, data);
      KeptTrans(old(V()), old(refs), v, c, V(), refs, {}, {});
      return true;
    }

    /** `write_direct`: all of `data`, or an error that leaves the bytes it covers in any state. */
    method WriteDirect(key: Key, at: nat, data: seq<byte>) returns (ok: bool)
      modifies this`disk
      ensures OtherFiles(old(disk), disk, key) && (!faulty ==> ok)
      ensures ok ==> DiskFile(disk, key) == WriteAt(DiskFile(old(disk), key), at, data)
      ensures forall i: nat :: !(at <= i < at + |data|) ==>
                ByteAt(DiskFile(disk, key), i) == ByteAt(DiskFile(old(disk), key), i)
    {
      var file := DiskFile(disk, key);
      var works := *;
      if !faulty || works {
        disk := disk[key := WriteAt(file, at, data)];
        return true;
      }
      assert |data[..0]| <= |data|;
      var junk: seq<byte> :| |junk| <= |data|;
      disk := disk[key := WriteAt(file, at, junk)];
      return false;
    }

    /** Clear the dirty flag of a page, if it is set; returns its frame. */
    method ClearPage(r: Record) returns (phys: Option<nat>)
      requires Valid()
      modifies this`shards, this`globalDirty, this`table
      ensures Valid() && SameFiles(old(V()), V()) && KeptPrivate(old(V()), refs, V(), refs, {})
      ensures if r in old(table) && old(table)[r].dirty then
                table == old(table)[r := old(table)[r].(dirty := false)] && phys == Some(old(table)[r].phys)
              else table == old(table) && phys == None
    {
      var hit := Lookup(r);
      if hit.Some? && hit.value.dirty {
        SetFlags(r, hit.value.(dirty := false));
        return Some(hit.value.phys);
      }
      return None;
    }

    /** Clear the dirty flags of a run; returns the pages that were dirty, and their frames. */
    method ClearRun(key: Key, start: nat, n: nat) returns (offs: seq<nat>, phys: seq<nat>)
      requires Valid()
      modifies this`shards, this`globalDirty, this`table
      ensures Valid() && SameFiles(old(V()), V()) && KeptPrivate(old(V()), refs, V(), refs, {})
      ensures offs == DirtyIn(old(table), key, start, n) && phys == FrameSeq(old(table), key, offs)
      ensures table == Clear(old(table), Recs(key, offs))
    {
      offs, phys := [], [];
      assert Clear(table, Recs(key, [])) == table;
      for p := 0 to n
        invariant Valid() && SameFiles(old(V()), V()) && KeptPrivate(old(V()), refs, V(), refs, {})
        invariant offs == DirtyIn(old(table), key, start, p) && phys == FrameSeq(old(table), key, offs)
        invariant table == Clear(old(table), Recs(key, offs))
      {
        ghost var v := V();
        ClearNext(old(table), key, start, p);
        var one := ClearPage(Record(key, start + p * PAGE));
        SameFilesTrans(old(V()), v, V());
        KeptTrans(old(V()), refs, v, refs, V(), refs, {}, {});
        if one.Some? {
          offs, phys := offs + [start + p * PAGE], phys + [one.value];
        }
      }
    }

    /** Copy the frames of a run. */
    method Gather(phys: seq<nat>) returns (pages: seq<seq<byte>>)
      requires forall j :: 0 <= j < |phys| ==> phys[j] in frames
      ensures pages == PagesAt(frames, phys)
    {
      pages := [];
      for j := 0 to |phys|
        invariant pages == PagesAt(frames, phys[..j])
      {
        assert phys[..j + 1][..j] == phys[..j];
        pages := pages + [frames[phys[j]]];
      }
      assert phys[..|phys|] == phys;
    }

    method RestorePage(r: Record, phys: nat, single: bool)
      requires Valid()
      modifies this`shards, this`globalDirty, this`table
      ensures Valid() && SameFiles(old(V()), V()) && KeptPrivate(old(V()), refs, V(), refs, {})
      ensures table == if r in old(table) && (single ==> old(table)[r].phys == phys) then
                         old(table)[r := old(table)[r].(dirty := true)]
                       else old(table)
    {
      var hit := Lookup(r);
      if hit.Some? && !hit.value.dirty && (single ==> hit.value.phys == phys) {
        SetFlags(r, hit.value.(dirty := true));
      }
    }

    /** Set the dirty flags again after a failed write; for a `single` page only if it still has its frame. */
    method Restore(key: Key, offs: seq<nat>, phys: seq<nat>, single: bool)
      requires Valid() && |phys| == |offs|
      modifies this`shards, this`globalDirty, this`table
      ensures Valid() && SameFiles(old(V()), V()) && KeptPrivate(old(V()), refs, V(), refs, {})
      ensures table == Marked(old(table), Returning(old(table), key, offs, phys, single))
    {
      MarkedNone(table, key, offs, phys, single);
      for j := 0 to |offs|
        invariant Valid() && SameFiles(old(V()), V()) && KeptPrivate(old(V()), refs, V(), refs, {})
        invariant table == Marked(old(table), Returning(old(table), key, offs[..j], phys[..j], single))
      {
        ghost var v := V();
        MarkedNext(old(table), key, offs, phys, single, j);
        RestorePage(Record(key, offs[j]), phys[j], single);
        SameFilesTrans(old(V()), v, V());
        KeptTrans(old(V()), refs, v, refs, V(), refs, {}, {});
      }
      assert offs[..|offs|] == offs && phys[..|phys|] == phys;
    }

    /** The merged write itself, clipped at the size of the file. */
    method PutPages(key: Key, start: nat, pages: seq<seq<byte>>) returns (ok: bool)
      requires WholePages(pages)
      modifies this`disk
      ensures OtherFiles(old(disk), disk, key) && (!faulty ==> ok)
      ensures forall i: nat :: !(start <= i < SlotOf(start, |pages|)) ==>
                ByteAt(DiskFile(disk, key), i) == ByteAt(DiskFile(old(disk), key), i)
      ensures ok ==> DiskFile(disk, key) == Merged(DiskFile(old(disk), key), start, pages, Size(V(), key))
    {
      var buf := Join(pages);
      ConcatLength(pages);
      var size := if key in sizes then sizes[key] else 0;
      ok := true;
      if size > start {
        var valid := Min(|buf|, size - start);
        assert buf[..valid] == Clipped(buf, start, size);
        ok := WriteDirect(key, start, buf[..valid]);
      }
    }

    /** Write a run that has been cleared: all of it, or an error. */
    method WriteRun(key: Key, start: nat, phys: seq<nat>, ghost n: nat) returns (ok: bool)
      requires Valid() && start % PAGE == 0
      requires phys == FramesOf(table, key, start, n) && RunIn(table, key, start, n)
      modifies this`disk
      ensures Valid() && SameFiles(old(V()), V())
      ensures OtherFiles(old(disk), disk, key) && (!faulty ==> ok)
      ensures ok ==> DiskFile(disk, key)
                     == Merged(DiskFile(old(disk), key), start, PagesAt(frames, phys), Size(V(), key))
      ensures DiskDiffers(old(V()), V(), RunSet(key, start, n))
      ensures ok && old(Consistent(V(), RunSet(key, start, n))) ==> Clean()
    {
      ghost var v, run := V(), RunSet(key, start, n);
      FramesIn(v, refs, key, start, n);
      var pages := Gather(phys);
      ok := PutPages(key, start, pages);
      RunDiffers(v, V(), key, start, n);
      DiskChange(v, V(), refs, run);
      if ok && Consistent(v, run) {
        RunWritten(v, V(), refs, key, start, n);
        RunConsistent(v, V(), refs, run);
      }
    }

    /** Clear, write, and on an error mark dirty again, with nothing in between. */
    method FlushRun(key: Key, start: nat, n: nat) returns (ok: bool)
      requires Valid() && AllDirty(table, RunSet(key, start, n)) && start % PAGE == 0
      modifies this`shards, this`globalDirty, this`table, this`disk
      ensures Valid() && SameFiles(old(V()), V()) && (old(Clean()) ==> Clean())
      ensures table == if ok then Clear(old(table), RunSet(key, start, n)) else old(table)
      ensures OtherFiles(old(disk), disk, key) && (!faulty ==> ok)
      ensures ok ==> DiskFile(disk, key) == Merged(DiskFile(old(disk), key), start,
                       PagesAt(frames, FramesOf(old(table), key, start, n)), Size(V(), key))
    {
      var offs, phys := ClearWhole(key, start, n);
      ghost var v := V();
      ok := WriteRun(key, start, phys, n);
      SameFilesTrans(old(V()), v, V());
      if !ok {
        ghost var w := V();
        Restore(key, offs, phys, false);
        SameFilesTrans(old(V()), w, V());
        FailBack(old(V()), V(), refs, key, start, n);
      }
    }

    /** Clear the flags of a run that is dirty as a whole. */
    method ClearWhole(key: Key, start: nat, n: nat) returns (offs: seq<nat>, phys: seq<nat>)
      requires Valid() && AllDirty(table, RunSet(key, start, n))
      modifies this`shards, this`globalDirty, this`table
      ensures Valid() && SameFiles(old(V()), V())
      ensures offs == DirtyIn(old(table), key, start, n) && phys == FrameSeq(old(table), key, offs)
      ensures phys == FramesOf(old(table), key, start, n) == FramesOf(table, key, start, n)
      ensures RunIn(table, key, start, n)
      ensures table == Clear(old(table), RunSet(key, start, n)) == Clear(old(table), Recs(key, offs))
      ensures old(Clean()) ==> Consistent(V(), RunSet(key, start, n))
    {
      ghost var run, none: set<Record> := RunSet(key, start, n), {};
      AllDirtyIn(table, key, start, n);
      ClearFrames(table, run, key, start, n);
      RunCached(table, key, start, n);
      if Clean() {
        ClearConsistent(V(), run, none);
        assert none + run == run;
      }
      offs, phys := ClearRun(key, start, n);
    }

    /** `flush_page_inner`. */
    method FlushPage(key: Key, offset: nat) returns (ok: bool)
      requires Valid()
      modifies this`shards, this`globalDirty, this`table, this`disk
      ensures Valid() && SameFiles(old(V()), V()) && (old(Clean()) ==> Clean())
      ensures var r := Aligned(key, offset);
              if ok && r in old(table) && old(table)[r].dirty then
                && table == old(table)[r := old(table)[r].(dirty := false)]
                && old(table)[r].phys in frames
                && DiskFile(disk, key) == WriteAt(DiskFile(old(disk), key), r.off,
                                                 Clipped(frames[old(table)[r].phys], r.off, Size(V(), key)))
              else table == old(table) && (ok ==> disk == old(disk))
      ensures OtherFiles(old(disk), disk, key) && (!faulty ==> ok)
    {
      var r := Aligned(key, offset);
      var hit := Lookup(r);
      if hit.None? || !hit.value.dirty {
        return true;
      }
      OneRun(V(), key, r.off);
      ok := FlushRun(key, r.off, 1);
    }

    /** The offsets of an inode's dirty pages, in increasing order. */
    method CollectDirty(key: Key) returns (offs: seq<nat>)
      requires Valid()
      ensures DirtyList(table, key, offs)
    {
      var pages := PagesOf(key);
      offs := Sorted(DirtyOffs(pages));
      forall o ensures o in offs <==> Record(key, o) in table && table[Record(key, o)].dirty {
        assert o in pages.Keys <==> Record(key, o) in table;
      }
    }

    /** One run of the flush. */
    method FlushStep(key: Key, offs: seq<nat>, i: nat, ghost v0: View, ghost done: seq<nat>)
      returns (ok: bool, next: nat, ghost part: seq<nat>)
      requires Valid() && DirtyList(v0.table, key, offs) && i < |offs| && done == offs[..i]
               && Flushed(v0, V(), key, done)
      requires Owned(v0, refs)
      modifies this`shards, this`globalDirty, this`table, this`disk
      ensures Valid() && SameFiles(old(V()), V()) && (old(Clean()) ==> Clean()) && i < next <= |offs|
      ensures done + part == offs[..next] && (ok ==> Flushed(v0, V(), key, done + part))
      ensures !ok ==> table == old(table)
      ensures OtherFiles(old(disk), disk, key)
    {
      var n := RunLength(offs, i);
      next, part := i + n, offs[i..i + n];
      assert done + part == offs[..next];
      RunDirty(v0, V(), refs, key, offs, i, n);
      ok := FlushRun(key, offs[i], n);
      if ok {
        RunFlushed(v0, old(V()), V(), refs, key, offs, i, n, done, part);
      }
    }

    /** Flush the listed pages in runs. */
    method FlushList(key: Key, list: seq<nat>) returns (ok: bool, ghost done: seq<nat>)
      requires Valid() && DirtyList(table, key, list)
      modifies this`shards, this`globalDirty, this`table, this`disk
      ensures Valid() && SameFiles(old(V()), V()) && (old(Clean()) ==> Clean()) && done <= list
      ensures OtherFiles(old(disk), disk, key)
      ensures if ok then done == list && Flushed(old(V()), V(), key, done)
              else done != list && table == Clear(old(table), Recs(key, done))
    {
      done := [];
      FlushedNone(V(), key);
      var i := 0;
      while i < |list|
        invariant 0 <= i <= |list| && Valid() && SameFiles(old(V()), V()) && (old(Clean()) ==> Clean())
        invariant Flushed(old(V()), V(), key, done) && done == list[..i]
      {
        ghost var v := V();
        var good, next;
        ghost var part;
        good, next, part := FlushStep(key, list, i, old(V()), done);
        SameFilesTrans(old(V()), v, V());
        if !good {
          return false, done;
        }
        done := done + part;
        i := next;
      }
      return true, done;
    }

    /** `flush_all_for_inode_inner`: after an error, every page from the failed run on is still dirty. */
    method FlushAll(key: Key) returns (ok: bool, ghost offs: seq<nat>, ghost done: seq<nat>)
      requires Valid()
      modifies this`shards, this`globalDirty, this`table, this`disk
      ensures Valid() && SameFiles(old(V()), V()) && (old(Clean()) ==> Clean()) && OtherFiles(old(disk), disk, key)
      ensures DirtyList(old(table), key, offs) && done <= offs && (ok <==> done == offs)
      ensures table == Clear(old(table), Recs(key, done)) && (ok ==> Flushed(old(V()), V(), key, done))
    {
      var list := CollectDirty(key);
      offs := list;
      ok, done := FlushList(key, list);
    }

    /** `has_dirty_pages`: the counter answers for all shards. */
    method HasDirtyPages() returns (some: bool)
      requires Valid()
      ensures some <==> exists r :: r in table && table[r].dirty
    {
      assert forall r :: r in table && table[r].dirty <==> r in DirtySet(table);
      return globalDirty > 0;
    }

    /** `has_dirty_pages_for_inode`. */
    method HasDirtyPagesForInode(key: Key) returns (some: bool)
      requires Valid()
      ensures some <==> exists o :: Record(key, o) in table && table[Record(key, o)].dirty
    {
      var any := HasDirtyPages();
      if !any {
        return false;
      }
      var st := State(shards, key);
      forall o: nat ensures o in DirtyOffs(st.pages) <==> Record(key, o) in table && table[Record(key, o)].dirty {
        assert Record(key, o) in table <==> Cached(shards, Record(key, o));
      }
      return st.dirtyCount > 0;
    }

    /** Whether a commit of fill `id` would show bytes that are not those of the file. */
    method IsStale(id: nat) returns (stale: bool)
      requires Valid() && InFlight() && id in fills
      ensures stale <==> !Unchanged(M(), id)
    {
      var f := fills[id];
      CopyAgrees(V(), f.r, f.phys, origins[id]);
      var hit := Lookup(f.r);
      var size := if f.r.key in sizes then sizes[f.r.key] else 0;
      return hit.None?
             && exists i :: 0 <= i < PAGE && f.r.off + i < size && ByteAt(frames[f.phys], i) != DiskByte(disk, f.r, i);
    }

    /** The first part of a flush, under the lock: the flags of a run are cleared. */
    method BeginFlush(id: nat, key: Key, start: nat, n: nat)
      requires Valid() && InFlight() && id !in flushes && start % PAGE == 0
      modifies this`shards, this`globalDirty, this`table, this`flushes
      ensures Valid() && InFlight() && SameFiles(old(V()), V())
      ensures flushes == old(flushes)[id := Begun(old(V()), key, start, n)]
      ensures table == Clear(old(table), RecsOf(Begun(old(V()), key, start, n)))
    {
      FramesFit(V(), refs, key, start, n);
      var offs, phys := ClearRun(key, start, n);
      FlyingKept(old(V()), refs, V(), refs, {}, fills, origins);
      flushes := flushes[id := Flush(key, start, offs, phys, None)];
    }

    /** The second part, without a lock: the frames are copied, whoever has them by now. */
    method Snapshot(id: nat)
      requires Valid() && InFlight() && id in flushes
      modifies this`flushes
      ensures Valid() && InFlight()
      ensures flushes == old(flushes)[id := old(flushes)[id].(pages := Some(PagesAt(frames, old(flushes)[id].phys)))]
    {
      assert Fits(frames, flushes[id]);
      var pages := Gather(flushes[id].phys);
      flushes := flushes[id := flushes[id].(pages := Some(pages))];
    }

    /**
     * The last part: the copy is written, and after an error the flags are set again. If the write succeeds, files stay
     * as they were exactly if cached pages hide what it changes.
     */
    method EndFlush(id: nat, single: bool) returns (ok: bool)
      requires Valid() && InFlight() && Ripe(M(), id)
      modifies this`shards, this`globalDirty, this`table, this`disk, this`flushes
      ensures Valid() && InFlight() && flushes == old(flushes) - {id} && (!faulty ==> ok)
      ensures Fits(old(frames), old(flushes)[id]) && DidEnd(old(V()), V(), old(flushes)[id], single, ok)
      ensures ok ==> (SameFiles(old(V()), V()) <==> Hidden(old(V()), old(flushes)[id]))
    {
      var f := flushes[id];
      ok := PutFlush(id);
      if ok {
        PutShows(old(V()), V(), f, refs);
      } else {
        ghost var v := V();
        Restore(f.key, f.offs, f.phys, single);
        FlyingKept(v, refs, V(), refs, {}, fills, origins);
      }
    }

    /** The write of a flush. */
    method PutFlush(id: nat) returns (ok: bool)
      requires Valid() && InFlight() && Ripe(M(), id)
      modifies this`disk, this`flushes
      ensures Valid() && InFlight() && flushes == old(flushes) - {id} && (!faulty ==> ok)
      ensures var f := old(flushes)[id];
              && Fits(frames, f) && DiskDiffers(old(V()), V(), RunSet(f.key, f.start, |f.offs|))
              && (ok ==> Put(old(V()), V(), f))
    {
      var f := flushes[id];
      assert Fits(frames, f);
      ok := PutPages(f.key, f.start, f.pages.value);
      RunDiffers(old(V()), V(), f.key, f.start, |f.offs|);
      flushes := flushes - {id};
    }

    /** The copy of a write alone: the page has been made ready before, and is still cached at that frame. */
    method CopyBytes(r: Record, phys: nat, at: nat, data: seq<byte>) returns (ok: bool)
      requires Valid() && InFlight() && at + |data| <= PAGE
      modifies this`frames
      ensures Valid() && InFlight() && (ok <==> r in table && table[r].phys == phys)
      ensures DidCopy(old(V()), V(), r, phys, at, data, ok)
    {
      var hit := Lookup(r);
      if hit.None? || hit.value.phys != phys {
        return false;
      }
      StoreBytes(r, at, data);
      FlyingKept(old(V()), refs, V(), refs, {}, fills, origins);
      return true;
    }

    method WriteInside(key: Key, offset: nat, data: seq<byte>) returns (ok: bool)
      requires Valid() && InFlight() && Inside(sizes, Write(key, offset, data))
      modifies this`shards, this`globalDirty, this`table, this`refs, this`frames
      ensures Valid() && InFlight() && DidWrite(old(V()), V(), Aligned(key, offset), offset % PAGE, data, ok)
    {
      AlignedSplit(key, offset);
      ok := WritePage(Aligned(key, offset), offset % PAGE, data);
      FlyingKept(old(V()), old(refs), V(), refs, {}, fills, origins);
    }

    method LookIn(r: Record) returns (ok: bool)
      requires Valid() && InFlight()
      modifies this`shards, this`globalDirty, this`table
      ensures Valid() && InFlight() && Did(old(M()), Op.Lookup(r), ok, M())
    {
      var hit := Get(r);
      FlyingKept(old(V()), refs, V(), refs, {}, fills, origins);
      return hit.Some?;
    }

    method MarkIn(r: Record)
      requires Valid() && InFlight()
      modifies this`shards, this`globalDirty, this`table
      ensures Valid() && InFlight() && Did(old(M()), MarkAsDirty(r), true, M())
    {
      MarkDirty(r);
      FlyingKept(old(V()), refs, V(), refs, {}, fills, origins);
    }

    method EvictAll(target: nat)
      requires Valid() && InFlight()
      modifies this`shards, this`globalDirty, this`table, this`refs
      ensures Valid() && InFlight() && Trimmed(old(V()), V(), {})
    {
      var _, _ := EvictCleanPages(target);
      FlyingKept(old(V()), old(refs), V(), refs, {}, fills, origins);
    }

    /** One operation of a run; what cannot be done is not done. */
    method Perform(op: Op) returns (ok: bool)
      requires Valid() && InFlight() && Inside(sizes, op)
      modifies this`shards, this`globalDirty, this`table, this`refs, this`frames, this`disk, this`fills, this`origins,
               this`flushes
      ensures Valid() && InFlight() && Did(old(M()), op, ok, M())
    {
      match op {
        case Lookup(r) => ok := LookIn(r);
        case MarkAsDirty(r) =>
          MarkIn(r);
          ok := true;
        case Evict(target) =>
          EvictAll(target);
          ok := true;
        case Write(key, offset, data) => ok := WriteInside(key, offset, data);
        case Copy(r, phys, at, data) => ok := CopyBytes(r, phys, at, data);
        case BeginFlush(_, _, _, _) => ok := PerformFlush(op);
        case Snapshot(_) => ok := PerformFlush(op);
        case EndFlush(_, _) => ok := PerformFlush(op);
        case _ => ok := PerformFill(op);
      }
    }

    /** One shard's part of an eviction, in a run. */
    method EvictPart(s: nat, target: nat)
      requires Valid() && InFlight() && s < SHARDS
      modifies this`shards, this`globalDirty, this`table, this`refs
      ensures Valid() && InFlight() && Trimmed(old(V()), V(), {})
    {
      var n;
      ghost var gone;
      n, gone := EvictShard(s, target);
      EvictedShows(old(V()), old(refs), V(), refs, gone);
      FlyingKept(old(V()), old(refs), V(), refs, {}, fills, origins);
    }

    /** The parts of evictions and fills. */
    method PerformFill(op: Op) returns (ok: bool)
      requires Valid() && InFlight() && (op.EvictIn? || op.Begin? || op.Start? || op.Finish?)
      modifies this`shards, this`globalDirty, this`table, this`refs, this`frames, this`fills, this`origins
      ensures Valid() && InFlight() && Did(old(M()), op, ok, M())
    {
      ok := false;
      match op {
        case EvictIn(s, target) =>
          if s < SHARDS {
            EvictPart(s, target);
            ok := true;
          }
        case Begin(id, key, offset) =>
          if id !in fills {
            ok := BeginFill(id, Aligned(key, offset));
          }
        case Start(id, key, offset) =>
          if id !in fills {
            ok := StartFill(id, Aligned(key, offset));
          }
        case Finish(id) =>
          if id in fills {
            EndFill(id);
            ok := true;
          }
      }
    }

    /** The parts of flushes. */
    method PerformFlush(op: Op) returns (ok: bool)
      requires Valid() && InFlight() && (op.BeginFlush? || op.Snapshot? || op.EndFlush?)
      modifies this`shards, this`globalDirty, this`table, this`disk, this`flushes
      ensures Valid() && InFlight() && Did(old(M()), op, ok, M())
    {
      ok := false;
      match op {
        case BeginFlush(id, key, start, n) =>
          if id !in flushes && start % PAGE == 0 {
            BeginFlush(id, key, start, n);
            ok := true;
          }
        case Snapshot(id) =>
          if id in flushes {
            Snapshot(id);
            ok := true;
          }
        case EndFlush(id, single) =>
          if id in flushes && flushes[id].pages.Some? {
            ok := EndFlush(id, single);
          }
      }
    }

    /**
     * Any run of lookups, writes, evictions, and of the parts of fills and flushes, in any order and whatever fails on
     * the way. As long as every step is harmless, every file holds what the successful writes would have put there
     * without a cache.
     */
    method Serve(ops: seq<Op>) returns (oks: seq<bool>, ghost trace: seq<Moment>)
      requires Valid() && InFlight() && forall k :: 0 <= k < |ops| ==> Inside(sizes, ops[k])
      modifies this`shards, this`globalDirty, this`table, this`refs, this`frames, this`disk, this`fills, this`origins,
               this`flushes
      ensures Valid() && InFlight() && Runs(trace, ops, oks) && trace[0] == old(M()) && trace[|ops|] == M()
      ensures (forall k :: 0 <= k < |ops| ==> Harmless(trace[k], ops[k], oks[k], trace[k + 1])) ==>
                forall key :: Contents(V(), key) == Written(Contents(old(V()), key), key, ops, oks)
    {
      oks, trace := [], [M()];
      for k := 0 to |ops|
        invariant Valid() && InFlight() && Runs(trace, ops[..k], oks) && trace[0] == old(M()) && trace[k] == M()
      {
        ghost var before := M();
        var ok := Perform(ops[k]);
        RunsOn(trace, ops, oks, k, ok, M());
        oks, trace := oks + [ok], trace + [M()];
      }
      assert ops[..|ops|] == ops;
      RunEnds(trace, ops, oks);
    }
  }
}
