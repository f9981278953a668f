// A flush in three parts, none of which holds the lock of the next: flags are cleared, frames are copied, the copy is
// written. What comes in between decides whether readers notice.
module Flushes {
  import opened Bytes
  import opened CacheViews
  import opened FileWrites
  import opened PageCacheState
  import opened Wrappers

  /** A run whose flags are cleared: its dirty pages, their frames, and the copy once that is made. */
  datatype Flush = Flush(key: Key, start: nat, offs: seq<nat>, phys: seq<nat>, pages: Option<seq<seq<byte>>>)

  /** The page under which the write puts page `j` of the copy. */
  function Dest(f: Flush, j: nat): Record {
    Slot(f.key, f.start, j)
  }

  function RecsOf(f: Flush): set<Record> {
    Recs(f.key, f.offs)
  }

  /** The pages of unfinished flushes. */
  function PendingOf(flushes: map<nat, Flush>): set<Record> {
    set id, r | id in flushes && r in RecsOf(flushes[id]) :: r
  }

  /** The shape of a flush; its frames exist, whoever has them now. */
  ghost predicate Fits(frames: map<nat, seq<byte>>, f: Flush) {
    && f.start % PAGE == 0 && |f.phys| == |f.offs| && (forall j :: 0 <= j < |f.phys| ==> f.phys[j] in frames)
    && (f.pages.Some? ==> |f.pages.value| == |f.offs| && WholePages(f.pages.value))
  }

  ghost predicate AllFit(frames: map<nat, seq<byte>>, flushes: map<nat, Flush>) {
    forall id :: id in flushes ==> Fits(frames, flushes[id])
  }

  /** The dirty ones among the `n` pages from `start` on. */
  function DirtyIn(t: Table, key: Key, start: nat, n: nat): (offs: seq<nat>)
    ensures |offs| <= n && forall o :: o in offs ==> start <= o < SlotOf(start, n)
  {
    if n == 0 then [] else
      var o := SlotOf(start, n - 1);
      DirtyIn(t, key, start, n - 1) + if Record(key, o) in t && t[Record(key, o)].dirty then [o] else []
  }

  /** Page `n` comes after those cleared so far. */
  lemma ClearNext(t: Table, key: Key, start: nat, n: nat)
    ensures var r, offs := Slot(key, start, n), DirtyIn(t, key, start, n);
            var u := Clear(t, Recs(key, offs));
            && (r in u <==> r in t) && (r in t ==> u[r] == t[r])
            && (r in t && t[r].dirty ==>
                  && DirtyIn(t, key, start, n + 1) == offs + [r.off]
                  && FrameSeq(t, key, offs + [r.off]) == FrameSeq(t, key, offs) + [t[r].phys]
                  && u[r := t[r].(dirty := false)] == Clear(t, Recs(key, offs + [r.off])))
            && (!(r in t && t[r].dirty) ==> DirtyIn(t, key, start, n + 1) == offs)
  {
    var r, offs := Slot(key, start, n), DirtyIn(t, key, start, n);
    assert r !in Recs(key, offs);
    RecsAppend(key, offs, [r.off]);
    assert Recs(key, [r.off]) == {r};
  }

  /** If all pages of a run are dirty, the run is what is cleared. */
  lemma {:induction false} AllDirtyIn(t: Table, key: Key, start: nat, n: nat)
    requires AllDirty(t, RunSet(key, start, n))
    ensures DirtyIn(t, key, start, n) == seq(n, p requires 0 <= p < n => SlotOf(start, p))
    ensures Recs(key, DirtyIn(t, key, start, n)) == RunSet(key, start, n)
    ensures FrameSeq(t, key, DirtyIn(t, key, start, n)) == FramesOf(t, key, start, n)
  {
    if n == 0 {
      assert RunSet(key, start, 0) == {};
    } else {
      var r := Slot(key, start, n - 1);
      assert r in RunSet(key, start, n);
      assert RunSet(key, start, n) == RunSet(key, start, n - 1) + {r} by {
        forall q ensures q in RunSet(key, start, n) <==> q in RunSet(key, start, n - 1) || q == r {
        }
      }
      AllDirtyIn(t, key, start, n - 1);
      ClearNext(t, key, start, n - 1);
      RecsAppend(key, DirtyIn(t, key, start, n - 1), [r.off]);
      assert Recs(key, [r.off]) == {r};
    }
  }

  lemma FramesFit(v: View, refs: map<nat, nat>, key: Key, start: nat, n: nat)
    requires Owned(v, refs)
    ensures var offs := DirtyIn(v.table, key, start, n);
            forall j :: 0 <= j < |offs| ==>
              Record(key, offs[j]) in v.table && FrameSeq(v.table, key, offs)[j] in v.frames
  {
    forall o | o in DirtyIn(v.table, key, start, n) ensures Record(key, o) in v.table {
      DirtyInside(v.table, key, start, n, o);
    }
  }

  lemma {:induction false} DirtyInside(t: Table, key: Key, start: nat, n: nat, o: nat)
    requires o in DirtyIn(t, key, start, n)
    ensures Record(key, o) in t && t[Record(key, o)].dirty
  {
    if o in DirtyIn(t, key, start, n - 1) {
      DirtyInside(t, key, start, n - 1, o);
    }
  }

  /** The flags of `rs` set. */
  function Marked(t: Table, rs: set<Record>): Table {
    map r | r in t :: if r in rs then t[r].(dirty := true) else t[r]
  }

  /** The pages that a failed flush marks dirty again; for a single page only if it still has its frame. */
  function Returning(t: Table, key: Key, offs: seq<nat>, phys: seq<nat>, single: bool): set<Record>
    requires |phys| == |offs|
  {
    set j | 0 <= j < |offs|
            && Record(key, offs[j]) in t && (single ==> t[Record(key, offs[j])].phys == phys[j]) :: Record(key, offs[j])
  }

  lemma MarkedNone(t: Table, key: Key, offs: seq<nat>, phys: seq<nat>, single: bool)
    requires |phys| == |offs|
    ensures Marked(t, Returning(t, key, offs[..0], phys[..0], single)) == t
  {
  }

  lemma MarkedNext(t: Table, key: Key, offs: seq<nat>, phys: seq<nat>, single: bool, j: nat)
    requires |phys| == |offs| && j < |offs|
    ensures var r, u := Record(key, offs[j]), Marked(t, Returning(t, key, offs[..j], phys[..j], single));
            && u.Keys == t.Keys && (r in t ==> u[r].phys == t[r].phys)
            && Marked(t, Returning(t, key, offs[..j + 1], phys[..j + 1], single))
               == if r in t && (single ==> t[r].phys == phys[j]) then u[r := u[r].(dirty := true)] else u
  {
    var r := Record(key, offs[j]);
    var a := Returning(t, key, offs[..j], phys[..j], single);
    var b := Returning(t, key, offs[..j + 1], phys[..j + 1], single);
    forall q ensures q in b <==> q in a || (q == r && r in t && (single ==> t[r].phys == phys[j])) {
      if q in b {
        var i :| 0 <= i < j + 1 && q == Record(key, offs[..j + 1][i]) && q in t
                 && (single ==> t[q].phys == phys[..j + 1][i]);
        assert i < j ==> offs[..j][i] == offs[i] && phys[..j][i] == phys[i];
      }
      if q in a {
        var i :| 0 <= i < j && q == Record(key, offs[..j][i]) && q in t && (single ==> t[q].phys == phys[..j][i]);
        assert offs[..j + 1][i] == offs[i] && phys[..j + 1][i] == phys[i];
      }
      if q == r && r in t && (single ==> t[r].phys == phys[j]) {
        assert offs[..j + 1][j] == offs[j] && phys[..j + 1][j] == phys[j];
      }
    }
  }

  /** After a failed flush with nothing in between, the table is as it was. */
  lemma FailBack(v: View, w: View, refs: map<nat, nat>, key: Key, start: nat, n: nat)
    requires Owned(v, refs) && AllDirty(v.table, RunSet(key, start, n))
    requires var offs := DirtyIn(v.table, key, start, n);
             var u := Clear(v.table, Recs(key, offs));
             w.table == Marked(u, Returning(u, key, offs, FrameSeq(v.table, key, offs), false))
    requires w.frames == v.frames && w.sizes == v.sizes && DiskDiffers(v, v.(disk := w.disk), RunSet(key, start, n))
    ensures w.table == v.table && (Consistent(v, {}) ==> Consistent(w, {}))
  {
    var offs, run := DirtyIn(v.table, key, start, n), RunSet(key, start, n);
    var u := Clear(v.table, Recs(key, offs));
    AllDirtyIn(v.table, key, start, n);
    assert Returning(u, key, offs, FrameSeq(v.table, key, offs), false) == run by {
      forall q | q in run ensures q in Returning(u, key, offs, FrameSeq(v.table, key, offs), false) {
        assert q in Recs(key, offs);
      }
    }
    assert w.table == v.table;
    if Consistent(v, {}) {
      forall q | q in w.table && !w.table[q].dirty ensures Agrees(w, q, w.table[q].phys) {
        DiskAgrees(v, w, run, q, v.table[q].phys);
      }
    }
  }

  /** The disk after the copy has been written, cut at the size of the file. */
  ghost predicate Put(v: View, w: View, f: Flush)
    requires f.pages.Some?
  {
    && w == v.(disk := w.disk) && OtherFiles(v.disk, w.disk, f.key)
    && DiskFile(w.disk, f.key) == Merged(DiskFile(v.disk, f.key), f.start, f.pages.value, Size(v, f.key))
    && DiskDiffers(v, w, RunSet(f.key, f.start, |f.offs|))
  }

  /** Where the copy differs from the disk, a cached page hides it. */
  ghost predicate Hidden(v: View, f: Flush)
    requires Fits(v.frames, f) && f.pages.Some?
  {
    forall j, i :: 0 <= j < |f.offs| && InFile(v, Dest(f, j), i) && Dest(f, j) !in v.table ==>
      ByteAt(f.pages.value[j], i) == DiskByte(v.disk, Dest(f, j), i)
  }

  /** Below the size of its file, the frame of a page holds `page`. */
  ghost predicate FrameIs(v: View, r: Record, page: seq<byte>) {
    r in v.table && v.table[r].phys in v.frames &&
    forall i :: 0 <= i < PAGE && r.off + i < Size(v, r.key) ==> ByteAt(v.frames[v.table[r].phys], i) == ByteAt(page, i)
  }

  /** A page that is cached, clean, and of no unfinished flush in `pending`. */
  ghost predicate Settled(v: View, r: Record, pending: set<Record>) {
    r in v.table && !v.table[r].dirty && r !in pending
  }

  /** Settled pages over the written bytes have these bytes; other settled pages of the flush have those of the disk. */
  ghost predicate Lands(v: View, f: Flush, pending: set<Record>)
    requires Fits(v.frames, f) && f.pages.Some?
  {
    && (forall j :: 0 <= j < |f.offs| && Settled(v, Dest(f, j), pending) ==> FrameIs(v, Dest(f, j), f.pages.value[j]))
    && (forall r :: r in RecsOf(f) && r !in RunSet(f.key, f.start, |f.offs|) && Settled(v, r, pending) ==>
          Agrees(v, r, v.table[r].phys))
  }

  lemma Landed(v: View, w: View, f: Flush, j: nat, i: nat)
    requires Fits(v.frames, f) && f.pages.Some? && Put(v, w, f) && j < |f.offs| && InFile(v, Dest(f, j), i)
    ensures DiskByte(w.disk, Dest(f, j), i) == ByteAt(f.pages.value[j], i)
  {
    SlotWritten(DiskFile(v.disk, f.key), f.start, f.pages.value, Size(v, f.key), j, f.pages.value[j]);
  }

  lemma DestAligned(f: Flush, j: nat)
    requires f.start % PAGE == 0
    ensures Dest(f, j).off % PAGE == 0
  {
  }

  /** The write goes unnoticed exactly when it is hidden. */
  lemma PutShows(v: View, w: View, f: Flush, refs: map<nat, nat>)
    requires Owned(v, refs) && Fits(v.frames, f) && f.pages.Some? && Put(v, w, f)
    ensures SameFiles(v, w) <==> Hidden(v, f)
  {
    if SameFiles(v, w) {
      forall j, i | 0 <= j < |f.offs| && InFile(v, Dest(f, j), i) && Dest(f, j) !in v.table
        ensures ByteAt(f.pages.value[j], i) == DiskByte(v.disk, Dest(f, j), i)
      {
        Landed(v, w, f, j, i);
        assert PageByte(v, Dest(f, j), i) == PageByte(w, Dest(f, j), i);
      }
    }
    if Hidden(v, f) {
      forall q, i | InFile(v, q, i) ensures PageByte(v, q, i) == PageByte(w, q, i) {
        if q in RunSet(f.key, f.start, |f.offs|) {
          var j :| 0 <= j < |f.offs| && q == Slot(f.key, f.start, j);
          assert q == Dest(f, j);
          Landed(v, w, f, j, i);
        } else {
          assert Cell(q, i);
        }
      }
    }
  }

  lemma LandedAgrees(v: View, w: View, f: Flush, j: nat)
    requires Fits(v.frames, f) && f.pages.Some? && Put(v, w, f) && j < |f.offs|
    requires Dest(f, j) in v.table && v.table[Dest(f, j)].phys in v.frames
    ensures Agrees(w, Dest(f, j), v.table[Dest(f, j)].phys) <==> FrameIs(v, Dest(f, j), f.pages.value[j])
  {
    var r := Dest(f, j);
    DestAligned(f, j);
    forall i: nat | i < PAGE && r.off + i < Size(v, r.key)
      ensures DiskByte(w.disk, r, i) == ByteAt(f.pages.value[j], i)
    {
      assert InFile(v, r, i);
      Landed(v, w, f, j, i);
    }
  }

  /** Once the flush is over, clean pages hold what the disk holds exactly when it lands. */
  lemma PutLands(v: View, w: View, f: Flush, refs: map<nat, nat>, pending: set<Record>)
    requires Owned(v, refs) && Fits(v.frames, f) && f.pages.Some? && Put(v, w, f)
    requires Consistent(v, pending + RecsOf(f))
    ensures Consistent(w, pending) <==> Lands(v, f, pending)
  {
    var run := RunSet(f.key, f.start, |f.offs|);
    forall j | 0 <= j < |f.offs| && Dest(f, j) in v.table
      ensures Agrees(w, Dest(f, j), v.table[Dest(f, j)].phys) <==> FrameIs(v, Dest(f, j), f.pages.value[j])
      ensures Dest(f, j) in run
    {
      LandedAgrees(v, w, f, j);
    }
    forall q | q in v.table && q !in run
      ensures Agrees(w, q, v.table[q].phys) <==> Agrees(v, q, v.table[q].phys)
    {
      DiskAgrees(v, w, run, q, v.table[q].phys);
    }
    if Lands(v, f, pending) {
      forall q | q in w.table && !w.table[q].dirty && q !in pending ensures Agrees(w, q, w.table[q].phys) {
        assert Settled(v, q, pending);
        if q in run {
          var j :| 0 <= j < |f.offs| && q == Slot(f.key, f.start, j);
          assert q == Dest(f, j);
        }
      }
    }
  }

  /** The pages of the run are all of it, and page `j` is still cached at the frame that was copied. */
  ghost predicate StillThere(v: View, f: Flush, j: nat)
    requires Fits(v.frames, f) && j < |f.offs|
  {
    f.offs[j] == SlotOf(f.start, j) && Dest(f, j) in v.table && v.table[Dest(f, j)].phys == f.phys[j]
  }

  /**
   * A flush ends well if each of its pages is still where it was, with the bytes that were copied or with newer ones
   * that are marked as such.
   */
  lemma EndsWell(v: View, f: Flush, pending: set<Record>)
    requires Fits(v.frames, f) && f.pages.Some?
    requires forall j :: 0 <= j < |f.offs| ==>
               StillThere(v, f, j) && (Settled(v, Dest(f, j), pending) ==> v.frames[f.phys[j]] == f.pages.value[j])
    ensures Hidden(v, f) && Lands(v, f, pending)
  {
    forall r | r in RecsOf(f) ensures r in RunSet(f.key, f.start, |f.offs|) {
      var o :| o in f.offs && r == Record(f.key, o);
      var j :| 0 <= j < |f.offs| && f.offs[j] == o;
      assert StillThere(v, f, j) && r == Slot(f.key, f.start, j);
    }
  }

  /** A failed write disturbs nothing that readers see if every page under it is cached. */
  lemma FailShows(v: View, w: View, f: Flush, refs: map<nat, nat>, back: set<Record>)
    requires Owned(v, refs) && Fits(v.frames, f)
    requires w == v.(disk := w.disk, table := Marked(v.table, back))
    requires DiskDiffers(v, v.(disk := w.disk), RunSet(f.key, f.start, |f.offs|))
    requires forall j :: 0 <= j < |f.offs| ==> Dest(f, j) in v.table
    ensures SameFiles(v, w) && Owned(w, refs)
  {
    var mid, run := v.(disk := w.disk), RunSet(f.key, f.start, |f.offs|);
    forall q | q in run ensures q in v.table {
      var j :| 0 <= j < |f.offs| && q == Slot(f.key, f.start, j);
      assert q == Dest(f, j);
    }
    DiskChange(v, mid, refs, run);
    MarkedSame(mid, refs, back);
    SameFilesTrans(v, mid, w);
  }

  lemma MarkedSame(v: View, refs: map<nat, nat>, back: set<Record>)
    requires Owned(v, refs)
    ensures var w := v.(table := Marked(v.table, back)); SameFiles(v, w) && Owned(w, refs) && Trimmed(v, w, {})
  {
    var w := v.(table := Marked(v.table, back));
    forall r, q | r in w.table && q in w.table && r != q ensures PhysOf(w.table, r) != PhysOf(w.table, q) {
      assert PhysOf(v.table, r) != PhysOf(v.table, q);
    }
  }

  /** Every settled page under the write, or of the flush, is marked dirty again. */
  ghost predicate AllBack(v: View, f: Flush, back: set<Record>, pending: set<Record>) {
    && (forall j :: 0 <= j < |f.offs| && Settled(v, Dest(f, j), pending) ==> Dest(f, j) in back)
    && (forall r :: r in RecsOf(f) && Settled(v, r, pending) ==> r in back)
  }

  /** Then the cache is as consistent after a failed write as before the flush. */
  lemma FailLands(v: View, w: View, f: Flush, refs: map<nat, nat>, back: set<Record>, pending: set<Record>)
    requires Owned(v, refs) && Fits(v.frames, f) && Consistent(v, pending + RecsOf(f))
    requires w == v.(disk := w.disk, table := Marked(v.table, back))
    requires DiskDiffers(v, v.(disk := w.disk), RunSet(f.key, f.start, |f.offs|)) && AllBack(v, f, back, pending)
    ensures Consistent(w, pending)
  {
    var mid, run := v.(disk := w.disk), RunSet(f.key, f.start, |f.offs|);
    forall q | q in run && Settled(v, q, pending) ensures q in back {
      var j :| 0 <= j < |f.offs| && q == Slot(f.key, f.start, j);
      assert q == Dest(f, j);
    }
    forall q | q in w.table && !w.table[q].dirty && q !in pending ensures Agrees(w, q, w.table[q].phys) {
      assert Settled(v, q, pending) && q !in back;
      DiskAgrees(v, mid, run, q, v.table[q].phys);
    }
  }
}
