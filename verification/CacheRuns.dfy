// Runs of cache operations, down to the parts between which no lock is held: when readers notice, exactly.
module CacheRuns {
  import opened Bytes
  import opened CacheViews
  import opened FileWrites
  import opened Flushes
  import opened PageCacheState
  import opened Wrappers

  function Aligned(key: Key, offset: nat): (r: Record)
    ensures r.key == key && r.off % PAGE == 0 && r.off <= offset < r.off + PAGE
  {
    Record(key, offset - offset % PAGE)
  }

  lemma AlignedSplit(key: Key, offset: nat)
    ensures Aligned(key, offset).off % PAGE == 0 && Aligned(key, offset).off + offset % PAGE == offset
  {
  }

  datatype Op =
    | Lookup(r: Record)
    | MarkAsDirty(r: Record)
    | Evict(target: nat)
    | EvictIn(s: nat, target: nat)                              // one shard's part of that
    | Write(key: Key, offset: nat, data: seq<byte>)             // a page is made ready and written
    | Copy(r: Record, phys: nat, at: nat, data: seq<byte>)      // the second half of that alone
    | Begin(id: nat, key: Key, offset: nat)                     // a hit, or a fill has read its page
    | Start(id: nat, key: Key, offset: nat)                     // a fill reads its page, cached meanwhile or not
    | Finish(id: nat)                                           // the fill is committed
    | BeginFlush(id: nat, key: Key, start: nat, n: nat)         // the flags of a run are cleared
    | Snapshot(id: nat)                                         // its frames are copied
    | EndFlush(id: nat, single: bool)                           // the copy is written, or the flags are set again

  /** The state between two operations. */
  datatype Moment = Moment(
    v: View,
    refs: map<nat, nat>,
    fills: map<nat, Fill>,
    origins: map<nat, map<Key, seq<byte>>>,
    flushes: map<nat, Flush>)

  ghost predicate Good(m: Moment) {
    Owned(m.v, m.refs) && Flying(m.v, m.refs, m.fills, m.origins) && AllFit(m.v.frames, m.flushes)
  }

  /** What a write is to change. */
  datatype Change = Change(r: Record, at: nat, data: seq<byte>)

  function Intends(op: Op): Option<Change> {
    match op
    case Write(key, offset, data) => Some(Change(Aligned(key, offset), offset % PAGE, data))
    case Copy(r, _, at, data) => Some(Change(r, at, data))
    case _ => None
  }

  /** Writes stay inside one page and inside the file. */
  predicate Inside(sizes: map<Key, nat>, op: Op) {
    Intends(op).Some? ==>
      var c := Intends(op).value;
      && c.r.off % PAGE == 0 && c.at + |c.data| <= PAGE
      && c.r.off + c.at + |c.data| <= if c.r.key in sizes then sizes[c.r.key] else 0
  }

  /** Readers see what they saw, and the bytes written if this is a write that succeeds. */
  ghost predicate Right(v: View, w: View, op: Op, ok: bool) {
    if Intends(op).Some? && ok then
      Wrote(v, w, Intends(op).value.r, Intends(op).value.at, Intends(op).value.data)
    else
      SameFiles(v, w)
  }

  /** Whether a flush is at the point at which it can end. */
  predicate Ripe(m: Moment, id: nat) {
    id in m.flushes && m.flushes[id].pages.Some?
  }

  /** The page of fill `id` has been cached since its read, or is on disk as it was. */
  ghost predicate Unchanged(m: Moment, id: nat) {
    id in m.fills && id in m.origins &&
    (m.fills[id].r in m.v.table || SameOnDisk(m.origins[id], m.v.disk, m.fills[id].r, Size(m.v, m.fills[id].r.key)))
  }

  /** The pages that a failed flush marks dirty again. */
  function Back(v: View, f: Flush, single: bool): set<Record>
    requires |f.phys| == |f.offs|
  {
    Returning(v.table, f.key, f.offs, f.phys, single)
  }

  /** The flush of a run after its first part. */
  function Begun(v: View, key: Key, start: nat, n: nat): Flush {
    var offs := DirtyIn(v.table, key, start, n);
    Flush(key, start, offs, FrameSeq(v.table, key, offs), None)
  }

  /** What an operation does. */
  ghost predicate Did(m: Moment, op: Op, ok: bool, n: Moment) {
    match op
    case Write(key, offset, data) =>
      n.flushes == m.flushes && DidWrite(m.v, n.v, Aligned(key, offset), offset % PAGE, data, ok)
    case Copy(r, phys, at, data) =>
      n.flushes == m.flushes && DidCopy(m.v, n.v, r, phys, at, data, ok)
    case Finish(id) =>
      n.flushes == m.flushes && DidFinish(m, n.v, id) && n.fills == m.fills - {id} && (ok <==> id in m.fills)
    case BeginFlush(id, key, start, k) =>
      if ok then
        && id !in m.flushes && start % PAGE == 0
        && n.flushes == m.flushes[id := Begun(m.v, key, start, k)]
        && n.v == m.v.(table := Clear(m.v.table, RecsOf(Begun(m.v, key, start, k))))
      else (id in m.flushes || start % PAGE != 0) && n.v == m.v && n.flushes == m.flushes
    case Snapshot(id) =>
      && n.v == m.v && (ok <==> id in m.flushes)
      && n.flushes == if id in m.flushes then
           m.flushes[id := m.flushes[id].(pages := Some(PagesAt(m.v.frames, m.flushes[id].phys)))]
         else m.flushes
    case EndFlush(id, single) =>
      if Ripe(m, id) && |m.flushes[id].phys| == |m.flushes[id].offs| then
        n.flushes == m.flushes - {id} && DidEnd(m.v, n.v, m.flushes[id], single, ok)
      else n.v == m.v && n.flushes == m.flushes
    case Lookup(r) =>
      && n.flushes == m.flushes && Trimmed(m.v, n.v, {}) && n.refs == m.refs && n.fills == m.fills
      && (ok <==> r in m.v.table)
      && n.v.table == if ok then m.v.table[r := m.v.table[r].(referenced := true)] else m.v.table
    case MarkAsDirty(r) =>
      && n.flushes == m.flushes && Trimmed(m.v, n.v, {}) && n.refs == m.refs && n.fills == m.fills
      && n.v.table == if r in m.v.table then m.v.table[r := m.v.table[r].(dirty := true)] else m.v.table
    case Begin(id, key, offset) =>
      && n.flushes == m.flushes && Trimmed(m.v, n.v, {})
      && var r := Aligned(key, offset);
         if ok && r !in m.v.table then DidStart(m, id, r, n) else n.fills == m.fills
    case Start(id, key, offset) =>
      && n.flushes == m.flushes && Trimmed(m.v, n.v, {})
      && if ok then DidStart(m, id, Aligned(key, offset), n) else n.fills == m.fills
    case _ => n.flushes == m.flushes && Trimmed(m.v, n.v, {}) && n.fills == m.fills
  }

  /** Fill `id` of page `r` is under way, from the disk as it is. */
  ghost predicate DidStart(m: Moment, id: nat, r: Record, n: Moment) {
    && id !in m.fills && id in n.fills && n.fills == m.fills[id := Fill(r, n.fills[id].phys)]
    && n.origins == m.origins[id := m.v.disk]
  }

  ghost predicate DidWrite(v: View, w: View, r: Record, at: nat, data: seq<byte>, ok: bool) {
    if ok then Trimmed(v, w, {r}) && r in w.table && w.table[r].dirty && WroteHere(v, w, r, at, data)
    else Trimmed(v, w, {})
  }

  ghost predicate DidCopy(v: View, w: View, r: Record, phys: nat, at: nat, data: seq<byte>, ok: bool) {
    if ok then
      && r in v.table && v.table[r].phys == phys && w.table == v.table && Trimmed(v, w, {r})
      && WroteHere(v, w, r, at, data)
    else w == v
  }

  ghost predicate DidFinish(m: Moment, w: View, id: nat) {
    if id in m.fills then
      var f := m.fills[id];
      w == m.v.(table := m.v.table[f.r := if f.r in m.v.table then m.v.table[f.r].(referenced := true)
                                          else Entry(f.phys, false, true)])
    else w == m.v
  }

  ghost predicate DidEnd(v: View, w: View, f: Flush, single: bool, ok: bool)
    requires f.pages.Some? && |f.phys| == |f.offs|
  {
    if ok then Put(v, w, f)
    else
      && w == v.(disk := w.disk, table := Marked(v.table, Back(v, f, single)))
      && DiskDiffers(v, v.(disk := w.disk), RunSet(f.key, f.start, |f.offs|))
  }

  /** What no page hides is on disk as it was. */
  ghost predicate SameUnhidden(v: View, w: View) {
    forall q, i :: InFile(v, q, i) && q !in v.table ==> DiskByte(w.disk, q, i) == DiskByte(v.disk, q, i)
  }

  /** When nothing is noticed of an operation that it is not meant to do. */
  ghost predicate Harmless(m: Moment, op: Op, ok: bool, n: Moment)
    requires Good(m)
  {
    match op
    case Finish(id) => id in m.fills ==> Unchanged(m, id)
    case EndFlush(id, _) =>
      Ripe(m, id) ==> if ok then Hidden(m.v, m.flushes[id]) else SameUnhidden(m.v, n.v)
    case _ => Safe(m.v, n.v)
  }

  lemma WriteExact(m: Moment, op: Op, ok: bool, n: Moment)
    requires Good(m) && Did(m, op, ok, n) && Intends(op).Some?
    ensures Right(m.v, n.v, op, ok) <==> Safe(m.v, n.v)
  {
    var c := Intends(op).value;
    if ok {
      TrimmedWrote(m.v, n.v, m.refs, c.r, c.at, c.data);
    } else if op.Write? {
      TrimmedFiles(m.v, n.v, m.refs);
    }
  }

  lemma FillUnchanged(m: Moment, id: nat)
    requires Flying(m.v, m.refs, m.fills, m.origins) && id in m.fills
    ensures Unchanged(m, id) <==> m.fills[id].r in m.v.table || Agrees(m.v, m.fills[id].r, m.fills[id].phys)
  {
    CopyAgrees(m.v, m.fills[id].r, m.fills[id].phys, m.origins[id]);
  }

  lemma FinishExact(m: Moment, n: Moment, id: nat)
    requires Good(m) && DidFinish(m, n.v, id) && id in m.fills
    ensures SameFiles(m.v, n.v) <==> Unchanged(m, id)
  {
    var f := m.fills[id];
    if f.r in m.v.table {
      FlagsSameFiles(m.v, f.r, m.v.table[f.r].(referenced := true));
    } else {
      FillUnchanged(m, id);
      InsertShows(m.v, f.r, Entry(f.phys, false, true));
    }
  }

  lemma FailExact(v: View, w: View, f: Flush, refs: map<nat, nat>, single: bool)
    requires Owned(v, refs) && Fits(v.frames, f) && f.pages.Some? && DidEnd(v, w, f, single, false)
    ensures SameFiles(v, w) <==> SameUnhidden(v, w)
  {
    if SameFiles(v, w) {
      forall q, i | InFile(v, q, i) && q !in v.table ensures DiskByte(w.disk, q, i) == DiskByte(v.disk, q, i) {
        assert PageByte(v, q, i) == PageByte(w, q, i);
      }
    }
  }

  /** Readers see exactly what they should after a step exactly when the step is harmless. */
  lemma StepExact(m: Moment, op: Op, ok: bool, n: Moment)
    requires Good(m) && Did(m, op, ok, n)
    ensures Right(m.v, n.v, op, ok) <==> Harmless(m, op, ok, n)
  {
    match op
    case Write(_, _, _) => WriteExact(m, op, ok, n);
    case Copy(_, _, _, _) => WriteExact(m, op, ok, n);
    case Finish(id) => if id in m.fills { FinishExact(m, n, id); }
    case EndFlush(id, single) =>
      if Ripe(m, id) {
        assert Fits(m.v.frames, m.flushes[id]);
        if ok {
          PutShows(m.v, n.v, m.flushes[id], m.refs);
        } else {
          FailExact(m.v, n.v, m.flushes[id], m.refs, single);
        }
      }
    case BeginFlush(_, _, _, _) =>
    case Snapshot(_) =>
    case _ => TrimmedFiles(m.v, n.v, m.refs);
  }

  /** Clean pages hold what the disk holds, but for unfinished flushes. */
  ghost predicate Neat(m: Moment) {
    Consistent(m.v, PendingOf(m.flushes))
  }

  /** When an operation leaves every clean page as the disk has it, but for unfinished flushes. */
  ghost predicate Kept(m: Moment, op: Op, ok: bool, n: Moment)
    requires Good(m)
  {
    match op
    case Finish(id) => id in m.fills ==> Unchanged(m, id) || m.fills[id].r in PendingOf(m.flushes)
    case Copy(r, _, at, data) =>
      ok && Settled(m.v, r, PendingOf(m.flushes)) ==>
        forall i: nat :: InFile(m.v, r, i) && at <= i < at + |data| ==> data[i - at] == DiskByte(m.v.disk, r, i)
    case EndFlush(id, single) =>
      Ripe(m, id) ==>
        var f, rest := m.flushes[id], PendingOf(m.flushes - {id});
        if ok then Lands(m.v, f, rest) else FailLeft(m.v, n.v, f, Back(m.v, f, single), rest)
    case _ => true
  }

  /** After a failed write, the pages that it may have spoiled and that are not dirty again hold what the disk holds. */
  ghost predicate FailLeft(v: View, w: View, f: Flush, back: set<Record>, pending: set<Record>) {
    forall q :: q in RunSet(f.key, f.start, |f.offs|) + RecsOf(f) && Settled(v, q, pending) && q !in back ==>
      Agrees(w, q, v.table[q].phys)
  }

  lemma PendingLess(flushes: map<nat, Flush>, id: nat)
    requires id in flushes
    ensures PendingOf(flushes) == PendingOf(flushes - {id}) + RecsOf(flushes[id])
  {
    forall r ensures r in PendingOf(flushes) <==> r in PendingOf(flushes - {id}) + RecsOf(flushes[id]) {
      if r in PendingOf(flushes) {
        var a :| a in flushes && r in RecsOf(flushes[a]);
        assert a != id ==> a in flushes - {id};
      }
      if r in PendingOf(flushes - {id}) {
        var a :| a in flushes - {id} && r in RecsOf((flushes - {id})[a]);
        assert a in flushes;
      }
    }
  }

  lemma PendingMore(flushes: map<nat, Flush>, id: nat, f: Flush)
    requires id !in flushes || RecsOf(f) == RecsOf(flushes[id])
    ensures PendingOf(flushes[id := f]) == PendingOf(flushes) + RecsOf(f)
  {
    PendingLess(flushes[id := f], id);
    assert flushes[id := f] - {id} == flushes - {id};
    if id in flushes {
      PendingLess(flushes, id);
    } else {
      assert flushes - {id} == flushes;
    }
  }

  lemma FinishKept(m: Moment, n: Moment, id: nat, pending: set<Record>)
    requires Good(m) && DidFinish(m, n.v, id) && id in m.fills && Consistent(m.v, pending)
    ensures Consistent(n.v, pending) <==> Unchanged(m, id) || m.fills[id].r in pending
  {
    var f := m.fills[id];
    if f.r in m.v.table {
      TrimmedFlags(m.v, f.r, m.v.table[f.r].(referenced := true));
      TrimmedConsistent(m.v, n.v, {}, pending);
      assert pending + {} == pending;
    } else {
      FillUnchanged(m, id);
      InsertConsistent(m.v, f.r, Entry(f.phys, false, true), pending);
    }
  }

  lemma CopyKept(v: View, w: View, refs: map<nat, nat>, r: Record, phys: nat, at: nat, data: seq<byte>,
                 pending: set<Record>)
    requires Owned(v, refs) && DidCopy(v, w, r, phys, at, data, true) && Consistent(v, pending)
    ensures Consistent(w, pending) <==>
              (Settled(v, r, pending) ==>
                 forall i: nat :: InFile(v, r, i) && at <= i < at + |data| ==> data[i - at] == DiskByte(v.disk, r, i))
  {
    TrimmedConsistent(v, w, {r}, pending);
    if Settled(v, r, pending) {
      assert Agrees(v, r, phys);
      if Consistent(w, pending) {
        assert Agrees(w, r, phys);
        forall i: nat | InFile(v, r, i) && at <= i < at + |data| ensures data[i - at] == DiskByte(v.disk, r, i) {
          assert PageByte(w, r, i) == ByteAt(w.frames[phys], i) == DiskByte(w.disk, r, i);
        }
      }
      if forall i: nat :: InFile(v, r, i) && at <= i < at + |data| ==> data[i - at] == DiskByte(v.disk, r, i) {
        forall i | 0 <= i < PAGE && r.off + i < Size(w, r.key)
          ensures ByteAt(w.frames[phys], i) == DiskByte(w.disk, r, i)
        {
          assert InFile(v, r, i) && PageByte(w, r, i) == ByteAt(w.frames[phys], i);
          assert PageByte(v, r, i) == DiskByte(v.disk, r, i);
        }
      }
    }
  }

  lemma WriteKept(v: View, w: View, r: Record, at: nat, data: seq<byte>, ok: bool, pending: set<Record>)
    requires DidWrite(v, w, r, at, data, ok) && Consistent(v, pending)
    ensures Consistent(w, pending)
  {
    if ok {
      TrimmedConsistent(v, w, {r}, pending);
    } else {
      TrimmedConsistent(v, w, {}, pending);
      assert pending + {} == pending;
    }
  }

  lemma FailKept(v: View, w: View, f: Flush, refs: map<nat, nat>, single: bool, pending: set<Record>)
    requires Owned(v, refs) && Fits(v.frames, f) && f.pages.Some? && DidEnd(v, w, f, single, false)
    requires Consistent(v, pending + RecsOf(f))
    ensures Consistent(w, pending) <==> FailLeft(v, w, f, Back(v, f, single), pending)
  {
    var run, back, mid := RunSet(f.key, f.start, |f.offs|), Back(v, f, single), v.(disk := w.disk);
    if FailLeft(v, w, f, back, pending) {
      forall q | q in w.table && !w.table[q].dirty && q !in pending ensures Agrees(w, q, w.table[q].phys) {
        assert Settled(v, q, pending) && q !in back;
        if q !in run + RecsOf(f) {
          DiskAgrees(v, mid, run, q, v.table[q].phys);
        }
      }
    }
  }

  lemma BeginKept(m: Moment, n: Moment, id: nat, key: Key, start: nat, k: nat)
    requires Did(m, BeginFlush(id, key, start, k), true, n) && Neat(m)
    ensures Neat(n)
  {
    var f := Begun(m.v, key, start, k);
    PendingMore(m.flushes, id, f);
    ClearConsistent(m.v, RecsOf(f), PendingOf(m.flushes));
  }

  lemma EndKept(m: Moment, op: Op, ok: bool, n: Moment)
    requires Good(m) && Did(m, op, ok, n) && op.EndFlush? && Ripe(m, op.id) && Neat(m)
    ensures Neat(n) <==> Kept(m, op, ok, n)
  {
    var f, rest := m.flushes[op.id], PendingOf(m.flushes - {op.id});
    PendingLess(m.flushes, op.id);
    assert Fits(m.v.frames, f);
    if ok {
      PutLands(m.v, n.v, f, m.refs, rest);
    } else {
      FailKept(m.v, n.v, f, m.refs, op.single, rest);
    }
  }

  lemma SnapshotKept(m: Moment, n: Moment, id: nat)
    requires Did(m, Snapshot(id), id in m.flushes, n)
    ensures PendingOf(n.flushes) == PendingOf(m.flushes)
  {
    if id in m.flushes {
      PendingMore(m.flushes, id, n.flushes[id]);
      PendingLess(m.flushes, id);
    }
  }

  /** A step leaves every clean page as the disk has it, but for unfinished flushes, exactly when `Kept` says so. */
  lemma StepKept(m: Moment, op: Op, ok: bool, n: Moment)
    requires Good(m) && Did(m, op, ok, n) && Neat(m)
    ensures Neat(n) <==> Kept(m, op, ok, n)
  {
    var pending := PendingOf(m.flushes);
    match op
    case Write(key, offset, data) => WriteKept(m.v, n.v, Aligned(key, offset), offset % PAGE, data, ok, pending);
    case Copy(r, phys, at, data) => if ok { CopyKept(m.v, n.v, m.refs, r, phys, at, data, pending); }
    case Finish(id) => if id in m.fills { FinishKept(m, n, id, pending); }
    case BeginFlush(id, key, start, k) => if ok { BeginKept(m, n, id, key, start, k); }
    case Snapshot(id) => SnapshotKept(m, n, id);
    case EndFlush(id, _) => if Ripe(m, id) { EndKept(m, op, ok, n); }
    case _ =>
      TrimmedConsistent(m.v, n.v, {}, pending);
      assert pending + {} == pending;
  }

  /** No page of an unfinished flush goes while it differs from the disk. */
  ghost predicate NoneLost(m: Moment, n: Moment) {
    forall q :: q in PendingOf(m.flushes) && q in m.v.table && q !in n.v.table ==> Agrees(m.v, q, m.v.table[q].phys)
  }

  lemma LossExact(m: Moment, n: Moment, but: set<Record>)
    requires Neat(m) && Trimmed(m.v, n.v, but) && but <= n.v.table.Keys
    ensures Safe(m.v, n.v) <==> NoneLost(m, n)
  {
  }

  /** But for the ends of fills and flushes, an operation is harmless exactly if no unfinished flush loses a page. */
  lemma EvictExact(m: Moment, op: Op, ok: bool, n: Moment)
    requires Good(m) && Neat(m) && Did(m, op, ok, n) && !op.Finish? && !op.EndFlush?
    ensures Harmless(m, op, ok, n) <==> NoneLost(m, n)
  {
    match op
    case Write(key, offset, _) => LossExact(m, n, if ok then {Aligned(key, offset)} else {});
    case Copy(_, _, _, _) =>
    case BeginFlush(_, _, _, _) =>
    case Snapshot(_) =>
    case _ => LossExact(m, n, {});
  }

  /** A run: a moment before and after each operation. */
  ghost predicate Runs(trace: seq<Moment>, ops: seq<Op>, oks: seq<bool>) {
    && |oks| == |ops| && |trace| == |ops| + 1
    && (forall k :: 0 <= k <= |ops| ==> Good(trace[k]))
    && (forall k :: 0 <= k < |ops| ==>
          Did(trace[k], ops[k], oks[k], trace[k + 1]) && Inside(trace[k].v.sizes, ops[k]))
  }

  /** What a file holds after the writes among `ops` that succeeded, in a system without a cache. */
  ghost function Written(file: seq<byte>, key: Key, ops: seq<Op>, oks: seq<bool>): seq<byte>
    requires |ops| == |oks|
  {
    if ops == [] then file
    else
      var n := |ops| - 1;
      var before := Written(file, key, ops[..n], oks[..n]);
      if Intends(ops[n]).Some? && oks[n] && Intends(ops[n]).value.r.key == key then
        var c := Intends(ops[n]).value;
        WriteAt(before, c.r.off + c.at, c.data)
      else before
  }

  /** One operation, for the bytes of one file. */
  ghost function Changed(file: seq<byte>, key: Key, op: Op, ok: bool): seq<byte> {
    if Intends(op).Some? && ok && Intends(op).value.r.key == key then
      WriteAt(file, Intends(op).value.r.off + Intends(op).value.at, Intends(op).value.data)
    else file
  }

  lemma WrittenStep(file: seq<byte>, key: Key, ops: seq<Op>, oks: seq<bool>, k: nat)
    requires |ops| == |oks| && k < |ops|
    ensures Written(file, key, ops[..k + 1], oks[..k + 1])
            == Changed(Written(file, key, ops[..k], oks[..k]), key, ops[k], oks[k])
  {
    assert ops[..k + 1][..k] == ops[..k] && oks[..k + 1][..k] == oks[..k];
  }

  lemma ByteOfFile(v: View, r: Record, i: nat)
    requires InFile(v, r, i)
    ensures r.off + i < |Contents(v, r.key)| && Contents(v, r.key)[r.off + i] == PageByte(v, r, i)
  {
    assert (r.off + i) % PAGE == i;
  }

  lemma StepLength(m: Moment, op: Op, ok: bool, n: Moment)
    requires Good(m) && Did(m, op, ok, n)
    ensures n.v.sizes == m.v.sizes
  {
  }

  /** A step is right exactly when every file then holds what it should. */
  lemma RightContents(v: View, w: View, op: Op, ok: bool)
    requires Inside(v.sizes, op) && w.sizes == v.sizes
    ensures Right(v, w, op, ok) <==> forall key :: Contents(w, key) == Changed(Contents(v, key), key, op, ok)
  {
    if Right(v, w, op, ok) {
      forall key ensures Contents(w, key) == Changed(Contents(v, key), key, op, ok) {
        if Intends(op).Some? && ok {
          var c := Intends(op).value;
          WroteContents(v, w, c.r, c.at, c.data, key);
        } else {
          SameContents(v, w, key);
        }
      }
    }
    if forall key :: Contents(w, key) == Changed(Contents(v, key), key, op, ok) {
      forall q, i: nat | InFile(v, q, i) ensures PageByte(w, q, i) == ChangedByte(v, q, i, op, ok) {
        ByteOfFile(v, q, i);
        ByteOfFile(w, q, i);
        assert Contents(w, q.key) == Changed(Contents(v, q.key), q.key, op, ok);
        ChangedAt(v, q, i, op, ok);
      }
      BytesRight(v, w, op, ok);
    }
  }

  function ChangedByte(v: View, q: Record, i: nat, op: Op, ok: bool): byte {
    if Intends(op).Some? && ok && q == Intends(op).value.r
       && Intends(op).value.at <= i < Intends(op).value.at + |Intends(op).value.data| then
      Intends(op).value.data[i - Intends(op).value.at]
    else PageByte(v, q, i)
  }

  lemma ChangedAt(v: View, q: Record, i: nat, op: Op, ok: bool)
    requires Inside(v.sizes, op) && InFile(v, q, i)
    ensures q.off + i < |Changed(Contents(v, q.key), q.key, op, ok)|
    ensures Changed(Contents(v, q.key), q.key, op, ok)[q.off + i] == ChangedByte(v, q, i, op, ok)
  {
    ByteOfFile(v, q, i);
    if Intends(op).Some? && ok && Intends(op).value.r.key == q.key {
      var c := Intends(op).value;
      assert c.r.off + c.at <= q.off + i < c.r.off + c.at + |c.data| <==>
             q.off == c.r.off && c.at <= i < c.at + |c.data|;
    }
  }

  lemma BytesRight(v: View, w: View, op: Op, ok: bool)
    requires w.sizes == v.sizes
    requires forall q, i: nat :: InFile(v, q, i) ==> PageByte(w, q, i) == ChangedByte(v, q, i, op, ok)
    ensures Right(v, w, op, ok)
  {
  }

  /**
   * Transparency, exactly: every file holds at every moment of a run what the successful writes before it would have
   * put there without a cache, if and only if every step of the run is harmless.
   */
  lemma RunExact(trace: seq<Moment>, ops: seq<Op>, oks: seq<bool>)
    requires Runs(trace, ops, oks)
    ensures (forall k :: 0 <= k < |ops| ==> Harmless(trace[k], ops[k], oks[k], trace[k + 1])) <==>
            (forall k :: 0 <= k <= |ops| ==> Faithful(trace, ops, oks, k))
  {
    if forall k :: 0 <= k < |ops| ==> Harmless(trace[k], ops[k], oks[k], trace[k + 1]) {
      forall k | 0 <= k <= |ops| ensures Faithful(trace, ops, oks, k) {
        HarmlessRun(trace, ops, oks, k);
      }
    }
    if forall k :: 0 <= k <= |ops| ==> Faithful(trace, ops, oks, k) {
      forall k | 0 <= k < |ops| ensures Harmless(trace[k], ops[k], oks[k], trace[k + 1]) {
        var k1 := k + 1;
        assert Faithful(trace, ops, oks, k) && Faithful(trace, ops, oks, k1);
        FaithfulStep(trace, ops, oks, k);
      }
    }
  }

  /** At moment `k` every file holds what the writes have put there. */
  ghost predicate Faithful(trace: seq<Moment>, ops: seq<Op>, oks: seq<bool>, k: nat)
    requires Runs(trace, ops, oks) && k <= |ops|
  {
    forall key :: Contents(trace[k].v, key) == Written(Contents(trace[0].v, key), key, ops[..k], oks[..k])
  }

  /** From a faithful moment, the next one is faithful exactly when the step is harmless. */
  lemma FaithfulStep(trace: seq<Moment>, ops: seq<Op>, oks: seq<bool>, k: nat)
    requires Runs(trace, ops, oks) && k < |ops| && Faithful(trace, ops, oks, k)
    ensures Faithful(trace, ops, oks, k + 1) <==> Harmless(trace[k], ops[k], oks[k], trace[k + 1])
  {
    var m, n := trace[k], trace[k + 1];
    assert Did(m, ops[k], oks[k], n);
    StepLength(m, ops[k], oks[k], n);
    StepExact(m, ops[k], oks[k], n);
    RightContents(m.v, n.v, ops[k], oks[k]);
    forall key
      ensures Written(Contents(trace[0].v, key), key, ops[..k + 1], oks[..k + 1])
              == Changed(Contents(m.v, key), key, ops[k], oks[k])
    {
      WrittenStep(Contents(trace[0].v, key), key, ops, oks, k);
    }
  }

  lemma {:induction false} HarmlessRun(trace: seq<Moment>, ops: seq<Op>, oks: seq<bool>, k: nat)
    requires Runs(trace, ops, oks) && k <= |ops|
    requires forall j :: 0 <= j < k ==> Harmless(trace[j], ops[j], oks[j], trace[j + 1])
    ensures Faithful(trace, ops, oks, k)
  {
    if k == 0 {
    } else {
      HarmlessRun(trace, ops, oks, k - 1);
      FaithfulStep(trace, ops, oks, k - 1);
    }
  }

  /** While fills and flushes end well, clean pages hold what the disk holds, but for unfinished flushes. */
  lemma {:induction false} RunKept(trace: seq<Moment>, ops: seq<Op>, oks: seq<bool>, k: nat)
    requires Runs(trace, ops, oks) && k <= |ops| && Neat(trace[0])
    requires forall j :: 0 <= j < k ==> Kept(trace[j], ops[j], oks[j], trace[j + 1])
    ensures Neat(trace[k])
  {
    if k == 0 {
    } else {
      var j := k - 1;
      RunKept(trace, ops, oks, j);
      assert Did(trace[j], ops[j], oks[j], trace[j + 1]);
      StepKept(trace[j], ops[j], oks[j], trace[k]);
    }
  }

  /** A run goes on by one operation. */
  lemma RunsOn(trace: seq<Moment>, ops: seq<Op>, oks: seq<bool>, k: nat, ok: bool, n: Moment)
    requires k < |ops| && Runs(trace, ops[..k], oks) && Good(n)
    requires Did(trace[k], ops[k], ok, n) && Inside(trace[k].v.sizes, ops[k])
    ensures Runs(trace + [n], ops[..k + 1], oks + [ok])
  {
    var more, all, done := trace + [n], ops[..k + 1], oks + [ok];
    forall j | 0 <= j < k + 1 ensures Did(more[j], all[j], done[j], more[j + 1]) && Inside(more[j].v.sizes, all[j]) {
      if j < k {
        assert Did(trace[j], ops[..k][j], oks[j], trace[j + 1]) && Inside(trace[j].v.sizes, ops[..k][j]);
      }
    }
    forall j | 0 <= j <= k + 1 ensures Good(more[j]) {
      assert j <= k ==> Good(trace[j]);
    }
  }

  lemma RunEnds(trace: seq<Moment>, ops: seq<Op>, oks: seq<bool>)
    requires Runs(trace, ops, oks)
    ensures (forall k :: 0 <= k < |ops| ==> Harmless(trace[k], ops[k], oks[k], trace[k + 1])) ==>
              forall key :: Contents(trace[|ops|].v, key) == Written(Contents(trace[0].v, key), key, ops, oks)
  {
    if forall k :: 0 <= k < |ops| ==> Harmless(trace[k], ops[k], oks[k], trace[k + 1]) {
      HarmlessRun(trace, ops, oks, |ops|);
      assert ops[..|ops|] == ops && oks[..|ops|] == oks;
    }
  }
}
