// The sharded tables of the page cache as values: lookup, single-entry changes, and what they count.
module PageCacheState {
  import opened Wrappers

  const SHARDS: nat := 64

  datatype Key = Key(dev: nat, ino: nat)

  /** One page of one file; the clock queues hold these. */
  datatype Record = Record(key: Key, off: nat)

  datatype Entry = Entry(phys: nat, dirty: bool, referenced: bool)

  datatype InodeState = InodeState(pages: map<nat, Entry>, dirtyCount: nat)

  datatype Shard = Shard(inodes: map<Key, InodeState>, clock: seq<Record>)

  type Shards = s: seq<Shard> | |s| == SHARDS witness seq(SHARDS, i => Shard(map[], []))

  /** Multiplication and addition wrap at 64 bits. */
  function ShardIndex(key: Key): (s: nat)
    ensures s < SHARDS
  {
    (key.dev * 11400714819323198485 + key.ino * 2654435761) % 0x1_0000_0000_0000_0000 % SHARDS
  }

  function State(sh: Shards, key: Key): InodeState {
    var inodes := sh[ShardIndex(key)].inodes;
    if key in inodes then inodes[key] else InodeState(map[], 0)
  }

  predicate Cached(sh: Shards, r: Record) {
    r.off in State(sh, r.key).pages
  }

  function EntryOf(sh: Shards, r: Record): Entry
    requires Cached(sh, r)
  {
    State(sh, r.key).pages[r.off]
  }

  function Clock(sh: Shards, key: Key): seq<Record> {
    sh[ShardIndex(key)].clock
  }

  function DirtyOffs(pages: map<nat, Entry>): set<nat> {
    set o | o in pages && pages[o].dirty
  }

  /** Store an inode's state; an inode without pages is dropped. */
  function SetState(sh: Shards, key: Key, st: InodeState): Shards {
    var s := ShardIndex(key);
    var inodes := sh[s].inodes;
    sh[s := sh[s].(inodes := if st.pages == map[] then inodes - {key} else inodes[key := st])]
  }

  /** Set or remove one page, with the inode's counter following the dirty flags. */
  function ChangedInode(st: InodeState, off: nat, e: Option<Entry>): InodeState {
    var was := off in st.pages && st.pages[off].dirty;
    var less := if was && st.dirtyCount > 0 then st.dirtyCount - 1 else st.dirtyCount;
    match e
    case Some(entry) => InodeState(st.pages[off := entry], if entry.dirty then less + 1 else less)
    case None => InodeState(st.pages - {off}, less)
  }

  function Changed(sh: Shards, r: Record, e: Option<Entry>): Shards {
    SetState(sh, r.key, ChangedInode(State(sh, r.key), r.off, e))
  }

  function SetClock(sh: Shards, s: nat, clock: seq<Record>): Shards
    requires s < SHARDS
  {
    sh[s := sh[s].(clock := clock)]
  }

  /** All cached pages, whichever shard they are in. */
  type Table = map<Record, Entry>

  function DirtySet(t: Table): set<Record> {
    set r | r in t && t[r].dirty
  }

  function Apply(t: Table, r: Record, e: Option<Entry>): Table {
    if e.Some? then t[r := e.value] else t - {r}
  }

  /** Every inode lives in the shard its key selects, with at least one page. */
  ghost predicate Placed(sh: Shards) {
    forall s: nat, key :: Holding(sh, s, key) ==> ShardIndex(key) == s && sh[s].inodes[key].pages != map[]
  }

  predicate Holding(sh: Shards, s: nat, key: Key) {
    s < SHARDS && key in sh[s].inodes
  }

  /** Each inode's counter is its number of dirty pages. */
  ghost predicate DirtyCounted(sh: Shards) {
    forall key :: State(sh, key).dirtyCount == |DirtyOffs(State(sh, key).pages)|
  }

  ghost predicate Mirrors(sh: Shards, t: Table) {
    forall r {:trigger Cached(sh, r)} :: (r in t <==> Cached(sh, r)) && (r in t ==> t[r] == EntryOf(sh, r))
  }

  /** Every cached page has a record in its shard's clock. */
  ghost predicate Clocked(sh: Shards, t: Table) {
    forall r {:trigger Clock(sh, r.key)} :: r in t ==> r in Clock(sh, r.key)
  }

  /** Exact counters at both levels: per inode, and `global` over all cached pages. */
  ghost predicate Accounted(sh: Shards, t: Table, global: nat) {
    Placed(sh) && DirtyCounted(sh) && Mirrors(sh, t) && Clocked(sh, t) && global == |DirtySet(t)|
  }

  lemma SetStateLookup(sh: Shards, key: Key, st: InodeState, k: Key)
    requires st.pages == map[] ==> st.dirtyCount == 0
    ensures State(SetState(sh, key, st), k) == if k == key then st else State(sh, k)
    ensures Clock(SetState(sh, key, st), k) == Clock(sh, k)
  {
  }

  lemma SetStatePlaced(sh: Shards, key: Key, st: InodeState)
    requires Placed(sh)
    ensures Placed(SetState(sh, key, st))
  {
  }

  lemma DirtyOffsSet(pages: map<nat, Entry>, off: nat, entry: Entry)
    ensures DirtyOffs(pages[off := entry])
            == if entry.dirty then DirtyOffs(pages) - {off} + {off} else DirtyOffs(pages) - {off}
  {
  }

  lemma DirtyOffsRemove(pages: map<nat, Entry>, off: nat)
    ensures DirtyOffs(pages - {off}) == DirtyOffs(pages) - {off}
  {
  }

  /** The counter stays the number of dirty pages. */
  lemma ChangedInodeExact(st: InodeState, off: nat, e: Option<Entry>)
    requires st.dirtyCount == |DirtyOffs(st.pages)|
    ensures var next := ChangedInode(st, off, e); next.dirtyCount == |DirtyOffs(next.pages)|
  {
    var dirty := DirtyOffs(st.pages);
    assert off !in dirty ==> dirty - {off} == dirty;
    match e {
      case Some(entry) => DirtyOffsSet(st.pages, off, entry);
      case None => DirtyOffsRemove(st.pages, off);
    }
  }

  lemma ChangedState(sh: Shards, r: Record, e: Option<Entry>, k: Key)
    requires DirtyCounted(sh)
    ensures State(Changed(sh, r, e), k) == if k == r.key then ChangedInode(State(sh, k), r.off, e) else State(sh, k)
    ensures State(Changed(sh, r, e), k).dirtyCount == |DirtyOffs(State(Changed(sh, r, e), k).pages)|
    ensures Clock(Changed(sh, r, e), k) == Clock(sh, k)
  {
    var st := State(sh, r.key);
    ChangedInodeExact(st, r.off, e);
    var next := ChangedInode(st, r.off, e);
    assert next.pages == map[] ==> DirtyOffs(next.pages) == {};
    SetStateLookup(sh, r.key, next, k);
  }

  lemma ChangedMirrors(sh: Shards, t: Table, r: Record, e: Option<Entry>)
    requires DirtyCounted(sh) && Mirrors(sh, t)
    ensures Mirrors(Changed(sh, r, e), Apply(t, r, e))
  {
    var next, u := Changed(sh, r, e), Apply(t, r, e);
    forall q: Record ensures (q in u <==> Cached(next, q)) && (q in u ==> u[q] == EntryOf(next, q)) {
      ChangedState(sh, r, e, q.key);
      assert q in t <==> Cached(sh, q);
    }
  }

  /** A change keeps both levels of counters exact, if the page it adds is already in the clock. */
  lemma ChangedAccounted(sh: Shards, t: Table, global: nat, r: Record, e: Option<Entry>)
    requires Accounted(sh, t, global) && (e.Some? ==> r in Clock(sh, r.key))
    ensures Accounted(Changed(sh, r, e), Apply(t, r, e), |DirtySet(Apply(t, r, e))|)
    ensures forall k :: Clock(Changed(sh, r, e), k) == Clock(sh, k)
  {
    var next := Changed(sh, r, e);
    forall k
      ensures State(next, k).dirtyCount == |DirtyOffs(State(next, k).pages)|
      ensures Clock(next, k) == Clock(sh, k)
    {
      ChangedState(sh, r, e, k);
    }
    ChangedMirrors(sh, t, r, e);
    SetStatePlaced(sh, r.key, ChangedInode(State(sh, r.key), r.off, e));
  }

  lemma DirtySetPut(t: Table, r: Record, e: Entry)
    ensures DirtySet(t[r := e]) == if e.dirty then DirtySet(t) - {r} + {r} else DirtySet(t) - {r}
  {
  }

  lemma DirtySetDrop(t: Table, r: Record)
    ensures DirtySet(t - {r}) == DirtySet(t) - {r}
  {
  }

  lemma DirtySetApply(t: Table, r: Record, e: Option<Entry>)
    ensures r in DirtySet(t) <==> r in t && t[r].dirty
    ensures |DirtySet(Apply(t, r, e))| + (if r in DirtySet(t) then 1 else 0)
            == |DirtySet(t)| + if e.Some? && e.value.dirty then 1 else 0
  {
    assert r !in DirtySet(t) ==> DirtySet(t) - {r} == DirtySet(t);
    match e {
      case Some(entry) => DirtySetPut(t, r, entry);
      case None => DirtySetDrop(t, r);
    }
  }

  /** How the global counter must move. */
  lemma ChangedGlobal(sh: Shards, t: Table, global: nat, r: Record, e: Option<Entry>)
    requires Accounted(sh, t, global)
    ensures var st := State(sh, r.key);
            && (r in t <==> r.off in st.pages) && (r in t ==> t[r] == st.pages[r.off])
            && (r in t && t[r].dirty ==> st.dirtyCount > 0 && global > 0)
    ensures |DirtySet(Apply(t, r, e))| + (if r in t && t[r].dirty then 1 else 0)
            == global + if e.Some? && e.value.dirty then 1 else 0
  {
    assert r in t <==> Cached(sh, r);
    assert r in t && t[r].dirty ==> r.off in DirtyOffs(State(sh, r.key).pages);
    DirtySetApply(t, r, e);
  }

  lemma SetClockLookup(sh: Shards, s: nat, clock: seq<Record>)
    requires s < SHARDS
    ensures forall k :: State(SetClock(sh, s, clock), k) == State(sh, k)
    ensures forall k :: Clock(SetClock(sh, s, clock), k) == if ShardIndex(k) == s then clock else Clock(sh, k)
  {
  }

  lemma SetClockAccounted(sh: Shards, t: Table, global: nat, s: nat, clock: seq<Record>)
    requires Accounted(sh, t, global) && s < SHARDS
    requires forall r :: r in t && ShardIndex(r.key) == s ==> r in clock
    ensures Accounted(SetClock(sh, s, clock), t, global)
  {
    SetClockLookup(sh, s, clock);
    var next := SetClock(sh, s, clock);
    forall r: Record ensures (r in t <==> Cached(next, r)) && (r in t ==> t[r] == EntryOf(next, r)) {
      assert r in t <==> Cached(sh, r);
    }
  }

  /** A new record at the back of a clock. */
  lemma PushClockAccounted(sh: Shards, t: Table, global: nat, r: Record)
    requires Accounted(sh, t, global)
    ensures var s := ShardIndex(r.key);
            var next := SetClock(sh, s, sh[s].clock + [r]);
            Accounted(next, t, global) && r in Clock(next, r.key)
  {
    var s := ShardIndex(r.key);
    forall q | q in t && ShardIndex(q.key) == s ensures q in sh[s].clock + [r] {
      assert q in Clock(sh, q.key);
    }
    SetClockAccounted(sh, t, global, s, sh[s].clock + [r]);
    SetClockLookup(sh, s, sh[s].clock + [r]);
  }

  /** The pages of a file from offset `from` on are not cached any more. */
  function Without(t: Table, key: Key, from: nat): Table {
    map r | r in t && !(r.key == key && from <= r.off) :: t[r]
  }

  /** Forgetting a whole inode at once. */
  lemma ForgetAccounted(sh: Shards, t: Table, global: nat, key: Key)
    requires Accounted(sh, t, global)
    ensures var u := Without(t, key, 0);
            Accounted(SetState(sh, key, InodeState(map[], 0)), u, |DirtySet(u)|)
  {
    var none, u := InodeState(map[], 0), Without(t, key, 0);
    var next := SetState(sh, key, none);
    SetStatePlaced(sh, key, none);
    forall k
      ensures State(next, k).dirtyCount == |DirtyOffs(State(next, k).pages)|
      ensures Clock(next, k) == Clock(sh, k)
    {
      SetStateLookup(sh, key, none, k);
      assert k == key ==> DirtyOffs(State(next, k).pages) == {};
    }
    forall r: Record ensures (r in u <==> Cached(next, r)) && (r in u ==> u[r] == EntryOf(next, r)) {
      SetStateLookup(sh, key, none, r.key);
      assert r in t <==> Cached(sh, r);
    }
  }
}
