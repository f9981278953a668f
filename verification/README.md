# Verified model of the KontsnorOS kernel core

KontsnorOS is a small x86-64 kernel written in Rust. This project models the
parts of it whose correctness depends on state kept over many operations, and
proves what those operations keep.

| area | files |
|---|---|
| physical frames: bitmap, per-core caches, reference counts | FrameBitmap, FrameConservation, PhysicalMemory |
| copy-on-write address spaces over those frames | PageTree, CloneSteps, CloneLevels, PageTableFree, AddressSpaceClone |
| TCP receive reassembly and the reader that drains it | TcpReceive |
| sharded page cache, eviction, coalesced write-back | FileWrites, PageCacheState, CacheViews, Flushes, CacheRuns, PageCache, StaleFill |
| scheduler and sleep timers | SchedulerState, SchedulerSteps, SchedulerLaws, SleepTimers, Scheduler, IdleRange |
| wait queues, their listeners, vfork completion, ticket lock, reader-writer lock | WaitQueue, Listeners, Vfork, TicketLock, RwLock |
| region unmapping, paths and jails, the initial stack, checksums, pipes | UnmapRange, PathNames, Paths, PathLaws, UserStack, Checksum, Pipes |
| shared: cores, memory regions, bytes, sets, results | Machine, Regions, Bytes, Sets, Wrappers |

`dafny verify dfyconfig.toml` checks everything.

## Main results

- Fork and exit. After a clone of a user address space parent and child map, at
  every user page, the frame the parent mapped: read-only and copy-on-write where
  it could be written and is not shared, with the old flags elsewhere. They share
  no table, each reference count has risen by exactly the number of leaf slots, and
  no other address space is touched. Freeing the child gives every frame the count
  it had (`CloneParentPageTable`, `ClonedPage`, `ForkAndExit`). The allocator
  below it is the verified one, so these results hold down to the bitmap.
- Frame conservation. In every interleaving of the atomic steps of any cores the
  usable frames are the disjoint union of free, cached, live and in-transit
  frames, and `allocated_frames` counts the last three (`Interleave`). The word
  scan refines a bit scan (`Find`).
- Stream safety. Whatever order, duplication and overlap the segments of a
  stream arrive in, with FIN and RST among them, the bytes read and buffered are a
  prefix of it, and a reader at the end of file has all of it exactly when the FIN
  was in order (`Session`).
- Cache transparency, exactly. Over any run of lookups, writes, evictions and the
  parts of fills and flushes, whatever fails on the way, every file holds at every
  moment what the successful writes have put there if and only if every step is
  harmless (`Serve`, `RunExact`), and for each kind of step there is the exact
  condition (`StepExact`, `StepKept`, `EvictExact`). Counters are exact at both
  levels; two turns of a clock leave nothing evictable (`EvictCleanPages`); a
  coalesced flush leaves the disk as page-by-page writes would (`FlushAll`).
- Scheduling. No task is on two cores or resumed before its context is saved, and
  no ready task is lost, over any interleaving of scheduler steps (`NextSound`);
  the class refines those steps (`Run`), each does what the policy says
  (`ScheduledMeans`, `PickMeans`), and a preempted task is ready and queued again
  once its context is saved (`Preempted`).
- Wake-ups. A sleeper, by wait or by register, is always queued, stays so until a
  locked wake-up pops it, and has missed none (`Reachable`, `SleeperStays`,
  `NoLostWakeup`); waitpid misses no exit of a child (`NoLostExit`). Through a
  graph of listeners without cycles a wake-up reaches exactly the sleepers in its
  reach (`WakeAllLocked`).
- Locks. Exclusion over every interleaving (`Exclusion`, for both locks); whoever
  waits for the ticket lock gets in after four steps at most of each CPU before it
  (`Served`).
- Paths. What one more component does to the normal form of any path, with and
  without a jail (`NameDescends`, `DotsClimb`, `JailedDotsClimb`).

## Where the code falls short of what it promises

Each of these is a concrete failure and an exact condition, proved in both
directions. The code is modelled as it is.

- `allocate_contiguous_frames` takes at most 32 frames but stores a reference for
  every frame requested. Safe exactly up to 32 (`ContiguousExact`,
  `ContiguousClamp`).
- The search for contiguous frames jumps over frame 0 when the last frame is free.
  It fails exactly when there is no run, or only one at frame 0 while the last
  frame is free and the hint is not 0 (`FindRun`, `RunSkipped`).
- `increment_ref` wraps. Safe exactly on counts 1 to 254 (`IncrementExact`,
  `IncrementWraps`).
- `decrement_ref` never returns the frame. It leaks exactly on the last reference
  (`DecrementExact`, `DecrementLeaks`).
- A FIN in the Established state is taken at whatever position the stream has
  reached. It marks the true end exactly when its segment is in order and fits
  (`ProcessEstablished`, `Session`, `EarlyFin`).
- A miss fill reads without the shard lock. Its commit leaves every file as it was
  exactly when the page has been cached meanwhile, or the disk still holds the
  bytes of the page, below the file size, that it held at the read (`EndFill`,
  `Overtaken`).
- A flush clears the dirty flag, releases the lock, and only then copies the frame
  and writes. In between the page counts as clean. Evicting it loses a write
  exactly if its frame differs from the disk, and the write of the flush is
  noticed exactly if a page under it that differs from the disk is no longer
  cached (`EvictExact`, `PutShows`, `LostWrite`). A write that falls between the
  copy and the end leaves a clean page that is not on disk, exactly if the flush
  does not land (`PutLands`, `LateCopy`).
- The merged write assumes that no page has dropped out of its run. It is right
  exactly when there is no gap below the file size (`MergeExact`,
  `GapMisplaces`).
- PIDs count up from 2 and never skip the idle range. Adding a task can be followed
  by a run that puts a task on two cores or loses one exactly when its PID is in
  900 to 931 (`AddExact`, `IdleCollision`).
- A preempted task goes to the queue of its priority, unless it is flagged as
  queued. It is in that queue afterwards exactly if it was not flagged or was in it
  before (`Preempted`, `Misqueued`).
- `KRwLock` is documented to hold new readers back while a writer waits. It does so
  exactly until some writer's drop lowers the one flag they share (`ReadersBackOff`,
  `FlagExact`, `PriorityLost`).
- `wake_all` has a fast path outside the scheduler lock. It loses a waiter exactly
  when that waiter has passed its sequence check and not yet raised the count
  (`FastPathExact`, `LostWakeup`). A vfork parent hangs exactly that way, and never
  when the child exits under the lock (`HangExact`, `Hangs`); otherwise it returns
  (`Returns`, `SlowWakes`).
- `unmap_range` stops after a split. That loses nothing exactly when no region
  behind the split meets the range, which disjoint regions guarantee
  (`UnmapExact`, `BreakLeaves`, `DisjointSafe`).
- `normalize_jailed` is documented to keep any path inside the root. Alone it does
  so exactly when the path has fewer names than the root or begins with the
  root's names (`JailedExact`, `JailNeedsPrefix`); the resolver only ever hands it
  such paths (`JailHolds`).

## Decisions

- A frame is named by its index, that is its address shifted right by 12. Reserved
  frames are a parameter: the memory map is not modelled.
- Concurrency is interleaving of atomic steps. A step is what the source does
  under one lock or in one atomic instruction. Frames between two such steps are
  `held` by the core.
- The four nested loops of the clone and of the free are one loop body per level,
  called recursively; the level is a parameter.
- `pos`, `at` and `base` of the TCP socket and `table` of the cache restate
  protocol state without wrap-around and without shards. The code's own fields are
  proved equal to them.
- Disk errors, short reads, allocation failures and lock contention are
  non-deterministic or parameters; the constant `faulty` of a cache says whether
  the first three can happen.
- A fill is two steps of a run, up to its read and from its commit on. A flush is
  three: clearing the flags, copying the frames, writing the copy. `EvictIn` is one
  shard's part of `Evict`, and `Lookup` and `Start` are the parts of `Begin`. A write
  is one step (`Write`) or, on a cached page, two (`MarkAsDirty`, `Copy`). The methods
  that do all parts at once state what happens with nothing in between.
- `Reached` folds `Progress` away behind a recursion, so that the loops of the clone
  carry it without unfolding it.
- Bytes are numbers below 256 and paths are sequences of characters.

## Model

| member | source | states |
|---|---|---|
| `FrameBitmap.FirstFreeIsScan` | kernel/src/memory/physical.rs:170-226 | the frame described as "free, and every frame from the hint up to it, cyclically, is used" is the one a plain bit-by-bit cyclic scan returns |
| `FrameBitmap.WordScan` | kernel/src/memory/physical.rs:178-208 | one masked 64-bit word decides exactly the frames from the middle of the word to its end: all used, or the first free one is the count of trailing zeros of the complement |
| `FrameBitmap.HintScanIsLowest` | kernel/src/memory/physical.rs:170-226 | while no frame below the hint is free, the cyclic scan returns the lowest free frame, and that stays so after the allocation |
| `FrameBitmap.FrameAllocator.constructor` | kernel/src/memory/physical.rs:129-140 | a fresh allocator marks exactly the reserved frames, counts the others and starts its hint at zero |
| `FrameBitmap.ClampedCount` | kernel/src/memory/physical.rs:237-237 | a contiguous request is for 32 frames at most |
| `FrameBitmap.FrameAllocator.Find` | kernel/src/memory/physical.rs:170-226 | the word-at-a-time search with a hint in mid-word refines the plain cyclic scan; None exactly when every frame is used |
| `FrameBitmap.FrameAllocator.Allocate` | kernel/src/memory/physical.rs:170-226 | allocation changes one bit, that of the frame the plain scan returns, counts it, moves the hint behind it, and returns the lowest free frame as long as none is free below the hint |
| `FrameBitmap.RunSkipped` | kernel/src/memory/physical.rs:229-288 | bitmaps whose only run is at frame 0 and is skipped by the search exist for every length and every hint but 0 |
| `FrameBitmap.FrameAllocator.FullFrom` | kernel/src/memory/physical.rs:241-259 | a word whose frames from the index on are all used is skipped whole; otherwise one of them is free |
| `FrameBitmap.FrameAllocator.FreeLength` | kernel/src/memory/physical.rs:262-272 | how many of the frames wanted are free, up to the first used one or the end of memory |
| `FrameBitmap.FrameAllocator.FindRun` | kernel/src/memory/physical.rs:229-288 | a run found is the first one from the hint on, cyclically, but for one at frame 0 that is skipped; none is found exactly when there is none, or only one at frame 0 while the last frame is free and the hint is not 0 |
| `FrameBitmap.FrameAllocator.AllocateContiguous` | kernel/src/memory/physical.rs:229-288 | a contiguous allocation takes exactly the first free run from the hint on, of the clamped length, or changes nothing; it fails exactly when the search finds no run |
| `FrameBitmap.FrameAllocator.Deallocate` | kernel/src/memory/physical.rs:291-302 | freeing clears one bit and lowers the hint so that no free frame lies below it; frames out of range or already free are ignored |
| `FrameConservation.AllocatedSizes` | kernel/src/memory/physical.rs:111-127 | the usable frames are the disjoint union of free, cached, live and in-transit frames, and the allocated counter is the size of the last three |
| `FrameConservation.RecountExact` | kernel/src/memory/physical.rs:50-87 | a reference count may be set to a value exactly when that does not change whether the frame is live |
| `FrameConservation.IncrementExact` | kernel/src/memory/physical.rs:51-56 | the wrapping u8 increment conserves frames exactly on counts 1 to 254 |
| `FrameConservation.DecrementExact` | kernel/src/memory/physical.rs:60-87 | the bare decrement leaks the frame exactly when it drops the last reference |
| `FrameConservation.IncrementWraps` | kernel/src/memory/physical.rs:51-56 | from a state with one live frame counted 255, the increment leaves a state that is not conserved |
| `FrameConservation.DecrementLeaks` | kernel/src/memory/physical.rs:60-87 | from a state with one live frame counted 1, the bare decrement leaves a state that is not conserved |
| `FrameConservation.TakeRun` | kernel/src/memory/physical.rs:229-288 | taking a free run out of the bitmap conserves the frames and counts them all |
| `FrameConservation.StoreExact` | kernel/src/memory/physical.rs:494-501 | storing a reference for frames that were not taken conserves the frames exactly when they were live |
| `FrameConservation.ContiguousExact` | kernel/src/memory/physical.rs:483-504 | storing a reference for every requested frame conserves the frames exactly when those past the clamp were live already |
| `FrameConservation.ContiguousClamp` | kernel/src/memory/physical.rs:483-504 | requests are safe in every state exactly up to the clamp of 32 frames |
| `PhysicalMemory.Memory.constructor` | kernel/src/memory/physical.rs:373-408 | after boot all usable frames are free, no cache holds one and none is counted |
| `PhysicalMemory.Memory.Spare` | kernel/src/memory/physical.rs:447-459 | a frame beyond the first goes on top of the cache, or back to the bitmap when fifteen are there |
| `PhysicalMemory.Memory.Refill` | kernel/src/memory/physical.rs:443-464 | an empty cache gets seven frames and the caller the first free one from the hint on, fewer only when the bitmap is exhausted; None exactly when nothing was free; other caches stay as they are |
| `PhysicalMemory.Memory.TakeFrame` | kernel/src/memory/physical.rs:425-469 | the top of the cache, else the first free frame with a refill, past core 31 the bitmap alone: None exactly when both sources are empty, and the frame was owned by nobody |
| `PhysicalMemory.Memory.StoreRef` | kernel/src/memory/physical.rs:471-478 | the first reference turns a frame in transit into a live one |
| `PhysicalMemory.Memory.AllocateFrame` | kernel/src/memory/physical.rs:425-478 | a new frame had no reference and now has one; it is the one on top of the core's cache, else the first free one from the hint on; no other count changes; failure changes nothing |
| `PhysicalMemory.Memory.IncrementRef` | kernel/src/memory/physical.rs:51-56 | the count goes up by one modulo 256, nothing happens out of range, and the frames stay conserved exactly on counts 1 to 254 |
| `PhysicalMemory.Memory.DecrementRef` | kernel/src/memory/physical.rs:60-87 | the count goes down, but not below zero, and the frames stay conserved exactly when that was not the last reference |
| `PhysicalMemory.Memory.DropRef` | kernel/src/memory/physical.rs:514-540 | exactly the drop of the last reference reclaims the frame; a frame without references is left alone |
| `PhysicalMemory.Memory.Spill` | kernel/src/memory/physical.rs:552-558 | the top frames of a cache go to the bitmap, the rest of the cache stays |
| `PhysicalMemory.Memory.ReturnFrame` | kernel/src/memory/physical.rs:542-569 | a reclaimed frame ends on top of the core's cache, of which a full one has kept its lower half; past core 31 it goes to the bitmap |
| `PhysicalMemory.Memory.DeallocateFrame` | kernel/src/memory/physical.rs:514-569 | one reference is dropped; only the last one puts the frame on the core's cache, past core 31 into the bitmap, and otherwise nothing but the count changes |
| `PhysicalMemory.Memory.DrainLocalCache` | kernel/src/memory/physical.rs:582-593 | the core's cache is emptied into the bitmap and no frame is lost |
| `PhysicalMemory.Memory.AllocateContiguousFrames` | kernel/src/memory/physical.rs:483-504 | a run of up to 32 frames that had no reference is taken, every frame asked for gets one, and the frames stay conserved exactly when those past the clamp had one; fails exactly when the search finds no run |
| `PhysicalMemory.Memory.ReserveRun` | kernel/src/memory/physical.rs:488-492 | under the bitmap lock the clamped run comes into the hands of the caller, or nothing changes |
| `PhysicalMemory.Memory.StoreRun` | kernel/src/memory/physical.rs:494-501 | store by store, without the lock, each frame of the run becomes live |
| `PhysicalMemory.Memory.StorePast` | kernel/src/memory/physical.rs:494-501 | the stores past the run conserve the frames exactly when all those frames were live |
| `PhysicalMemory.PerformMove` | kernel/src/memory/physical.rs:425-593 | what a take, return, drain or reservation does to bitmap, caches and frames in transit |
| `PhysicalMemory.PerformCount` | kernel/src/memory/physical.rs:51-87 | what a store, share, unshare or drop does to the counts and the frames in transit |
| `PhysicalMemory.Perform` | kernel/src/memory/physical.rs:425-593 | each step does what it is to do if it is allowed, and nothing otherwise |
| `PhysicalMemory.Interleave` | kernel/src/memory/physical.rs:425-593 | the states passed through are joined by the steps, one by one; after any interleaving of the atomic parts of allocations, contiguous requests, sharings, frees and drains by any cores the frames are conserved and counted exactly; without contiguous requests the bitmap always hands out its lowest free frame |
| `PageTree.TreeFrame` | kernel/src/memory/virtual.rs:252-404 | a page-table tree depends on its own tables only, and not on their flags |
| `CloneSteps.LeafCopy` | kernel/src/memory/virtual.rs:346-392 | sharing one leaf extends a partial clone by one slot, with the reference count it needs |
| `CloneSteps.SlotSkip` | kernel/src/memory/virtual.rs:268-275 | a slot that is unused or belongs to the kernel may be skipped |
| `CloneLevels.DownStep` | kernel/src/memory/virtual.rs:277-345 | a finished clone of the table under a slot extends the clone one level up by that slot |
| `CloneLevels.DownRefs` | kernel/src/memory/virtual.rs:277-391 | at every level each reference count has risen by the number of leaf slots copied so far, and by one for each new table |
| `AddressSpaceClone.ClonedLookup` | kernel/src/memory/virtual.rs:252-404 | a finished clone of a table of any level, path by path: what child and parent map there, given what the parent mapped |
| `AddressSpaceClone.WalkLookup` | kernel/src/memory/virtual.rs:346-353 | following four present entries from the root reads, in the user half, exactly the entry the clone visits under these four indices |
| `AddressSpaceClone.PageAddr` | kernel/src/memory/virtual.rs:350-353 | the page of slots i, j, k, l has address i*2^39 + j*2^30 + k*2^21 + l*2^12 |
| `AddressSpaceClone.ClonedPage` | kernel/src/memory/virtual.rs:346-392 | that page after the clone: unmapped in both tables if it was unmapped; otherwise both entries are equal and keep frame, present, huge and the other flags, and are not writable and marked copy-on-write exactly if the old entry was writable or so marked and no shared region contains the address, else they are the old entry; pages of the kernel root outside all regions are not passed on |
| `AddressSpaceClone.ForkPages` | kernel/src/memory/virtual.rs:252-404 | this holds for every user page at once, the child root has the kernel's entries in the kernel slots, the parent root keeps its own |
| `AddressSpaceClone.ForkDone` | kernel/src/memory/virtual.rs:252-404 | a finished clone of all root slots is a fork: translations, disjoint tables, exact counts |
| `AddressSpaceClone.ForkCounts` | kernel/src/memory/virtual.rs:252-404 | after a fork each count has risen by exactly what the child's tree holds of that frame |
| `AddressSpaceClone.ForkReleasable` | kernel/src/memory/virtual.rs:637-713 | a forked child can always be freed without meeting a bad entry |
| `AddressSpaceClone.ForkReleased` | kernel/src/memory/virtual.rs:637-713 | freeing the child gives every frame the reference count it had before the fork |
| `AddressSpaceClone.PageTables.NewTable` | kernel/src/memory/virtual.rs:277-282 | a new table is a frame that had no reference, all of its slots unused |
| `AddressSpaceClone.PageTables.ShareLeaf` | kernel/src/memory/virtual.rs:378-391 | both tables get the entry and the frame one more reference |
| `AddressSpaceClone.PageTables.CloneLeaf` | kernel/src/memory/virtual.rs:346-392 | one turn of the innermost loop extends the clone by one slot, or reports a frame that is invalid in the parent |
| `AddressSpaceClone.PageTables.CloneDirectory` | kernel/src/memory/virtual.rs:277-345 | one turn of an outer loop clones the table under a slot; out of frames only when the bitmap is exhausted |
| `AddressSpaceClone.PageTables.CloneTable` | kernel/src/memory/virtual.rs:296-394 | the loop over a table clones every user slot |
| `AddressSpaceClone.PageTables.CreateUserPageTable` | kernel/src/memory/virtual.rs:220-247 | a new root has exactly the kernel's entries and maps no user page |
| `AddressSpaceClone.PageTables.FreeSlot` | kernel/src/memory/virtual.rs:689-710 | freeing a slot drops one reference for its leaf, or everything its table holds |
| `AddressSpaceClone.PageTables.FreeTable` | kernel/src/memory/virtual.rs:637-727 | freeing a tree drops exactly the references the tree holds, each table once |
| `AddressSpaceClone.PageTables.CloneParentPageTable` | kernel/src/memory/virtual.rs:252-404 | the whole clone: at every user page, with its address written out, parent and child map the old frame, read-only and marked copy-on-write exactly where it could be written and is not shared, otherwise with the old flags; kernel slots are the kernel's; counts rise by the number of leaf slots, no table is shared, every other live table is untouched |
| `AddressSpaceClone.PageTables.ForkAndExit` | kernel/src/process/task.rs:183-202 | forking and dropping the child restores every reference count; the parent maps the same pages to the same frames, copy-on-write where the fork made them so |
| `TcpReceive.WrapCompare` | kernel/src/net/tcp.rs:488-501 | positions less than 2^31 apart compare as their 32-bit sequence numbers do |
| `TcpReceive.ReachesExact` | kernel/src/net/tcp.rs:515-527 | the wrapped test on a queued entry holds exactly when the entry covers the next position, and the stale test exactly when it ends before it |
| `TcpReceive.QueueBytesRemove` | kernel/src/net/tcp.rs:591-591 | the bytes of a queue are those of one entry and of the rest |
| `TcpReceive.StaleExact` | kernel/src/net/tcp.rs:555-573 | once no entry reaches the next position, pruning separates exactly the accepted entries from those ahead |
| `TcpReceive.Socket.constructor` | kernel/src/net/socket.rs:67-94 | a new socket is closed, with nothing received |
| `TcpReceive.Socket.Connect` | kernel/src/syscall/net.rs:283-300 | a connecting socket has sent its SYN with number 1000 |
| `TcpReceive.Socket.Passive` | kernel/src/net/tcp.rs:372-393 | the child of a listener expects the byte after the SYN |
| `TcpReceive.Socket.Accept` | kernel/src/net/tcp.rs:505-508 | appended bytes are the next bytes of the stream |
| `TcpReceive.Socket.DrainOne` | kernel/src/net/tcp.rs:529-552 | the part of a queued entry past the next position is appended, or nothing changes when it does not fit |
| `TcpReceive.Socket.Prune` | kernel/src/net/tcp.rs:553-575 | only entries whose bytes have all been accepted are dropped, and what remains lies ahead |
| `TcpReceive.Socket.Drain` | kernel/src/net/tcp.rs:511-576 | the loop ends, appends only stream bytes in order, and leaves only entries ahead of the next position, or an entry that is next and does not fit the buffer |
| `TcpReceive.Socket.ReceiveInOrder` | kernel/src/net/tcp.rs:503-586 | in-order data is accepted whole if it fits and rejected whole otherwise |
| `TcpReceive.Socket.Enqueue` | kernel/src/net/tcp.rs:587-599 | future data is queued under its number within the queue's budget; an entry already there is kept |
| `TcpReceive.Socket.ReceiveOverlap` | kernel/src/net/tcp.rs:488-508 | of old data exactly the part past the next position is taken |
| `TcpReceive.Socket.ReceiveData` | kernel/src/net/tcp.rs:485-606 | a segment anywhere within 2^31: accepted, queued or ignored by its place, with no byte lost that fits |
| `TcpReceive.RcvWnd` | kernel/src/net/tcp.rs:441-443 | the window offered is the smaller of 65535 and the room left in the buffer |
| `TcpReceive.Socket.TakeFin` | kernel/src/net/tcp.rs:608-617 | a FIN takes one number and ends the connection's receiving half; payload or FIN is answered |
| `TcpReceive.Socket.TakeSegment` | kernel/src/net/tcp.rs:485-617 | payload and then FIN: bytes up to and past the next position are accepted if they fit, bytes ahead are queued if they fit, and the answer carries the next missing number |
| `TcpReceive.Socket.ProcessEstablished` | kernel/src/net/tcp.rs:473-617 | a reply exists exactly if there is payload or a FIN, with the socket's own next number, the number of the first missing byte (one more after a FIN) and the smaller of 65535 and the free room as window; data, FIN and RST keep the accepted bytes a prefix of the stream; a FIN ends the stream at its true end exactly when its segment is in order and fits |
| `TcpReceive.Socket.ProcessOther` | kernel/src/net/tcp.rs:446-637 | each state before and after data transfer: its next state, error, acknowledged and expected numbers, and the numbers of the reply if there is one |
| `TcpReceive.Socket.ProcessSegment` | kernel/src/net/tcp.rs:428-643 | over all states: bytes read and buffered never change their order, the position only moves forward; the replies of the Established state as above, those of the other states as in `ProcessOther`; the window in the reply is the one stored |
| `TcpReceive.Socket.Read` | kernel/src/net/socket.rs:128-222 | a read hands out the first buffered bytes; end of file only when all accepted bytes have been read; it sleeps or reports EAGAIN exactly when the buffer is empty in the other states; a window update is sent exactly when the buffer became empty or the window opened, passed half its range or grew by a quarter |
| `TcpReceive.Socket.Handle` | kernel/src/net/tcp.rs:473-643 | one segment or read of a run: bytes read only grow, the position after a FIN never moves, a read reports the end exactly when a FIN has come and the buffer is empty |
| `TcpReceive.Socket.Session` | kernel/src/net/tcp.rs:473-643 | after any run of segments of one stream (reordered, duplicated, overlapping, with FIN and RST) and reads: bytes read and buffered are a prefix of the stream, the next number is its length, plus one after a FIN, modulo 2^32, and a reader that has seen the end of file has the whole stream exactly when the FIN was in order and its segment fitted |
| `TcpReceive.EarlyFin` | kernel/src/net/tcp.rs:608-617 | a run in which a FIN overtakes the only byte of its stream: the reader sees the end of file and has got nothing |
| `FileWrites.MergedIsPagewise` | kernel/src/memory/page_cache.rs:849-882 | one merged write of adjacent pages, cut at the file size, leaves the file as single-page writes would |
| `FileWrites.GapMisplaces` | kernel/src/memory/page_cache.rs:829-865 | a page dropped from the middle of a run makes the merged write put later pages at wrong offsets |
| `FileWrites.MergeExact` | kernel/src/memory/page_cache.rs:829-865 | the merged write is right for all contents exactly when the run has no gap below the file size |
| `FileWrites.WriteAppend` | kernel/src/memory/page_cache.rs:862-865 | two writes of consecutive bytes are one write |
| `FileWrites.MergedAfter` | kernel/src/memory/page_cache.rs:818-886 | a merged run continues page-by-page writes |
| `PageCacheState.ShardIndex` | kernel/src/memory/page_cache.rs:85-90 | every inode has one of the shards, also when the product wraps |
| `PageCacheState.ChangedAccounted` | kernel/src/memory/page_cache.rs:106-228 | any change of one page keeps the inode counter, the global counter and the clock exact |
| `PageCacheState.ChangedGlobal` | kernel/src/memory/page_cache.rs:106-228 | no counter can go below zero: a dirty page is counted at both levels before it is uncounted |
| `PageCacheState.ForgetAccounted` | kernel/src/memory/page_cache.rs:176-187 | dropping a whole inode leaves exact counters |
| `CacheViews.TrimmedFiles` | kernel/src/memory/page_cache.rs:306-368 | when clean pages go, files stay as they were exactly if every one of these pages held what the disk holds |
| `CacheViews.TrimmedConsistent` | kernel/src/memory/page_cache.rs:306-368 | whatever pages go, the clean ones that stay still hold what the disk holds, but for those excepted before |
| `CacheViews.EvictedShows` | kernel/src/memory/page_cache.rs:306-368 | an eviction goes unnoticed exactly if the pages that go hold what the disk holds; if all clean pages do, it does |
| `CacheViews.InsertShows` | kernel/src/memory/page_cache.rs:512-543 | adding a page changes what files read as exactly when its frame differs from the disk below the file size |
| `CacheViews.DropShows` | kernel/src/memory/page_cache.rs:159-173 | so does dropping one |
| `CacheViews.CopyAgrees` | kernel/src/memory/page_cache.rs:462-543 | a frame that holds a page as it was read agrees with the disk exactly when the disk still holds those bytes below the file size |
| `CacheViews.FlyingKept` | kernel/src/memory/page_cache.rs:462-543 | the frames of unfinished fills stay private and keep what they have read through every operation that keeps private frames |
| `CacheViews.WroteContents` | kernel/src/fs/ext/file.rs:1842-1848 | a write inside one page of a file is a write to the bytes of that file, and to no other |
| `CacheViews.TwoTurns` | kernel/src/memory/page_cache.rs:306-368 | a clock turned twice has no clean unmapped page left in its shard |
| `CacheViews.HandMoves` | kernel/src/memory/page_cache.rs:313-355 | each step of the clock clears a reference bit in the first turn or evicts in the second |
| `CacheViews.RunFlushed` | kernel/src/memory/page_cache.rs:829-885 | a run written after other runs leaves the disk as page-by-page writes of all of them |
| `PageCache.ReadPage` | kernel/src/memory/page_cache.rs:462-504 | short reads are repeated until the end of the file, the rest of the page is zero |
| `PageCache.RunLength` | kernel/src/memory/page_cache.rs:820-827 | the longest run of adjacent offsets, at most 32 |
| `PageCache.Cache.constructor` | kernel/src/memory/page_cache.rs:46-83 | an empty cache shows the disk |
| `PageCache.Cache.Recount` | kernel/src/memory/page_cache.rs:216-228 | both counters follow a change of the dirty flag |
| `PageCache.Cache.AddPage` | kernel/src/memory/page_cache.rs:106-128 | a new page is counted and has a clock record |
| `PageCache.Cache.DropPage` | kernel/src/memory/page_cache.rs:159-173 | a dropped page is uncounted at both levels |
| `PageCache.Cache.Get` | kernel/src/memory/page_cache.rs:93-104 | a hit sets the reference bit, no file changes |
| `PageCache.Cache.MarkDirty` | kernel/src/memory/page_cache.rs:216-228 | exactly a cached page becomes dirty, no file changes |
| `PageCache.Cache.InsertOrGet` | kernel/src/memory/page_cache.rs:132-156 | the first frame wins, a later one is reported and not inserted; files stay as they were exactly if the page was there or its frame agrees with the disk |
| `PageCache.Cache.Insert` | kernel/src/memory/page_cache.rs:106-128 | the page maps to the new frame, with exact counters |
| `PageCache.Cache.Remove` | kernel/src/memory/page_cache.rs:159-173 | the page is gone and uncovers the disk; files stay as they were exactly if it was not cached or agreed with the disk |
| `PageCache.Cache.TruncateInode` | kernel/src/memory/page_cache.rs:190-213 | of the inode's pages exactly those that start below the size stay, all other inodes' stay, all with the same entries; the frames of the others lose one reference; bytes below the size are as before |
| `PageCache.Cache.InvalidateInode` | kernel/src/memory/page_cache.rs:176-187 | exactly the inode's pages go, the others stay with the same entries, and the frames of those that go lose one reference |
| `PageCache.Cache.EvictStep` | kernel/src/memory/page_cache.rs:315-356 | the front page goes exactly when it is clean, unmapped and unreferenced; a clean unmapped one loses its reference bit; a record whose page stays goes to the back, any other is forgotten; the frame of a page that goes loses one reference |
| `PageCache.Cache.EvictShard` | kernel/src/memory/page_cache.rs:309-357 | evicts only clean unmapped pages, releases exactly their frames, and stops below the target only when its shard has none left |
| `PageCache.Cache.EvictShards` | kernel/src/memory/page_cache.rs:306-368 | the loop over the shards: the same for all of them |
| `PageCache.Cache.EvictCleanPages` | kernel/src/memory/page_cache.rs:306-368 | evicts only clean unmapped pages; files stay as they were exactly if these pages agree with the disk; returns less than the target only when no such page is left |
| `PageCache.Cache.ObtainFrame` | kernel/src/memory/page_cache.rs:448-454 | a frame that no page uses, after an eviction if need be; without faults none exactly when no frame is left; apart from it exactly the frames of evicted pages are released |
| `PageCache.Cache.CommitFill` | kernel/src/memory/page_cache.rs:512-549 | the filled frame is inserted clean unless another one came first; every file stays as it was exactly if one did, or the frame agrees with the disk |
| `PageCache.Cache.KeepFirst` | kernel/src/memory/page_cache.rs:520-530 | the page that came first stays, and the new frame loses its reference |
| `PageCache.Cache.ReadFrame` | kernel/src/memory/page_cache.rs:447-510 | a private frame holds the page as the disk has it, or the fill fails; clean pages may have gone, and nothing else has changed |
| `PageCache.Cache.FillPage` | kernel/src/memory/page_cache.rs:447-549 | a miss with nothing between read and commit: the page comes in clean as the disk has it, or an error that leaks no frame |
| `PageCache.Cache.GetPage` | kernel/src/memory/page_cache.rs:423-550 | with nothing between read and commit: a hit, or the page comes in as the disk has it, or an error; clean pages may have gone, and nothing else has changed |
| `PageCache.Cache.StartFill` | kernel/src/memory/page_cache.rs:447-510 | the read of a fill: under way with its frame, or failed without leaking one; without faults it fails only when no frame is left |
| `PageCache.Cache.BeginFill` | kernel/src/memory/page_cache.rs:423-510 | a hit, or a fill that has read its page and not committed it; clean pages may have gone, and nothing else has changed |
| `PageCache.Cache.EndFill` | kernel/src/memory/page_cache.rs:512-549 | committed after any other operations, a fill leaves every file as it was exactly if the page has been cached meanwhile or the disk holds, below the file size, the bytes it held at the read |
| `PageCache.Cache.IsStale` | kernel/src/memory/page_cache.rs:512-549 | whether that condition fails can be told before the commit from cache, frame and disk |
| `PageCache.Cache.GetOrCreatePage` | kernel/src/memory/page_cache.rs:423-550 | hit or miss, the page is cached at the returned frame; files stay as they were exactly if the pages that go agree with the disk, which they do if all clean pages do |
| `PageCache.Cache.CommitDirty` | kernel/src/memory/page_cache.rs:600-632 | the page is dirty at the returned frame, no other page changes; files stay as they were exactly if it was cached or its frame agrees with the disk |
| `PageCache.Cache.FreshPage` | kernel/src/memory/page_cache.rs:584-633 | a page made without reading is dirty, and zero unless the caller overwrites it; clean pages may have gone, and no other page has changed |
| `PageCache.Cache.GetOrCreateForWrite` | kernel/src/memory/page_cache.rs:555-638 | the page is dirty and cached; unless reading was skipped inside the file, files stay as they were exactly if the pages that go agree with the disk |
| `PageCache.Cache.PageForWrite` | kernel/src/memory/page_cache.rs:555-638 | for an aligned offset: the page is dirty and cached, as it was, as the disk has it, or zero; clean pages may have gone, and no other page has changed |
| `PageCache.Cache.WriteDirect` | kernel/src/memory/page_cache.rs:685-702 | a write that succeeds replaces exactly its bytes, one that fails disturbs no others |
| `PageCache.Cache.ClearRun` | kernel/src/memory/page_cache.rs:829-846 | exactly the dirty flags of a run are cleared; the pages that were dirty and their frames are collected in order |
| `PageCache.Cache.Gather` | kernel/src/memory/page_cache.rs:850-860 | the frames are copied one after the other |
| `PageCache.Cache.Restore` | kernel/src/memory/page_cache.rs:866-880 | after an error exactly the pages of the flush that are still cached are dirty again, and for a single page only at the frame it had |
| `PageCache.Cache.PutPages` | kernel/src/memory/page_cache.rs:850-866 | one write of all pages, cut at the file size, or an error that disturbs no other bytes |
| `PageCache.Cache.FlushRun` | kernel/src/memory/page_cache.rs:829-883 | with nothing in between, a run is written whole and clean, or still dirty, and files stay as they were |
| `PageCache.Cache.FlushPage` | kernel/src/memory/page_cache.rs:646-705 | with nothing in between, a dirty page is written, cut at the file size, and clean; on an error it is dirty as before |
| `PageCache.Cache.FlushStep` | kernel/src/memory/page_cache.rs:819-886 | one run more is on disk as page-by-page writes would have put it |
| `PageCache.Cache.FlushAll` | kernel/src/memory/page_cache.rs:799-887 | with nothing in between, success: the disk is as page-by-page writes of all dirty pages would leave it; error: exactly the pages of the runs before the failed one are clean |
| `PageCache.Cache.BeginFlush` | kernel/src/memory/page_cache.rs:829-846 | the first part of a flush: exactly the dirty flags of the run are cleared, its dirty pages and their frames are remembered, no file changes |
| `PageCache.Cache.Snapshot` | kernel/src/memory/page_cache.rs:848-860 | the second part: the remembered frames are copied, whoever has them by now |
| `PageCache.Cache.EndFlush` | kernel/src/memory/page_cache.rs:862-881 | the last part: the copy is written, and files stay as they were exactly if every page under it that differs from the disk is cached; after an error the flags are set again |
| `PageCache.Cache.HasDirtyPages` | kernel/src/memory/page_cache.rs:270-272 | the global counter tells whether any cached page is dirty |
| `PageCache.Cache.HasDirtyPagesForInode` | kernel/src/memory/page_cache.rs:291-302 | the inode counter tells whether any of its pages is dirty |
| `PageCache.Cache.Perform` | kernel/src/memory/page_cache.rs:93-888 | each operation of a run does what `Did` says of it, down to the parts of fills and flushes between which no lock is held |
| `PageCache.Cache.Serve` | kernel/src/memory/page_cache.rs:93-888 | any run of lookups, writes, evictions and parts of fills and flushes, in any order, whatever fails: a moment before and after each operation, and if every step is harmless every file holds what the successful writes alone would have put there |
| `PageCache.Cache.WritePage` | kernel/src/fs/ext/file.rs:1825-1848 | a write inside one page of a file: on success its bytes are there and the page is dirty; no other byte changes, exactly if the pages that go agree with the disk |
| `PageCache.Cache.CopyBytes` | kernel/src/fs/ext/file.rs:1838-1848 | the copy alone, into a page that is still cached at the frame it was made ready with |
| `Flushes.PutShows` | kernel/src/memory/page_cache.rs:848-866 | the write of a flush goes unnoticed exactly if every page under it that differs from the disk is cached |
| `Flushes.PutLands` | kernel/src/memory/page_cache.rs:848-866 | after it, clean pages of no other flush hold what the disk holds exactly if those under the write have the bytes written and the others of the flush those of the disk |
| `Flushes.EndsWell` | kernel/src/memory/page_cache.rs:646-705 | both hold if each page is still cached at its frame, with the bytes copied or with newer ones that are marked |
| `Flushes.FailShows` | kernel/src/memory/page_cache.rs:866-880 | a failed write goes unnoticed if every page under it is cached |
| `Flushes.FailLands` | kernel/src/memory/page_cache.rs:866-880 | and leaves the cache as consistent as before the flush if these pages are marked dirty again |
| `CacheRuns.StepExact` | kernel/src/memory/page_cache.rs:93-888 | after an operation readers see what they saw, and what it was to write, exactly if it is harmless: the pages that go agree with the disk, a committed fill is unchanged, the write of a flush is hidden |
| `CacheRuns.StepKept` | kernel/src/memory/page_cache.rs:93-888 | clean pages of no unfinished flush still hold what the disk holds exactly if fills are unchanged, flushes land, and copies go to pages that are dirty or about to be written |
| `CacheRuns.EvictExact` | kernel/src/memory/page_cache.rs:306-888 | as long as that is so, every operation but the end of a fill or a flush is harmless exactly if no unfinished flush loses a page that differs from the disk |
| `CacheRuns.RunExact` | kernel/src/memory/page_cache.rs:93-888 | over every run: every file holds at every moment what the writes before it have put there if and only if every step is harmless |
| `CacheRuns.RunKept` | kernel/src/memory/page_cache.rs:93-888 | over every run whose fills and flushes end well, clean pages of no unfinished flush hold what the disk holds |
| `StaleFill.Overtaken` | kernel/src/memory/page_cache.rs:439-549 | a run of the cache from its start (read a page, write it, flush, evict, commit the old read) after which a clean page shows the old byte |
| `StaleFill.LostWrite` | kernel/src/memory/page_cache.rs:646-688 | a run of the cache from its start (write a page, clear its flag for a flush, evict it, read it) after which the written byte is gone |
| `StaleFill.LateCopy` | kernel/src/memory/page_cache.rs:646-688 | a run (write, clear, copy the frame, write again, write the copy) after which a clean page differs from the disk, with no flush left to write it |
| `SchedulerState.RemoveSound` | kernel/src/process/scheduler.rs:207-245 | taking an entry from a queue keeps the invariant, with a ready task in the scheduler's hand |
| `SchedulerState.FirstFromMeans` | kernel/src/process/scheduler.rs:192-249 | what is picked is eligible, and nothing in a higher queue is; None means nothing is eligible |
| `SchedulerState.FirstInMeans` | kernel/src/process/scheduler.rs:192-249 | within a queue nothing before the picked entry is eligible |
| `SchedulerState.SwitchSound` | kernel/src/process/scheduler.rs:789-823 | a switch keeps every task on at most one core and loses none |
| `SchedulerState.ReleaseSound` | kernel/src/process/scheduler.rs:866-890 | a saved task may be released once it is queued, not runnable or idle |
| `SchedulerState.ReadySound` | kernel/src/process/scheduler.rs:331-354 | a queued task may be made ready |
| `SchedulerState.AddSound` | kernel/src/process/scheduler.rs:510-532 | a new task outside the idle range keeps the invariant |
| `SchedulerState.StopSound` | kernel/src/process/scheduler.rs:321-327 | so does a task that blocks or exits |
| `SchedulerState.StaySound` | kernel/src/process/scheduler.rs:754-787 | so does a current task that goes on running |
| `SchedulerState.BootSound` | kernel/src/process/scheduler.rs:922-959 | so does the boot thread that takes over a core from its idle task |
| `SchedulerSteps.ScanFirst` | kernel/src/process/scheduler.rs:192-249 | the scan of a queue takes the first entry that is eligible, or none if none is |
| `SchedulerSteps.PickFirst` | kernel/src/process/scheduler.rs:192-249 | the scan of all queues takes the first eligible entry of the highest queue that has one |
| `SchedulerSteps.ScheduledSound` | kernel/src/process/scheduler.rs:704-863 | rescheduling a core keeps the invariant, whatever locks are taken |
| `SchedulerSteps.ScheduledMeans` | kernel/src/process/scheduler.rs:704-863 | the core then runs exactly the task the policy names: the pick, else the current task if runnable, else the idle task. If that is another task it is Running, the one that leaves is Ready if it was Running and keeps its state otherwise, and the suspending slot holds it; if the core keeps its task, the task is Running when there was nothing to pick and its lock was free, and unchanged otherwise. No other state, no priority, group or idle mark and no other slot changes |
| `SchedulerSteps.DemotedSound` | kernel/src/process/scheduler.rs:252-294 | a task that loses a priority at the end of its quantum keeps the invariant |
| `SchedulerSteps.SavedSound` | kernel/src/process/scheduler.rs:866-908 | releasing a saved task keeps the invariant |
| `SchedulerSteps.BoostQueued` | kernel/src/process/scheduler.rs:296-318 | a boost moves entries between queues and loses none |
| `SchedulerSteps.BoostedMeans` | kernel/src/process/scheduler.rs:296-318 | exactly the ready tasks in queues 2 and 3 that are not idle and whose lock is free leave those queues for queue 1 and get priority 1; every other entry and task is as before, and queue 1 keeps what it had in front |
| `SchedulerSteps.PartJoin` | kernel/src/process/scheduler.rs:296-318 | a boost takes a queue apart entry by entry, in order |
| `SchedulerSteps.ExpiredMeans` | kernel/src/process/scheduler.rs:157-167 | exactly the due timers go, their blocked tasks are ready and queued, all other tasks are as before |
| `SchedulerSteps.NextSound` | kernel/src/process/scheduler.rs:142-959 | every step of every core keeps the invariant |
| `SchedulerSteps.RunSound` | kernel/src/process/scheduler.rs:142-959 | so does every run |
| `SchedulerLaws.ScanMeans` | kernel/src/process/scheduler.rs:192-249 | the scan of a queue stops at the first entry that can run; entries before it are kept, in order, exactly if their task is on a core or locked, entries behind it stay; the queue flag is cleared exactly for the entries taken out |
| `SchedulerLaws.PickMeans` | kernel/src/process/scheduler.rs:192-249 | the same over all queues: higher queues hold nothing that can run and keep what was passed over, lower queues are untouched |
| `SchedulerLaws.ScheduledQueues` | kernel/src/process/scheduler.rs:737-752 | the queues after `schedule`; a picked task whose lock was lost goes behind the queue of its priority |
| `SchedulerLaws.PickLeaves` | kernel/src/process/scheduler.rs:200-215 | a pick leaves a task that is on a core where it was queued |
| `SchedulerLaws.Preempted` | kernel/src/process/scheduler.rs:789-890 | over `schedule` and `post_context_switch`: a running task that is preempted is Ready and queued afterwards, with its priority; it is the last of the queue of that priority if it was not flagged as queued, and in that queue exactly if it was not flagged or was in it before |
| `SchedulerLaws.Misqueued` | kernel/src/process/scheduler.rs:277-292 | the flag matters: from every state with a preemptible task below the lowest priority there is a run of wait, wake-up, demotion and preemption after which the task is ready but not in the queue of its priority |
| `IdleRange.IdleCollision` | kernel/src/process/scheduler.rs:510-532 | from every state of the invariant, adding a task with an idle PID is followed by a run of scheduler steps after which a task is on two cores or lost |
| `IdleRange.AddExact` | kernel/src/process/scheduler.rs:510-532 | such a run exists after adding a task exactly when its PID is in the idle range 900 to 931 |
| `SleepTimers.SortByDeadline` | kernel/src/process/scheduler.rs:142-148 | a stable sort by descending deadline is a permutation |
| `SleepTimers.SortKeeps` | kernel/src/process/scheduler.rs:142-148 | sorting keeps one timer per task and all timers |
| `Scheduler.Scheduler.constructor` | kernel/src/process/scheduler.rs:581-631 | every core runs its own idle task |
| `Scheduler.Scheduler.ScanQueue` | kernel/src/process/scheduler.rs:192-249 | the loop with its in-place removals refines the scan of which `ScanMeans` says what it takes, drops and keeps; it takes the first eligible entry |
| `Scheduler.Scheduler.PickNext` | kernel/src/process/scheduler.rs:192-249 | the first eligible task of the highest queue; None exactly when there is none; queues and flags afterwards as in `PickMeans` |
| `Scheduler.Scheduler.SwitchTo` | kernel/src/process/scheduler.rs:789-823 | the task that enters is Running and current, the one that leaves is Ready if it was Running, keeps its state otherwise, and is in the suspending slot, so no core can take it; nothing else changes |
| `Scheduler.Scheduler.FallBack` | kernel/src/process/scheduler.rs:754-787 | without a pick the current task goes on and is Running if it was runnable or is the idle task, otherwise the core changes to the idle task |
| `Scheduler.Scheduler.Schedule` | kernel/src/process/scheduler.rs:704-863 | who runs, who is suspended and every task's state afterwards, as in `ScheduledMeans`; a core out of range changes nothing; keeps the invariant |
| `Scheduler.Scheduler.PostContextSwitch` | kernel/src/process/scheduler.rs:866-908 | the slot is emptied; the saved task goes to the end of the queue of its priority exactly when it is ready, not idle and not flagged, otherwise queues and tasks stay; it is handed out for reaping exactly when it is a zombie and not the leader of its group; keeps the invariant |
| `Scheduler.Scheduler.WakeTask` | kernel/src/process/scheduler.rs:331-354 | true exactly for a blocked task or a ready non-idle one, which is then ready, flagged and once in the queue of its priority; otherwise nothing changes |
| `Scheduler.Scheduler.AddTask` | kernel/src/process/scheduler.rs:510-532 | any new task is ready and queued; the invariant is kept outside the idle range |
| `Scheduler.Scheduler.Demote` | kernel/src/process/scheduler.rs:275-290 | a task that is not idle and not at the lowest priority loses one |
| `Scheduler.Scheduler.BoostQueue` | kernel/src/process/scheduler.rs:296-318 | the loop splits the entries of a queue between queue 1 and the queue itself, in order |
| `Scheduler.Scheduler.BoostPriorities` | kernel/src/process/scheduler.rs:296-318 | both queues are boosted; `BoostedMeans` says what that does |
| `Scheduler.Scheduler.RegisterSleepTimer` | kernel/src/process/scheduler.rs:142-148 | the task's timer is replaced, the list stays sorted, no other timer is lost |
| `Scheduler.Scheduler.RemoveSleepTimer` | kernel/src/process/scheduler.rs:151-154 | exactly the task's timer goes |
| `Scheduler.Scheduler.CheckSleepTimers` | kernel/src/process/scheduler.rs:157-167 | exactly the due timers go and their blocked tasks become ready and queued |
| `Scheduler.Scheduler.Run` | kernel/src/process/scheduler.rs:142-959 | the class refines every run of steps, and in every state of it no task is on two cores, every ready task is queued, current or suspending, flagged tasks are queued |
| `WaitQueue.StepLocks` | kernel/src/sync/wait_queue.rs:98-257 | no two threads hold one lock |
| `WaitQueue.LocksHeld` | kernel/src/sync/wait_queue.rs:98-257 | in every state of every run, which thread holds which lock: the scheduler lock from the check of a wait to its enrolment and through a whole wake-up, the list locks around each change |
| `WaitQueue.CheckReturns` | kernel/src/sync/wait_queue.rs:109-127 | a wait with an outdated token or pending signals returns at once and leaves nothing behind, any other goes on |
| `WaitQueue.WaitSleeps` | kernel/src/sync/wait_queue.rs:98-162 | a wait that nothing disturbs ends asleep, at the end of the queue and counted |
| `WaitQueue.WakeEmpties` | kernel/src/sync/wait_queue.rs:177-239 | a wake-up that finds waiters and that nothing disturbs empties the queue, wakes exactly who was in it, and leaves the count of the listeners |
| `WaitQueue.SignalReturns` | kernel/src/sync/wait_queue.rs:161-173 | a sleeper that gets a signal returns, neither blocked nor queued, and uncounted |
| `WaitQueue.NoUnderflow` | kernel/src/sync/wait_queue.rs:130-174 | a thread never owes more than is counted, so no subtraction underflows |
| `WaitQueue.StepCount` | kernel/src/sync/wait_queue.rs:98-257 | the waiter count is exactly the queue, the listeners and what is in flight |
| `WaitQueue.StepQueue` | kernel/src/sync/wait_queue.rs:98-257 | whoever sleeps on the queue, by wait or by register, is in it |
| `WaitQueue.StepBlocked` | kernel/src/sync/wait_queue.rs:98-246 | a thread that goes to sleep under the scheduler lock is blocked |
| `WaitQueue.StepTokens` | kernel/src/sync/wait_queue.rs:53-174 | a committed waiter's token has missed no locked wake-up |
| `WaitQueue.StepSound` | kernel/src/sync/wait_queue.rs:51-257 | every step of every thread, in waits, wake-ups, registrations, removals and changes of the listeners, keeps the whole invariant |
| `WaitQueue.Reachable` | kernel/src/sync/wait_queue.rs:98-257 | in every reachable state the count covers queue and listeners, and every sleeper is queued and has missed no wake-up |
| `WaitQueue.NoLostWakeup` | kernel/src/sync/wait_queue.rs:98-257 | a waiter whose token is older than a locked wake-up sleeps only while that wake-up has yet to empty the queue |
| `WaitQueue.SleeperStays` | kernel/src/sync/wait_queue.rs:98-257 | a sleeper stays blocked and queued in every run until a locked wake-up empties the queue or a signal comes |
| `WaitQueue.PopWakes` | kernel/src/sync/wait_queue.rs:211-221 | the wake-up that empties the queue leaves nobody asleep |
| `WaitQueue.PopTokens` | kernel/src/sync/wait_queue.rs:211-221 | emptying the queue leaves no blocked waiter |
| `WaitQueue.FastReturnEmpty` | kernel/src/sync/wait_queue.rs:177-183 | when the fast path returns nobody is counted, queued or asleep |
| `WaitQueue.FastPathExact` | kernel/src/sync/wait_queue.rs:177-183 | the fast path loses a waiter with an older token exactly when that waiter has passed its check and not yet raised the count |
| `WaitQueue.LostWakeup` | kernel/src/sync/wait_queue.rs:177-183 | whenever the queue is unused there is such a run |
| `WaitQueue.StepClaims` | kernel/src/syscall/process/lifecycle.rs:1040-1088 | no wake-up begins between the moment waitpid looks for children and the moment it sleeps, but one that is about to wake it |
| `WaitQueue.NoLostExit` | kernel/src/syscall/process/lifecycle.rs:1040-1088 | waitpid misses no exit: once it has looked for children and found none, over every run, after any wake-up under the scheduler lock it is asleep only while that wake-up has yet to empty the queue |
| `Listeners.WokenJoin` | kernel/src/sync/wait_queue.rs:211-239 | waking one set of queues and then another is waking both |
| `Listeners.ReachBelow` | kernel/src/sync/wait_queue.rs:223-234 | in a graph of listeners without cycles a wake-up never comes back to a queue it has left |
| `Listeners.ReachSame` | kernel/src/sync/wait_queue.rs:223-234 | which queues a wake-up gets to depends on the live listeners only |
| `Listeners.NoneLeft` | kernel/src/sync/wait_queue.rs:211-239 | no lost wake-up: whoever sleeps on a queue in reach is awake and out of it afterwards |
| `Listeners.Wakers.PopAll` | kernel/src/sync/wait_queue.rs:212-221 | the tasks of a queue are woken one by one, and uncounted |
| `Listeners.Wakers.WakeAllLocked` | kernel/src/sync/wait_queue.rs:211-239 | the recursion through the listeners wakes exactly the tasks that sleep on a queue in reach, empties those queues, moves their sequence numbers, drops exactly their dead listeners, leaves exact counts, and touches no other queue |
| `Listeners.Wakers.DropDead` | kernel/src/sync/wait_queue.rs:225-238 | dead listeners leave the list and the count |
| `Vfork.TurnFair` | kernel/src/sync/wait_queue.rs:264-300 | every turn of parent and child keeps the invariant: a parent that saw the flag down has an old token once the child has moved the sequence |
| `Vfork.HangExact` | kernel/src/sync/wait_queue.rs:278-299 | over every run: when the child is back from its wake-up the parent can fall asleep for good exactly when the child took the fast path and the parent was past its check just then; completing under the scheduler lock never loses the parent |
| `Vfork.HangStays` | kernel/src/sync/wait_queue.rs:290-299 | once the child is back and the parent asleep, nothing can happen to the completion any more but a signal to the parent |
| `Vfork.Hangs` | kernel/src/sync/wait_queue.rs:278-299 | there is such a run from the start |
| `Vfork.Returns` | kernel/src/sync/wait_queue.rs:264-299 | in every other case the parent returns by at most three turns of its own |
| `Vfork.SlowWakes` | kernel/src/sync/wait_queue.rs:278-299 | from every state of the invariant with the parent asleep, a child that completes and finds it counted wakes it, and it returns |
| `TicketLock.TicketsBounded` | kernel/src/sync/spinlock.rs:76-121 | never more tickets out than CPUs, so equality modulo 2^64 is equality |
| `TicketLock.StepSound` | kernel/src/sync/spinlock.rs:76-162 | every atomic step of lock, try_lock and drop keeps the invariant |
| `TicketLock.Exclusion` | kernel/src/sync/spinlock.rs:207-221 | in every run one CPU at most is inside, earlier tickets go first, the stored id is the holder's |
| `TicketLock.EnterExact` | kernel/src/sync/spinlock.rs:104-110 | the test modulo 2^64 lets in exactly the CPU whose ticket is served |
| `TicketLock.TakeJoins` | kernel/src/sync/spinlock.rs:97-99 | a lock takes the next ticket and changes nothing else |
| `TicketLock.TryExact` | kernel/src/sync/spinlock.rs:123-162 | with nothing in between, try_lock fails at once on a marked lock, takes it exactly when no ticket is out, and otherwise leaves it as it was |
| `TicketLock.Passes` | kernel/src/sync/spinlock.rs:76-121 | the CPU being served gets through by its own steps, after which the lock is unmarked and the next ticket is served |
| `TicketLock.Served` | kernel/src/sync/spinlock.rs:76-121 | nobody is passed over: whoever spins can enter after at most four steps of each CPU with an earlier ticket, and none of any other |
| `RwLock.StepSound` | kernel/src/sync/rwlock.rs:71-156 | every atomic step of read, write and the drops keeps the invariant |
| `RwLock.Exclusion` | kernel/src/sync/rwlock.rs:172-209 | in every run a writer is alone, and the state word is -1 or the exact number of readers |
| `RwLock.ReadEnters` | kernel/src/sync/rwlock.rs:71-105 | a read gets in when no writer is inside or pending, and its drop restores the lock |
| `RwLock.ReadRetries` | kernel/src/sync/rwlock.rs:89-105 | the weak exchange sets no bound: a reader may fail any number of times on a lock it could take, which stays as it was |
| `RwLock.WriteEnters` | kernel/src/sync/rwlock.rs:111-156 | a write gets in when nobody is inside, and its drop restores the lock |
| `RwLock.WriterGetsIn` | kernel/src/sync/rwlock.rs:128-148 | a pending writer gets in once those inside have left, one step each |
| `RwLock.ReadersBackOff` | kernel/src/sync/rwlock.rs:78-88 | writer priority over every run: while the flag is up and no writer lowers it, nobody gets to read who had not found it down before |
| `RwLock.FlagExact` | kernel/src/sync/rwlock.rs:113-121 | the flag is up exactly if the last raise or drop of any writer was a raise |
| `RwLock.PriorityLost` | kernel/src/sync/rwlock.rs:200-207 | so a writer's drop takes the flag from a writer that still waits, and a run lets a reader in before it |
| `UnmapRange.CutLookup` | kernel/src/process/task.rs:148-178 | what is left of a region maps what it mapped, outside the range |
| `UnmapRange.UnmapExact` | kernel/src/process/task.rs:142-180 | the early break loses nothing exactly when no region behind it meets the range |
| `UnmapRange.DisjointSafe` | kernel/src/process/task.rs:142-180 | disjoint regions always satisfy that |
| `UnmapRange.BreakLeaves` | kernel/src/process/task.rs:142-180 | otherwise some address of the range stays mapped |
| `UnmapRange.StaysDisjoint` | kernel/src/process/task.rs:142-180 | disjoint regions stay disjoint |
| `UnmapRange.AddressSpace.CutOne` | kernel/src/process/task.rs:147-179 | one turn replaces a region by its remains |
| `UnmapRange.AddressSpace.UnmapRange` | kernel/src/process/task.rs:142-180 | an address outside the range keeps region, file offset and protection, one inside has none |
| `PathNames.SplitJoin` | kernel/src/fs/path.rs:94-116 | names without slashes survive joining and splitting |
| `PathNames.JoinSplit` | kernel/src/fs/path.rs:94-116 | every string survives splitting and joining |
| `PathNames.FoldAppend` | kernel/src/fs/path.rs:94-105 | pieces are taken one after the other |
| `PathLaws.OnePiece` | kernel/src/fs/path.rs:85-123 | a single piece is its own normal form if it is a name, else the root |
| `PathLaws.DotStays` | kernel/src/fs/path.rs:96-96 | a slash or `.` behind a path changes nothing, for every path |
| `PathLaws.NameDescends` | kernel/src/fs/path.rs:102-116 | a name behind a path goes behind what the path comes to, for every path |
| `PathLaws.DotsClimb` | kernel/src/fs/path.rs:97-101 | `..` behind a path takes the last name of what the path comes to, for every path, and nothing from the root |
| `PathLaws.DownAndUp` | kernel/src/fs/path.rs:97-102 | a name followed by `..` changes nothing, for every path |
| `PathLaws.RootStays` | kernel/src/fs/path.rs:97-122 | the root, the empty path and what is above the root all come to the root |
| `PathLaws.JailedDotStays` | kernel/src/fs/path.rs:143-143 | the same inside a jail, for every path that begins with the names of its root: `.` changes nothing |
| `PathLaws.JailedNameDescends` | kernel/src/fs/path.rs:151-151 | a name goes behind what the path comes to |
| `PathLaws.JailedDotsClimb` | kernel/src/fs/path.rs:144-150 | `..` takes the last name, and at the root of the jail nothing |
| `PathLaws.JailedDownAndUp` | kernel/src/fs/path.rs:144-151 | a name followed by `..` changes nothing |
| `PathLaws.JailedRootStays` | kernel/src/fs/path.rs:144-150 | the root of the jail comes to itself, and so does what is above it |
| `PathLaws.ShortIsRoot` | kernel/src/fs/path.rs:155-158 | a path with fewer names than the root comes to the root |
| `PathNames.FoldBottom` | kernel/src/fs/path.rs:134-169 | with a floor the first names can never be popped |
| `Paths.FastIsSlow` | kernel/src/fs/path.rs:85-123 | a path that passes the test is what the slow path makes of it |
| `Paths.NormalizeLaws` | kernel/src/fs/path.rs:85-123 | the result is normal and normalising twice changes nothing |
| `Paths.IsNormalized` | kernel/src/fs/path.rs:28-75 | the one-pass scan decides normality |
| `Paths.Normalize` | kernel/src/fs/path.rs:85-123 | fast and slow path agree, the result is normal; the laws of PathLaws say which |
| `Paths.NormalizeJailed` | kernel/src/fs/path.rs:134-169 | the loops compute the clamped path, for which the laws of PathLaws hold |
| `Paths.JailedExact` | kernel/src/fs/path.rs:134-169 | the clamp keeps the root as prefix exactly when the path has fewer names than the root or begins with the root's names |
| `Paths.JailNeedsPrefix` | kernel/src/fs/path.rs:134-169 | the clamp alone lets a sibling of the root escape |
| `Paths.ResolveFree` | kernel/src/fs/vfs.rs:572-596 | the unjailed resolver with its shortcuts is the normal form of an absolute path, and of directory, slash and path otherwise |
| `Paths.NormalJoin` | kernel/src/fs/vfs.rs:576-593 | the shortcut is right: a normal name below a normal directory is normal |
| `Paths.FullPathInside` | kernel/src/fs/vfs.rs:597-617 | whatever the jailed resolver passes on begins with the root's names |
| `Paths.JailHolds` | kernel/src/fs/vfs.rs:597-617 | the jailed result is normal and below the root, for every path |
| `Paths.ResolveJailed` | kernel/src/fs/vfs.rs:597-617 | the resolver returns the clamped form of the path if it begins with the root, else of root and path, or of directory and path if it is relative; the result is normal and below the root |
| `Paths.ResolveAgain` | kernel/src/fs/vfs.rs:597-617 | a resolved path resolves to itself |
| `UserStack.BlockReads` | kernel/src/process/elf.rs:497-519 | each string of the block reads back up to its first zero |
| `UserStack.CopyStrings` | kernel/src/process/elf.rs:497-519 | strings are copied downwards and the recorded addresses are theirs |
| `UserStack.WriteWords` | kernel/src/process/elf.rs:546-571 | words are written lowest byte first, one after the other |
| `UserStack.TabledConforms` | kernel/src/process/elf.rs:453-579 | a filled buffer with its table is a stack as section 3.4.1 of the System V AMD64 ABI asks for |
| `UserStack.ArgExact` | kernel/src/process/elf.rs:497-519 | an argument without zero bytes is read back exactly through its pointer, above the table |
| `UserStack.EnvExact` | kernel/src/process/elf.rs:497-519 | so is a variable of the environment |
| `UserStack.ConstructUserStack` | kernel/src/process/elf.rs:453-579 | refused exactly when the data exceeds the limit; otherwise reading inside the buffer from the aligned stack pointer gives argc, pointers to the strings given, both NULLs, the auxiliary vector and the random bytes, all strings above the table; under each tag a lookup finds its value; whole pages and no more than needed, no gap but for alignment, and zero wherever nothing was written |
| `UserStack.AuxvalFound` | kernel/src/process/elf.rs:524-540 | a lookup in the vector finds the first entry of its kind |
| `UserStack.AuxvAnswers` | kernel/src/process/elf.rs:524-540 | the value found under each of the fourteen tags |
| `UserStack.FillTable` | kernel/src/process/elf.rs:543-578 | the table lies at the highest aligned position below the strings |
| `Bytes.CStringExact` | kernel/src/process/elf.rs:499-518 | a string survives exactly when it has no zero byte |
| `Checksum.WordSumBound` | kernel/src/net/ipv4.rs:185-228 | data of an IPv4 length cannot overflow the accumulator |
| `Checksum.BlockIsSum` | kernel/src/net/ipv4.rs:190-209 | the unrolled body sums its sixteen words |
| `Checksum.FoldCarries` | kernel/src/net/ipv4.rs:222-225 | folding the carries is reduction modulo 65535 |
| `Checksum.SumWords` | kernel/src/net/ipv4.rs:185-220 | unrolled blocks, pairs and odd byte give the word-by-word sum |
| `Checksum.InternetChecksum` | kernel/src/net/ipv4.rs:185-228 | the unrolled checksum is the RFC 1071 checksum |
| `Checksum.ChecksumVerifies` | kernel/src/net/ipv4.rs:172-176 | data filled with its checksum verifies to zero |
| `Checksum.TransportChecksum` | kernel/src/net/ipv4.rs:234-291 | the transport checksum over the twelve bytes of the pseudo-header and the segment, never zero |
| `Checksum.PseudoSumBytes` | kernel/src/net/ipv4.rs:242-248 | the six additions are the word sum of the pseudo-header: addresses, zero, protocol, length |
| `Checksum.TransportVerifies` | kernel/src/net/ipv4.rs:234-291 | a segment with its checksum sums to all ones |
| `Checksum.ParseOptions` | kernel/src/net/ipv4.rs:128-157 | a header with any options, and bytes behind the packet: the fields and exactly the payload |
| `Checksum.ParseRefuses` | kernel/src/net/ipv4.rs:128-157 | refused exactly when too short, of another version, or with lengths that do not fit |
| `Checksum.BuiltParses` | kernel/src/net/ipv4.rs:420-458 | a built packet parses to what was put in |
| `Checksum.BuildIpv4Packet` | kernel/src/net/ipv4.rs:420-458 | built exactly when it fits; the header byte by byte; it parses back, its header verifies, the rest of the buffer stays |
| `Pipes.QueuePush` | kernel/src/fs/pipe.rs:61-82 | a wrapped write appends to the queue |
| `Pipes.QueueTake` | kernel/src/fs/pipe.rs:88-107 | two stretches of the ring are the front of the queue |
| `Pipes.QueueDrop` | kernel/src/fs/pipe.rs:88-107 | moving the read position drops the front |
| `Pipes.Ring.constructor` | kernel/src/fs/pipe.rs:38-46 | an empty queue |
| `Pipes.Ring.PushSlice` | kernel/src/fs/pipe.rs:61-82 | appends as much as fits |
| `Pipes.Ring.PopSlice` | kernel/src/fs/pipe.rs:88-107 | takes as much as there is, in order |
| `Pipes.Ring.PushBytes` | kernel/src/ipc/pipe.rs:86-104 | the byte-by-byte write is the same bounded queue |
| `Pipes.Ring.PopBytes` | kernel/src/ipc/pipe.rs:125-138 | the byte-by-byte read is the same bounded queue |
| `Pipes.Pipe.ReadTurn` | kernel/src/fs/pipe.rs:145-187 | end of file exactly when no writer is left and every byte written has been read |
| `Pipes.Pipe.WriteTurn` | kernel/src/fs/pipe.rs:252-306 | a broken pipe exactly when no reader is left; otherwise bytes are appended or the pipe is full |
| `Pipes.Pipe.Perform` | kernel/src/fs/pipe.rs:145-306 | what a turn returns is what leaves the ring, what it accepts is what enters it, as much as fits; end of file exactly when no writer is left and all is read, refused exactly when no reader is left; closing lowers its own counter, not below zero, and nothing else does |
| `Pipes.Pipe.Run` | kernel/src/fs/pipe.rs:145-306 | over any run, with either ring, the bytes handed to readers followed by those buffered are the bytes accepted from writers, in order; a reader at the end of file has got them all; an end of file needs as many closings as there were writers, and a write is refused exactly after as many as there were readers |

## Left out

- AddressSpaceClone.PageTables.CloneParentPageTable: says little of the state after an error, because the error path does not unwind what it has built; cloning the kernel's own root, whose tables are not reference counted, is outside its precondition, and so are leaves whose frame has no reference or whose count would pass 255, on which `IncrementRef` breaks conservation.
- AddressSpaceClone.PageTables.ForkAndExit: leaves out writing back shared file mappings before the free.
- PhysicalMemory.Memory.DeallocateFrame: takes frames below MAX_FRAMES, because the function's safety note asks for an address that was allocated; the source parks any other address in a cache without a count.
- PhysicalMemory.Interleave: its steps leave out the three that break conservation (a reference past the clamp, an increment of 0 or 255, a bare drop of the last reference), because nothing holds after them; their own contracts say so exactly.
- TcpReceive.Socket.Session: goes on as long as segments and queued entries are less than 2^31 from the next position, which is all that wrapped sequence numbers can tell apart; streams shorter than that are covered whole.
- PageCache.Cache.Serve: writes stay inside a page and inside the file, because file sizes are changed by the file system and not by the cache; a truncation is the contract of `TruncateInode`, and growth is not modelled.
- PageCache.Cache.CopyBytes: copies only while the page is still cached at its frame; a copy into a frame that has gone to another page is not modelled.
- PageCache.Cache.WritePage: takes a write inside the file, for the same reason.
- PageCache.Cache.FlushRun: takes a run whose pages are all dirty, as they are with nothing in between; `BeginFlush` takes any run, and `MergeExact` says what a gap does.
- PageCache.Cache.FlushAll: states the flush of a file with nothing in between; `BeginFlush`, `Snapshot` and `EndFlush` are its runs with anything in between. Dirty bits that are collected from page tables first are `MarkDirty` calls.
- PageCache.Cache.FlushPage: as `FlushAll`.
- WaitQueue.Reachable: listeners are counted here, and a wake-up's way through them is in module Listeners under the scheduler lock; the sequence number does not wrap at 2^64.
- Listeners.Wakers.WakeAllLocked: takes listeners without cycles, because the source recurses without end on a cycle while it holds a lock.
- Vfork.HangExact: storing the flag comes before taking the scheduler lock, also in `complete_locked`, which allows more runs than the source.
- TicketLock.Exclusion: the lock is a state machine on values, one step per atomic instruction, and not a class; so are the reader-writer lock and the wait queue. In-place update of their words is the step function.
- UserStack.ConstructUserStack: the sixteen random bytes are a parameter.
- Checksum.InternetChecksum: equals the word-by-word sum whenever that fits 32 bits, which covers every IPv4 length.
- `force_unlock`, `get_mut_unchecked` and the deadlock diagnostics of the locks.
- The routing table, ARP, the TCP send side and the network drivers.
- Orphan re-parenting and SIGCHLD in `exit_task`, futexes, signals beyond the pending test.
- `dirty_inodes`, `has_dirty_pages_for_dev` and `sync_mapped_region`, which only list or loop over modelled operations.
- Symbolic links, mounts and the dentry cache: only the lexical half of path resolution is modelled.
- Interrupt flags, TLB flushes, memory ordering weaker than sequential consistency, and everything in boot, drivers and the pseudo file systems.
