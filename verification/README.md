# Models of classic operating-systems simulators

A Dafny project that models the algorithmic cores of a collection of operating-systems teaching programs (the
simulators and thread examples of *Operating Systems: Three Easy Pieces*, and the barrier of *Programming with POSIX
Threads*) and proves what those programs are meant to show. `dafny verify dfyconfig.toml` checks all of it.

Each part has a specification on values, theorems about it, and, where the program updates state in place, a class or
method with the program's own loops that is proved to compute the specification:

| files | program |
|---|---|
| `Paging`, `PagingPolicies`, `PagingTheorems` | page replacement: FIFO, LRU, MRU, OPT, UNOPT, RAND, CLOCK |
| `Flash`, `FlashTheorems`, `FlashProgress`, `FlashLoss`, `Ssd`, `SsdRuns` | log-structured flash translation layer with garbage collection |
| `BoundedBuffer`, `BoundedBufferProof`, `BoundedBufferValues` | producers and consumers with two condition variables |
| `Barrier`, `BarrierProof` | a barrier with a one-bit cycle, and a program that uses it |
| `Heap`, `Malloc` | a free-list allocator with splitting and coalescing |
| `Raid`, `RaidWrite`, `RaidDisks` | RAID 4 and 5: address mapping, write planning, parity |
| `PageTable`, `PageTableOS` | two-level page tables in raw memory |
| `FfsBitmap`, `FfsWalk`, `FfsWindows`, `Ffs` | block groups: allocation, group choice, create, verify |
| `LfsDisk`, `LfsOps`, `LfsNames`, `LfsPaths`, `LfsFiles`, `LfsRefs`, `Lfs` | a log-structured file system with a checkpoint region |
| `Afs`, `AfsSessions` | client caching with callbacks |
| `Mlfq`, `MlfqLaws`, `MlfqRun` | multi-level feedback queue scheduling |
| `Vsfs`, `VsfsNames`, `VsfsTree`, `VsfsFs` | a small file system, and the corruptions a checker should find |
| `Scheduling`, `RoundRobin` | FIFO, SJF and round robin |
| `X86`, `X86Programs`, `TicketLock` | an interpreter with context switches, and programs for it |
| `Vectors` | vector addition with locks taken in address order |
| `Arithmetic` | division with remainder, shared |

Random choices (victims, free pages, inode numbers, interrupts, schedules) are nondeterministic, so every theorem holds
for all of them. Threads are transition systems whose steps are the accesses between which another thread may run;
condition waits may wake spuriously. Python's integers are unbounded, as here; `int(a / b)` is integer division. A
failing assertion, a missing dictionary key or an exit of a program is an outcome of its own in the model, or is proved
not to happen.

Some results are that the program does not do what one might expect, and exactly when it does:

- the flash collector ignores the result of a relocation write and can erase live data; `ContentsExactlySafe` gives the
  exact condition, `CollectionCanLose` and `ReadChanges` an instance reached by five writes;
- a link in the log-structured file system does not log the imap chunk of the linked file; `LinkShaped` and
  `LinkThenSync` show that the disk is then out of date exactly when the two numbers lie in different chunks, and
  `LinkAcrossChunks` shows it happen from the initial state;
- a file named "-", the mark of free slots, is overwritten by the next entry of its directory; `CreateRefs` and `LinkRefs`
  show that reference counts go wrong then and at no other time, and `DashOverwritten` is an instance;
- reopening a file that is still open loses the reference and an unsaved write exactly if another client has closed the
  file after a write in the meantime (`FirstReopen`);
- with `allocate_faraway` above 1 the group picked for a directory can have no free inode. `PickedHasFree` says for which
  settings that happens, `DoCreate` that the create then goes on with index -1 and breaks the books, exactly when the
  first group of the first best window is full, and `FarawayRun` is an instance;
- a create of size 0 that passes the first checks ends in a failing assertion (`AllocateNothing`), perhaps with free
  blocks taken by then;
- under `--stay` a job that does its I/O often enough is never demoted; `HeldIff` says how often that is, exactly;
- a new directory of the block-group file system lists its parent as 0, wherever it is (`DoCreate`);
- of the checker's corruptions a changed name, and only that, leaves the image consistent (`CorruptionShows`).

## Model

| member | source | states |
|---|---|---|
| `Paging.Simulate` | Operating.Systems.Three.Easy.Pieces/vm-beyondphys-policy/paging-policy.py:142-260 | the loop, for every policy, trace and cache size of at least 1, produces a run in the sense of the step relation; which page such a run evicts under each policy is what the `PagingPolicies` rows say; hits and misses add up to the references |
| `Paging.ClockSearch` | Operating.Systems.Three.Easy.Pieces/vm-beyondphys-policy/paging-policy.py:175-187 | the CLOCK victim search ends however the random picks fall, and stops at a resident page whose reference bit has come down to 0; all other bits only come down, and not below 0 |
| `Paging.ClockScan` | Operating.Systems.Three.Easy.Pieces/vm-beyondphys-policy/paging-policy.py:175-191 | the search, after which the victim has no reference bit |
| `Paging.WhenReferenced` | Operating.Systems.Three.Easy.Pieces/vm-beyondphys-policy/paging-policy.py:207-213 | the search for the next reference finds the first one after now, or the end of the trace |
| `Paging.Farthest` | Operating.Systems.Three.Easy.Pieces/vm-beyondphys-policy/paging-policy.py:198-221 | OPT picks a resident page whose next use is not earlier than any other resident page's |
| `Paging.Nearest` | Operating.Systems.Three.Easy.Pieces/vm-beyondphys-policy/paging-policy.py:223-241 | UNOPT picks a resident page whose next use is not later than any other's |
| `Paging.RunInv` | Operating.Systems.Three.Easy.Pieces/vm-beyondphys-policy/paging-policy.py:142-260 | in every run of every policy, memory holds distinct pages, at most cachesize of them, and all books of the loop agree |
| `PagingPolicies.OnlyTheVictimLeaves` | Operating.Systems.Three.Easy.Pieces/vm-beyondphys-policy/paging-policy.py:145-248 | in every run of every policy the pages in memory change by the victim, which was resident, and the page referenced; a reference is a hit exactly when its page was resident |
| `PagingPolicies.MemoryOrder` | Operating.Systems.Three.Easy.Pieces/vm-beyondphys-policy/paging-policy.py:145-248 | at every point of every run the resident pages stand in order: under LRU and MRU of their last references, under all other policies of their last misses |
| `PagingPolicies.FifoVictim` | Operating.Systems.Three.Easy.Pieces/vm-beyondphys-policy/paging-policy.py:161-162 | FIFO evicts, at every eviction of every run, the resident page whose last miss is earliest |
| `PagingPolicies.RecencyVictim` | Operating.Systems.Three.Easy.Pieces/vm-beyondphys-policy/paging-policy.py:161-164 | LRU evicts the resident page whose last reference is earliest, MRU the one whose last reference is latest |
| `PagingPolicies.OptVictim` | Operating.Systems.Three.Easy.Pieces/vm-beyondphys-policy/paging-policy.py:198-221 | OPT evicts a page before whose next reference all other resident pages are referenced; of those never referenced again the one with the latest miss |
| `PagingPolicies.UnoptVictim` | Operating.Systems.Three.Easy.Pieces/vm-beyondphys-policy/paging-policy.py:223-241 | UNOPT evicts the page referenced before all others; when none is referenced again, the one with the earliest miss |
| `PagingPolicies.BitsCount` | Operating.Systems.Three.Easy.Pieces/vm-beyondphys-policy/paging-policy.py:254-260 | the reference count of a page is the number of its references up to the limit of the bits, under every policy but CLOCK |
| `PagingPolicies.ClockKeepsBits` | Operating.Systems.Three.Easy.Pieces/vm-beyondphys-policy/paging-policy.py:175-191 | under CLOCK no bit is lost without an eviction, and only the page referenced gains one |
| `PagingTheorems.OptIsOptimal` | Operating.Systems.Three.Easy.Pieces/vm-beyondphys-policy/paging-policy.py:198-221 | Belady: at every point of every trace OPT has missed no more often than any run that loads only on a miss and evicts any page whatsoever |
| `PagingTheorems.OptBeatsEveryPolicy` | Operating.Systems.Three.Easy.Pieces/vm-beyondphys-policy/paging-policy.py:142-248 | in particular OPT has at least the hits of every policy of the simulator |
| `PagingTheorems.LruIsCompetitive` | Operating.Systems.Three.Easy.Pieces/vm-beyondphys-policy/paging-policy.py:145-162 | at every point LRU has missed at most cachesize times as often as any other run from empty memory |
| `PagingTheorems.LruAgainstOpt` | Operating.Systems.Three.Easy.Pieces/vm-beyondphys-policy/paging-policy.py:145-162 | LRU lies between OPT and cachesize times OPT |
| `PagingTheorems.LruMemoryIsRecency` | Operating.Systems.Three.Easy.Pieces/vm-beyondphys-policy/paging-policy.py:145-162 | LRU memory is at every step the last cachesize distinct pages of the trace, in order of recency |
| `PagingTheorems.LruStack` | Operating.Systems.Three.Easy.Pieces/vm-beyondphys-policy/paging-policy.py:145-162 | LRU memory at a smaller size is at every step a suffix of LRU memory at a larger size, so hits never decrease as the cache grows |
| `FlashTheorems.FullIff` | Operating.Systems.Three.Easy.Pieces/file-ssd/ssd.py:205-214 | the cursor search reports a full device exactly when no page is writable |
| `FlashTheorems.WriteTheorem` | Operating.Systems.Three.Easy.Pieces/file-ssd/ssd.py:222-232 | a logged write keeps the device well-formed, makes the new value readable at its address and no other address different, and fails exactly on a full device |
| `FlashTheorems.GcWithRoom` | Operating.Systems.Three.Easy.Pieces/file-ssd/ssd.py:234-288 | a collection that starts with at least pages_per_block - 1 writable pages loses no mapped page, never reaches the full-device branch, never erases the open block, and does not reduce writable space |
| `FlashTheorems.GcExactlySafe` | Operating.Systems.Three.Easy.Pieces/file-ssd/ssd.py:234-288 | a collection leaves every mapped page behind a programmed page that points back if and only if the live pages of the first block it cleans fit in the writable pages; then it also keeps every value and all room |
| `FlashLoss.ContentsExactlySafe` | Operating.Systems.Three.Easy.Pieces/file-ssd/ssd.py:234-288 | a collection keeps all contents, whatever values the device holds, if and only if the live pages of the first block it cleans fit in the writable pages |
| `FlashLoss.CrampedIsReached` | Operating.Systems.Three.Easy.Pieces/file-ssd/ssd.py:222-232 | five writes to a new device of two blocks lead to the device of the next row |
| `FlashLoss.CollectionCanLose` | Operating.Systems.Three.Easy.Pieces/file-ssd/ssd.py:234-288 | a device, reached by writes, whose collection ignores a refused relocation write, breaks the mapping and makes one stored value a blank |
| `Ssd.ReadChanges` | Operating.Systems.Three.Easy.Pieces/file-ssd/ssd.py:290-317 | a read of that device answers differently before and after its upkeep |
| `FlashProgress.OrderIsLap` | Operating.Systems.Three.Easy.Pieces/file-ssd/ssd.py:236-238 | a collection visits `num_blocks` blocks, the i-th of them number (gc_current_block + i) modulo num_blocks |
| `FlashProgress.EveryBlockVisited` | Operating.Systems.Three.Easy.Pieces/file-ssd/ssd.py:236-238 | hence each block exactly once |
| `FlashProgress.NoGarbageLeft` | Operating.Systems.Three.Easy.Pieces/file-ssd/ssd.py:234-288 | a collection that ends above the low-water mark leaves nothing but live pages outside the block that was current |
| `FlashProgress.DeadBlocksErased` | Operating.Systems.Three.Easy.Pieces/file-ssd/ssd.py:239-282 | in particular it has erased every block other than that one that was programmed and held no live page at its start |
| `FlashProgress.GcStops` | Operating.Systems.Three.Easy.Pieces/file-ssd/ssd.py:281-288 | a collection stops early only at or below the low-water mark, just after an erase, and the next one starts from the block erased; otherwise that place stays |
| `FlashProgress.GcIdle` | Operating.Systems.Three.Easy.Pieces/file-ssd/ssd.py:239-259 | blocks that are erased or live throughout are not touched, nor is the current one |
| `FlashProgress.CopiedInOrder` | Operating.Systems.Three.Easy.Pieces/file-ssd/ssd.py:262-268 | live pages are moved behind the cursor in the order of their addresses |
| `FlashProgress.NextFreeIsNext` | Operating.Systems.Three.Easy.Pieces/file-ssd/ssd.py:205-214 | the block opened next is the first one not programmed, going round from the current one; there is none exactly when all are programmed |
| `SsdRuns.KeptUp` | Operating.Systems.Three.Easy.Pieces/file-ssd/ssd.py:290-295 | after every command of every run: fewer blocks are in use than the high-water mark, or no more than the low-water mark, or nothing is stored but live pages outside one block |
| `SsdRuns.FailuresCounted` | Operating.Systems.Three.Easy.Pieces/file-ssd/ssd.py:222-232 | with headroom at every collection the counter of failed writes is the number of writes that were answered with a failure |
| `FlashTheorems.UpkeepWithRoom` | Operating.Systems.Three.Easy.Pieces/file-ssd/ssd.py:290-295 | upkeep with that headroom keeps all contents and the headroom |
| `FlashTheorems.TrimTheorem` | Operating.Systems.Three.Easy.Pieces/file-ssd/ssd.py:297-306 | trim removes one address from the contents and nothing else |
| `Ssd.Device.PhysicalErase` | Operating.Systems.Three.Easy.Pieces/file-ssd/ssd.py:133-147 | every page of the block and only those become erased |
| `Ssd.Device.GetCursor` | Operating.Systems.Three.Easy.Pieces/file-ssd/ssd.py:205-214 | the cursor stays in an open block or moves to the next free one in order; -1 exactly on a full device |
| `Ssd.Device.WriteLogging` | Operating.Systems.Three.Easy.Pieces/file-ssd/ssd.py:222-232 | the device afterwards is that of the specification function the theorems are about |
| `Ssd.Device.GarbageCollect` | Operating.Systems.Three.Easy.Pieces/file-ssd/ssd.py:234-288 | the collector's loops, wrap-around included, compute the specification function of a collection, whose order and effect are what the `FlashProgress` and `FlashTheorems` rows say |
| `Ssd.Device.WriteLogical` | Operating.Systems.Three.Easy.Pieces/file-ssd/ssd.py:319-329 | range check, then the logged write; nothing changes on an illegal address |
| `Ssd.Device.TrimLogical` | Operating.Systems.Three.Easy.Pieces/file-ssd/ssd.py:297-306 | range check, then trim; trimming an unmapped address is reported |
| `Ssd.Device.ReadLogical` | Operating.Systems.Three.Easy.Pieces/file-ssd/ssd.py:308-317 | the answer is a lookup in the plain map of contents, with the error for addresses out of range or never written |
| `Ssd.RunIsMap` | Operating.Systems.Three.Easy.Pieces/file-ssd/ssd.py:290-329 | over any command sequence whose every collection finds the live pages of the first block it cleans fitting in the writable pages, the device is a plain map: every read returns the last value successfully written and not trimmed |
| `Ssd.RoomyIsSafe` | Operating.Systems.Three.Easy.Pieces/file-ssd/ssd.py:234-329 | so is a run whose every collection starts with at least pages_per_block - 1 writable pages |
| `Ssd.RunExactlySafe` | Operating.Systems.Three.Easy.Pieces/file-ssd/ssd.py:234-329 | the mapping stands after every command of a run if and only if every collection finds that |
| `Ssd.Run` | Operating.Systems.Three.Easy.Pieces/file-ssd/ssd.py:290-329 | the command loop, upkeep after every command included, leaves the device and gives the answers the three rows above are about; in particular with the headroom at every collection it acts as a plain map |
| `BoundedBufferProof.RunInv` | Operating.Systems.Three.Easy.Pieces/threads-cv/main-two-cvs-while.c:22-73 | every state of every interleaving, spurious wakeups included, satisfies the invariant |
| `BoundedBufferProof.Safety` | Operating.Systems.Three.Easy.Pieces/threads-cv/main-two-cvs-while.c:22-37 | the lock is held by one thread at a time, both ensure checks pass, and items leave in the order they entered |
| `BoundedBufferProof.ConsumedOnce` | Operating.Systems.Three.Easy.Pieces/threads-cv/main-two-cvs-while.c:39-73 | no produced value leaves the buffer twice |
| `BoundedBufferProof.ValuesInRange` | Operating.Systems.Three.Easy.Pieces/threads-cv/main-two-cvs-while.c:39-54 | what leaves is what some producer produced, or a marker |
| `BoundedBufferProof.CanMove` | Operating.Systems.Three.Easy.Pieces/threads-cv/main-common.c:84-118 | a thread that is not blocked has a step to take, and not just a spurious wakeup |
| `BoundedBufferProof.DeadlockFree` | Operating.Systems.Three.Easy.Pieces/threads-cv/main-common.c:84-118 | for any number of producers, at least one consumer and any buffer size, the only reachable states in which everybody is blocked are those in which every thread, main included, has finished |
| `BoundedBufferProof.FinishedRun` | Operating.Systems.Three.Easy.Pieces/threads-cv/main-common.c:100-118 | when all have finished, every value was consumed exactly once, before any end marker, and the consumers' counts add up to producers times loops |
| `BoundedBufferValues.ProducersInOrder` | Operating.Systems.Three.Easy.Pieces/threads-cv/main-two-cvs-while.c:39-54 | at every point of every run the numbers of one producer, id * loops up to id * loops + loops - 1, have left the buffer in increasing order |
| `BoundedBufferValues.NumbersOut` | Operating.Systems.Three.Easy.Pieces/threads-cv/main-two-cvs-while.c:39-73 | what leaves are the numbers from -1 up to producers * loops - 1, and when all threads have finished, all of these |
| `BarrierProof.RunInv` | Programming.With.POSIX.Threads/src/barrier.c:90-144 | every state of every interleaving satisfies the invariant |
| `BarrierProof.NobodyReturnsEarly` | Programming.With.POSIX.Threads/src/barrier.c:90-144 | nobody returns from its n-th wait before all threads have called it n times, and no thread gets a round ahead |
| `BarrierProof.ReleasedIsFree` | Programming.With.POSIX.Threads/src/barrier.c:118-140 | a waiter that was released cannot be trapped again by the next toggle of the one-bit cycle |
| `BarrierProof.OneWakerPerRound` | Programming.With.POSIX.Threads/src/barrier.c:104-144 | in each round exactly one thread gets the return value -1 |
| `BarrierProof.DeadlockFree` | Programming.With.POSIX.Threads/src/barrier.c:90-144 | no reachable state has an unfinished thread and everybody blocked |
| `BarrierProof.CanMove` | Programming.With.POSIX.Threads/src/barrier.c:90-144 | a thread that is not blocked has a step to take |
| `BarrierProof.FinalArrays` | Programming.With.POSIX.Threads/src/barrier_main.c:32-70 | the final arrays and increments are the same for every interleaving |
| `BarrierProof.TotalIs` | Programming.With.POSIX.Threads/src/barrier_main.c:32-70 | the sum of the increments in closed form |
| `BarrierProof.PrintedArrays` | Programming.With.POSIX.Threads/src/barrier_main.c:32-70 | with the program's own constants: the numbers it prints |
| `Heap.SplitTiles` | Operating.Systems.Three.Easy.Pieces/vm-freespace/malloc.py:82-86 | cutting an extent keeps the tiling |
| `Heap.ClaimTiles` | Operating.Systems.Three.Easy.Pieces/vm-freespace/malloc.py:82-90 | moving an extent from the free list to the size map keeps the tiling |
| `Heap.ReleaseTiles` | Operating.Systems.Three.Easy.Pieces/vm-freespace/malloc.py:98-117 | freeing keeps the tiling |
| `Heap.MergeTiles` | Operating.Systems.Three.Easy.Pieces/vm-freespace/malloc.py:118-130 | merging neighbours keeps the tiling |
| `Heap.SortIsStable` | Operating.Systems.Three.Easy.Pieces/vm-freespace/malloc.py:108-116 | the sorted insertions keep equal keys in order |
| `Heap.CoalesceNormal` | Operating.Systems.Three.Easy.Pieces/vm-freespace/malloc.py:118-130 | one pass over an address-ordered list leaves nothing to merge |
| `Heap.FitsIffHole` | Operating.Systems.Three.Easy.Pieces/vm-freespace/malloc.py:50-96 | with address order and coalescing some list entry fits a size exactly when some hole between allocated blocks does |
| `Heap.EntriesAreGaps` | Operating.Systems.Three.Easy.Pieces/vm-freespace/malloc.py:98-133 | with address order and coalescing the list entries are exactly the gaps between allocated blocks, each as far as it goes |
| `Heap.FirstFitIsLowest` | Operating.Systems.Three.Easy.Pieces/vm-freespace/malloc.py:62-80 | first fit takes the lowest address at which the bytes needed are free |
| `Heap.PlaceOrder` | Operating.Systems.Three.Easy.Pieces/vm-freespace/malloc.py:98-117 | where a freed extent goes under each list order: to the front, to the back, or in between so that the list stays sorted |
| `Malloc.Allocator.NeedIsLeast` | Operating.Systems.Three.Easy.Pieces/vm-freespace/malloc.py:50-60 | without the header, what a request needs is itself, or with alignment the least multiple of the alignment that is at least the request |
| `Heap.NothingAllocated` | Operating.Systems.Three.Easy.Pieces/vm-freespace/malloc.py:98-133 | with nothing allocated the list is the one initial extent |
| `Malloc.Allocator.Search` | Operating.Systems.Three.Easy.Pieces/vm-freespace/malloc.py:62-80 | the first, best or worst fit of the policy, and the number of entries looked at; -1 exactly when none fits |
| `Malloc.Allocator.Malloc` | Operating.Systems.Three.Easy.Pieces/vm-freespace/malloc.py:50-96 | free and allocated extents tile the heap after every request, granted or not; a granted address was not in use; with ADDRSORT and coalescing it is where first fit finds the lowest hole, and best and worst fit the lowest smallest and largest gap |
| `Malloc.Allocator.Free` | Operating.Systems.Three.Easy.Pieces/vm-freespace/malloc.py:98-133 | unknown addresses are refused with -1 and nothing changed; otherwise the extent is back where the list order puts it, the tiling kept, and with coalescing no neighbours in the list touch, whatever its order |
| `Malloc.Allocator.FailsOnlyWithoutHole` | Operating.Systems.Three.Easy.Pieces/vm-freespace/malloc.py:50-96 | with ADDRSORT and coalescing a request can be met exactly when some hole fits the aligned size plus header |
| `Malloc.Allocator.AllFreedIsInitial` | Operating.Systems.Three.Easy.Pieces/vm-freespace/malloc.py:98-133 | an empty size map means a single free extent, the whole heap |
| `Malloc.FreeAll` | Operating.Systems.Three.Easy.Pieces/vm-freespace/malloc.py:98-133 | freeing everything, in any order, restores the initial extent |
| `Raid.PmapIsParityDisk` | Operating.Systems.Three.Easy.Pieces/file-raid/raid.py:280-283 | mapping a stripe's first block really yields the parity disk of that stripe |
| `Raid.StripeBijection` | Operating.Systems.Three.Easy.Pieces/file-raid/raid.py:243-278 | in each stripe the data chunks and the parity use every disk exactly once, in RAID 4 and both RAID 5 layouts; which disks these are is what the rows from `Raid.ParityMoves` on say |
| `Raid.MappingIsBijective` | Operating.Systems.Three.Easy.Pieces/file-raid/raid.py:243-283 | every (disk, offset) is the parity of its row or holds exactly one data block, and every data block is held exactly once, never on parity |
| `Raid.ParityMoves` | Operating.Systems.Three.Easy.Pieces/file-raid/raid.py:248-261 | the parity of the first stripe is on the last disk; in RAID 4 it stays there, in RAID 5 that of the next stripe is always one disk further to the front, from the first disk back to the last |
| `Raid.ChunksAscend` | Operating.Systems.Three.Easy.Pieces/file-raid/raid.py:243-266 | in RAID 4 and left-asymmetric RAID 5 later chunks of a stripe are on later disks |
| `Raid.ChunksInTurn` | Operating.Systems.Three.Easy.Pieces/file-raid/raid.py:254-268 | in left-symmetric RAID 5 chunk c is on disk c modulo numDisks |
| `Raid.ConsecutiveChunks` | Operating.Systems.Three.Easy.Pieces/file-raid/raid.py:254-268 | so any numDisks consecutive chunks are on different disks |
| `Raid.OffsetInRow` | Operating.Systems.Three.Easy.Pieces/file-raid/raid.py:243-258 | a block is in the row of its stripe, at its place in its chunk |
| `Raid.NoTwoBlocksCollide` | Operating.Systems.Three.Easy.Pieces/file-raid/raid.py:243-278 | two logical blocks never share a place |
| `RaidWrite.SubtractiveSuffices` | Operating.Systems.Three.Easy.Pieces/file-raid/raid.py:289-301 | what the subtractive branch reads, with the new data, determines the parity it writes |
| `RaidWrite.AdditiveSuffices` | Operating.Systems.Three.Easy.Pieces/file-raid/raid.py:302-314 | what the additive branch reads, with the new data, determines the parity it writes |
| `RaidWrite.EachBlockOnce` | Operating.Systems.Three.Easy.Pieces/file-raid/raid.py:323-354 | a write of [addr, addr+size) writes each data block of the range exactly once and no other |
| `RaidWrite.InBlockOrder` | Operating.Systems.Three.Easy.Pieces/file-raid/raid.py:286-321 | reads and writes go through the blocks of a range in their order |
| `RaidWrite.OffsetsInOrder` | Operating.Systems.Three.Easy.Pieces/file-raid/raid.py:292-300 | each row is listed once, in the order in which it is first met |
| `RaidWrite.ParityRequests` | Operating.Systems.Three.Easy.Pieces/file-raid/raid.py:292-320 | the parity of each listed row is read or written once, in that order |
| `RaidWrite.ParityReadIff` | Operating.Systems.Three.Easy.Pieces/file-raid/raid.py:286-314 | the old parity is read if and only if the blocks written and one more are at most the other blocks of the stripe |
| `RaidWrite.WriteKeepsParity` | Operating.Systems.Three.Easy.Pieces/file-raid/raid.py:286-354 | parity is written exactly for the rows with a written block, what the whole write reads determines each parity written, and every other row's parity on disk is still right |
| `RaidDisks.SegmentRuns` | Operating.Systems.Three.Easy.Pieces/file-raid/raid.py:286-354 | carried out in order on disks with contents, a partial write reads everything before it writes anything; what it writes at a place depends only on what it read and the new data |
| `RaidDisks.WriteOnDisks` | Operating.Systems.Three.Easy.Pieces/file-raid/raid.py:286-354 | on disks whose every parity block is the exclusive or of its row, a write of any length at any address leaves them so, the new values in the blocks written, and all other blocks as they were |
| `RaidWrite.Array.DoPartialWrite` | Operating.Systems.Three.Easy.Pieces/file-raid/raid.py:286-321 | the requests of a partial write, in order, are those of the plan |
| `RaidWrite.Array.Enqueue` | Operating.Systems.Three.Easy.Pieces/file-raid/raid.py:323-358 | stripe by stripe, the requests are those of the plan; a read touches each block of the range in order |
| `PageTable.MasksAndShifts` | Operating.Systems.Three.Easy.Pieces/vm-smalltables/paging-multilevel-translate.py:65-80 | on 15-bit addresses the masks and shifts are the divisions and remainders used here |
| `PageTable.TranslateIsLookup` | Operating.Systems.Three.Easy.Pieces/vm-smalltables/paging-multilevel-translate.py:146-158 | translate on tables in raw memory is a lookup in the map from (process, page) to frame; it faults exactly on unmapped pages, with -1 exactly when no page of the same directory slot is mapped |
| `PageTable.NoAliasing` | Operating.Systems.Three.Easy.Pieces/vm-smalltables/paging-multilevel-translate.py:146-158 | equal physical addresses come from the same process, page and offset |
| `PageTable.TranslateInNumbers` | Operating.Systems.Three.Easy.Pieces/vm-smalltables/paging-multilevel-translate.py:146-158 | in numbers: the byte at a 15-bit address is in page va / 32, at place va % 32 of its frame of 32 bytes, and faults exactly when that page is mapped to no frame |
| `PageTable.DataPagesAreFree` | Operating.Systems.Three.Easy.Pieces/vm-smalltables/paging-multilevel-translate.py:160-162 | filling a data page damages no table |
| `PageTable.AddChild` | Operating.Systems.Three.Easy.Pieces/vm-smalltables/paging-multilevel-translate.py:126-144 | writing a valid entry adds exactly one node to the tree of tables |
| `PageTableOS.OS.FindFree` | Operating.Systems.Three.Easy.Pieces/vm-smalltables/paging-multilevel-translate.py:82-89 | any free page, and failure exactly when all 128 are in use |
| `PageTableOS.OS.AllocVirtualPage` | Operating.Systems.Three.Easy.Pieces/vm-smalltables/paging-multilevel-translate.py:126-144 | its assertions hold, the page is mapped to the frame, no other mapping changes |
| `PageTableOS.OS.ProcAlloc` | Operating.Systems.Three.Easy.Pieces/vm-smalltables/paging-multilevel-translate.py:146-188 | on success the addresses of the process that translate are exactly those on the distinct pages returned; in any case every other process translates and faults as before |
| `PageTableOS.OS.Populate` | Operating.Systems.Three.Easy.Pieces/vm-smalltables/paging-multilevel-translate.py:164-188 | on success the process maps exactly the distinct pages returned; failure only when memory is exhausted; pages in use before keep their contents |
| `PageTableOS.OthersUnaffected` | Operating.Systems.Three.Easy.Pieces/vm-smalltables/paging-multilevel-translate.py:164-188 | every other process translates, faults and loads exactly as before |
| `Ffs.FileSystem.RangeFree` | Operating.Systems.Three.Easy.Pieces/file-ffs/ffs.py:181-195 | true exactly when the next min(needed, chunks_free) blocks are in the group and free |
| `Ffs.FileSystem.AllocateBlocks` | Operating.Systems.Three.Easy.Pieces/file-ffs/ffs.py:202-234 | ends for every bitmap, contiguity policy and large-file limit, with exactly size distinct blocks that were free; nothing else changes; in each visit to a group a block is taken exactly where a run starts that is long enough for the policy or for what is still needed, until the limit is reached; with single blocks and no limit, no free block is passed over |
| `FfsWalk.WalkIsDetermined` | Operating.Systems.Three.Easy.Pieces/file-ffs/ffs.py:202-234 | the bitmap, the target group, the size, the policy and the limit determine the blocks taken, in order |
| `FfsWalk.SinglesAreFirstFit` | Operating.Systems.Three.Easy.Pieces/file-ffs/ffs.py:202-234 | with single blocks and no limit the walk ends within one lap, and the blocks are the first free ones it meets |
| `Ffs.FileSystem.AllocateNothing` | Operating.Systems.Three.Easy.Pieces/file-ffs/ffs.py:202-234 | for a size of 0 or less the loop ends too, always in its assertion, at a block in use, with only blocks that were free taken before |
| `FfsBitmap.LapIsFull` | Operating.Systems.Three.Easy.Pieces/file-ffs/ffs.py:224-232 | a full lap over the groups without a free block means there is none |
| `Ffs.FileSystem.FindFreeInodesNear` | Operating.Systems.Three.Easy.Pieces/file-ffs/ffs.py:149-161 | the nearest other group, up or down and round the end, that has a free inode, of two as near the one above; 1 only when no other has one |
| `Ffs.FileSystem.FindMostFreeInodesMultiple` | Operating.Systems.Three.Easy.Pieces/file-ffs/ffs.py:133-147 | the group returned is where the first of the windows with most free inodes starts, and the assertion that one is found holds while any inode is free |
| `FfsWindows.PickedIsFirstBest` | Operating.Systems.Three.Easy.Pieces/file-ffs/ffs.py:133-147 | that group starts a window; no window has more free inodes, and every earlier one has fewer |
| `FfsWindows.PickedHasFree` | Operating.Systems.Three.Easy.Pieces/file-ffs/ffs.py:133-147 | the group returned has a free inode itself, for every bitmap with a free inode, if and only if windows are of one group or there is a single group |
| `FfsWindows.SinglesPickMost` | Operating.Systems.Three.Easy.Pieces/file-ffs/ffs.py:133-147 | with windows of one group it has most free inodes of all groups |
| `Ffs.FileSystem.PickGroup` | Operating.Systems.Three.Easy.Pieces/file-ffs/ffs.py:163-179 | a regular file, when inodes are not spread, gets its parent's group if that has a free inode and else the nearest that has one; everything else gets the start of the best window |
| `Ffs.FileSystem.FindMinDataUsage` | Operating.Systems.Three.Easy.Pieces/file-ffs/ffs.py:248-256 | the first of the groups with most free blocks; -1 exactly when no block is free |
| `Ffs.ParentAndName` | Operating.Systems.Three.Easy.Pieces/file-ffs/ffs.py:78-82 | a path of a directory and a name without a slash is taken apart into these |
| `Ffs.FarawayRun` | Operating.Systems.Three.Easy.Pieces/file-ffs/ffs.py:309-377 | the smallest instance: of two groups of one inode, in windows of two, the group picked for a new directory is full; the create succeeds with inode number -1 and do_verify fails |
| `Ffs.FindsInodeIf` | Operating.Systems.Three.Easy.Pieces/file-ffs/ffs.py:309-377 | windows of one group, a single group, or a regular file that is not spread: then the group picked always has a free inode |
| `Ffs.FileSystem.DoCreate` | Operating.Systems.Three.Easy.Pieces/file-ffs/ffs.py:309-377 | for every path, size, type and setting each ending is the one its checks call for, the abort exactly for the path "/"; a success takes one free inode, size free blocks and one entry and keeps the do_verify assertions if the group picked has a free inode, and otherwise books the last inode of the group twice and breaks them; the blocks are those of the walk from the inode's group, or with data spread from the emptiest one; a new directory lists "." and "..", both as 0 |
| `Ffs.FileSystem.DoVerify` | Operating.Systems.Three.Easy.Pieces/file-ffs/ffs.py:416-436 | on any state it can read, the assertions all hold exactly when the free totals match the bitmaps and every block of a named file is marked with its inode; none fails on a state the operations keep |
| `LfsDisk.SnapshotStable` | Operating.Systems.Three.Easy.Pieces/file-lfs/lfs.py:269-272 | while the log only grows, every file and directory reached from the on-disk checkpoint, down to its blocks, is unchanged, also in the middle of an operation |
| `LfsDisk.SyncAgrees` | Operating.Systems.Three.Easy.Pieces/file-lfs/lfs.py:317-343 | right after cr_sync the disk path and the inode map give the same inode for every number whose imap chunk is current |
| `LfsDisk.RelogShaped` | Operating.Systems.Three.Easy.Pieces/file-lfs/lfs.py:379-387 | update_imap brings the chunks of the listed numbers up to date and spoils no other |
| `LfsPaths.WalkIsChain` | Operating.Systems.Three.Easy.Pieces/file-lfs/lfs.py:345-377 | a path leads to number n in directory p if and only if its names but the last lead from the root, directory by directory, to p by a chain that starts with number 0, and p lists the last name as n; it is not found exactly when a name of the chain is missing, and broken exactly when one is no directory |
| `LfsPaths.EntryPlace` | Operating.Systems.Three.Easy.Pieces/file-lfs/lfs.py:404-426 | a new entry takes the first free slot of its directory; only without one does the directory grow by a block, and only with no pointer left is it refused |
| `Lfs.NestedCreate` | Operating.Systems.Three.Easy.Pieces/file-lfs/lfs.py:428-494 | from the initial state, for any two free numbers: after creating directory /d and then file /d/f, d lists f with its number, and the root lists d but no f |
| `LfsOps.CreateShaped` | Operating.Systems.Three.Easy.Pieces/file-lfs/lfs.py:428-494 | a create keeps the log well-formed and every imap chunk current |
| `LfsNames.CreateNames` | Operating.Systems.Three.Easy.Pieces/file-lfs/lfs.py:404-494 | after a create of a name not found, "-" included, the directory leads from it to the new inode and from every other name but "-" to where it led before |
| `LfsNames.CreateTidy` | Operating.Systems.Three.Easy.Pieces/file-lfs/lfs.py:404-494 | a create of a name not found lists no name twice |
| `LfsOps.LinkShaped` | Operating.Systems.Three.Easy.Pieces/file-lfs/lfs.py:506-557 | a link leaves the chunk of the linked number out of date exactly when it is not the destination directory's chunk |
| `LfsOps.LinkThenSync` | Operating.Systems.Three.Easy.Pieces/file-lfs/lfs.py:541-557 | after such a link and a cr_sync the disk path still shows the old reference count; with a shared chunk it shows the new one |
| `Lfs.LinkAcrossChunks` | Operating.Systems.Three.Easy.Pieces/file-lfs/lfs.py:428-557 | an instance from the initial state: a file created in the root under any free number and linked there; after a cr_sync the disk path shows one reference and the memory path two, unless the number is below 16 |
| `LfsNames.LinkNames` | Operating.Systems.Three.Easy.Pieces/file-lfs/lfs.py:506-557 | after a link the new name, "-" included, leads to the linked file and every other name but "-" where it led before |
| `LfsNames.LinkTidy` | Operating.Systems.Three.Easy.Pieces/file-lfs/lfs.py:506-557 | a link of a name not found lists no name twice |
| `LfsNames.DeleteNames` | Operating.Systems.Three.Easy.Pieces/file-lfs/lfs.py:612-656 | after a delete the name deleted leads nowhere, every other name but "-" where it led before, and the file has one reference less or is gone |
| `LfsNames.DeleteTidy` | Operating.Systems.Three.Easy.Pieces/file-lfs/lfs.py:612-656 | a delete keeps every name listed once and every file with a reference |
| `LfsRefs.CreateRefs` | Operating.Systems.Three.Easy.Pieces/file-lfs/lfs.py:428-494 | if every file has as many references as directory entries and no entry names a free inode, this holds after a create exactly unless the new entry replaces that of a file named "-", which marks free slots |
| `LfsRefs.LinkRefs` | Operating.Systems.Three.Easy.Pieces/file-lfs/lfs.py:506-557 | a link keeps them equal, too, exactly unless its entry replaces that of a file named "-" |
| `LfsRefs.DeleteRefs` | Operating.Systems.Three.Easy.Pieces/file-lfs/lfs.py:612-656 | a delete keeps reference counts equal to entries, and leaves no entry of an inode it frees |
| `LfsRefs.WriteRefs` | Operating.Systems.Three.Easy.Pieces/file-lfs/lfs.py:559-610 | a write keeps reference counts equal to entries |
| `Lfs.DashOverwritten` | Operating.Systems.Three.Easy.Pieces/file-lfs/lfs.py:428-494 | an instance from the initial state: a file "-" and then a file "a" are created in the root, and the counts are right after the first and wrong after the second |
| `LfsOps.DeleteShaped` | Operating.Systems.Three.Easy.Pieces/file-lfs/lfs.py:612-656 | a delete keeps the log well-formed and every imap chunk current |
| `LfsOps.WriteThenRead` | Operating.Systems.Three.Easy.Pieces/file-lfs/lfs.py:575-603 | each block written is at its place in the file, and the others are as before |
| `LfsFiles.CreateViews` | Operating.Systems.Three.Easy.Pieces/file-lfs/lfs.py:428-494 | of all files and directories, seen with their type, size, count and blocks, a create changes the directory and adds the new one: an empty file with one reference, or a directory of one block with two |
| `LfsFiles.LinkViews` | Operating.Systems.Three.Easy.Pieces/file-lfs/lfs.py:541-557 | a link changes the directory and the count of the file linked |
| `LfsFiles.DeleteViews` | Operating.Systems.Three.Easy.Pieces/file-lfs/lfs.py:612-656 | a delete changes the directory and the count of the file, or with the last reference removes it |
| `LfsFiles.WriteViews` | Operating.Systems.Three.Easy.Pieces/file-lfs/lfs.py:559-610 | a write changes its file only: the blocks written, and the size where these go beyond it |
| `LfsFiles.SyncViews` | Operating.Systems.Three.Easy.Pieces/file-lfs/lfs.py:317-320 | writing the checkpoint changes nothing |
| `Lfs.LFS.FileCreate` | Operating.Systems.Three.Easy.Pieces/file-lfs/lfs.py:428-504 | the path now leads to the new inode, in the directory it led to, and every other path leads where it led (paths with a component "-" aside); reference counts stay right for names other than "-"; with forcing off nothing a crash can see changes; failures change nothing at all; the inode number taken was free, the first such under the sequential policy |
| `Lfs.LFS.FileLink` | Operating.Systems.Three.Easy.Pieces/file-lfs/lfs.py:506-557 | as above: afterwards both paths lead to the file, and all others where they led; the inode map and the imap agree afterwards exactly when source and directory share a chunk |
| `Lfs.LFS.FileDelete` | Operating.Systems.Three.Easy.Pieces/file-lfs/lfs.py:612-656 | as above: the path leads nowhere afterwards, and all others where they led; its assertion that the entry is found holds |
| `Lfs.LFS.FileWrite` | Operating.Systems.Three.Easy.Pieces/file-lfs/lfs.py:559-610 | as above: all paths lead where they led; the number of blocks written is what fits in the inode |
| `Lfs.LFS.SyncOperation` | Operating.Systems.Three.Easy.Pieces/file-lfs/lfs.py:317-320 | afterwards the disk path and the memory path agree on every inode |
| `Lfs.ForcedPathsAgree` | Operating.Systems.Three.Easy.Pieces/file-lfs/lfs.py:317-343 | with forcing on they agree after every operation that keeps the chunks current |
| `Afs.StepCoherent` | Operating.Systems.Three.Easy.Pieces/dist-afs/afs.py:401-491 | whatever a client does next, valid clean copies everywhere hold the server's contents, and no other client's data changes |
| `Afs.RunCoherent` | Operating.Systems.Three.Easy.Pieces/dist-afs/afs.py:401-491 | hence in every schedule |
| `AfsSessions.Sessions` | Operating.Systems.Three.Easy.Pieces/dist-afs/afs.py:401-491 | with one descriptor per file and client, in every schedule: no assertion fails, the server holds what the last close after a write left, and an open file shows its own last write or what it held when opened |
| `AfsSessions.OpenSeesLastClose` | Operating.Systems.Three.Easy.Pieces/dist-afs/afs.py:401-410 | an open sees the last close after a write, by whichever client |
| `AfsSessions.OpenCounts` | Operating.Systems.Three.Easy.Pieces/dist-afs/afs.py:401-410 | an open counts its reference unless it finds an invalidated copy still referenced; it keeps a write not yet closed exactly when the copy is valid, and the data exactly when the copy is valid or equal to the server's |
| `AfsSessions.ReopenLosesWrite` | Operating.Systems.Three.Easy.Pieces/dist-afs/afs.py:401-410 | after any disciplined run in which two clients have a file open and have both written to it, a close by one and a second open by the other discard the write of the other and count its two descriptors as one |
| `AfsSessions.ValidUnlessStale` | Operating.Systems.Three.Easy.Pieces/dist-afs/afs.py:401-491 | in every disciplined run the copy of an open file is valid exactly when no other client has closed the file after a write since it was opened |
| `AfsSessions.FirstReopen` | Operating.Systems.Three.Easy.Pieces/dist-afs/afs.py:401-410 | the first time a client opens a file it has open, the reference and an unsaved write are lost if and only if another client has closed the file after a write since; otherwise both are kept and counted |
| `AfsSessions.CopiesKept` | Operating.Systems.Three.Easy.Pieces/dist-afs/afs.py:119-133 | in every disciplined run a client keeps a valid copy from its first open on, also while the file is closed, until another client closes the file after a write; it needs the server at the next open exactly if such a close has come in between |
| `AfsSessions.BothCanWrite` | Operating.Systems.Three.Easy.Pieces/dist-afs/afs.py:422-491 | such a run |
| `AfsSessions.Simulation.ServerPut` | Operating.Systems.Three.Easy.Pieces/dist-afs/afs.py:119-133 | the callback scan invalidates the copies of all others that fetched the file |
| `AfsSessions.Simulation.Step` | Operating.Systems.Three.Easy.Pieces/dist-afs/afs.py:422-491 | one action of one client; coherence is kept |
| `Mlfq.BoostKeeps` | Operating.Systems.Three.Easy.Pieces/cpu-sched-mlfq/mlfq.py:230-250 | a boost loses no job and duplicates none |
| `Mlfq.BoostRaises` | Operating.Systems.Three.Easy.Pieces/cpu-sched-mlfq/mlfq.py:230-250 | after a boost every unfinished job has the highest priority, lower queues are empty, and those already in the highest queue stay in front |
| `MlfqLaws.BoostOrder` | Operating.Systems.Three.Easy.Pieces/cpu-sched-mlfq/mlfq.py:230-250 | a boost puts the lower queues, from the lowest up and each in its order, behind the highest; unfinished jobs get the highest priority and the allotment of its level as ticks left, and nothing else changes |
| `Mlfq.ArriveKeeps` | Operating.Systems.Three.Easy.Pieces/cpu-sched-mlfq/mlfq.py:252-261 | a job that begins or completes its I/O enters the queue of its priority and is no longer pending; at which end is what `MlfqRun.Scheduler.Arrivals` says |
| `Mlfq.TickKeeps` | Operating.Systems.Three.Easy.Pieces/cpu-sched-mlfq/mlfq.py:274-355 | after a tick every job is finished, once in the queue of its priority, or once pending |
| `MlfqLaws.TickOrder` | Operating.Systems.Three.Easy.Pieces/cpu-sched-mlfq/mlfq.py:274-355 | a tick keeps the order of all other jobs; the job that ran leaves the queues when it finishes or issues an I/O, goes to the end of its level's queue when its quantum ends, and else stays at the head |
| `MlfqLaws.TickDue` | Operating.Systems.Three.Easy.Pieces/cpu-sched-mlfq/mlfq.py:334-343 | an I/O is due just ioTime after the tick that issued it, behind what was due then before; no other tick makes anything due |
| `MlfqLaws.HeldKept` | Operating.Systems.Three.Easy.Pieces/cpu-sched-mlfq/mlfq.py:308-355 | a job with an I/O at least every quantum times allotment less one tick, under --stay, keeps its level with every tick |
| `MlfqRun.Scheduler.Arrivals` | Operating.Systems.Three.Easy.Pieces/cpu-sched-mlfq/mlfq.py:252-261 | the due jobs of each priority stand, in the order they are due, behind what was in its queue, which is a prefix of the queue afterwards; with iobump a job that completes an I/O stands in front of all that were queued before it |
| `Mlfq.ChargedUses` | Operating.Systems.Three.Easy.Pieces/cpu-sched-mlfq/mlfq.py:308-355 | with boost off, each tick counts at its level whatever I/O it issues, and the job leaves the level with exactly the tick that uses up quantum times allotment; with stay this holds of ticks without I/O |
| `MlfqRun.Scheduler.FindQueue` | Operating.Systems.Three.Easy.Pieces/cpu-sched-mlfq/mlfq.py:18-26 | the highest nonempty queue, -1 when all are empty |
| `MlfqRun.Scheduler.RunHead` | Operating.Systems.Three.Easy.Pieces/cpu-sched-mlfq/mlfq.py:274-355 | the aborts and assertions on the way are not reached |
| `MlfqRun.Scheduler.Turn` | Operating.Systems.Three.Easy.Pieces/cpu-sched-mlfq/mlfq.py:224-355 | one turn of the loop keeps all books, boosts and admits what is due, and runs the head of the highest nonempty queue for one tick, which counts at that job's level and at no other's; an idle turn brings a pending job nearer |
| `MlfqRun.LevelByTicks` | Operating.Systems.Three.Easy.Pieces/cpu-sched-mlfq/mlfq.py:274-355 | with boost and stay off, in every state of a run, whatever the I/O and the other jobs, an unfinished job is at a level above the lowest if and only if it has run for the ticks of all higher levels and not yet for the quantum times allotment of its own |
| `MlfqRun.PositionIs` | Operating.Systems.Three.Easy.Pieces/cpu-sched-mlfq/mlfq.py:308-355 | the level and the ticks used at it, from the number of ticks run so far |
| `MlfqRun.HeldAtTheTop` | Operating.Systems.Three.Easy.Pieces/cpu-sched-mlfq/mlfq.py:308-355 | with stay and without boost, in every state of a run a job that issues an I/O that often is at the highest level, however long it has run |
| `MlfqRun.HeldIff` | Operating.Systems.Three.Easy.Pieces/cpu-sched-mlfq/mlfq.py:308-355 | and once a job has run for twice quantum times allotment of that level, it is still there if and only if it does |
| `MlfqRun.Scheduler.Run` | Operating.Systems.Three.Easy.Pieces/cpu-sched-mlfq/mlfq.py:224-355 | the loop ends for all quanta, allotments, boosts and I/O patterns; every job has run for its run time and the busy ticks are the sum of the run times; each job first ran no earlier than it began, and its first run, its end and its number of ticks are those in the record of which job ran when |
| `Vsfs.LinkedConsistent` | Operating.Systems.Three.Easy.Pieces/file-implementation/vsfs.py:298-324 | a link keeps reference counts equal to live directory entries, bitmaps equal to what is in use, and one owner per block |
| `Vsfs.UnlinkedConsistent` | Operating.Systems.Three.Easy.Pieces/file-implementation/vsfs.py:265-296 | so does removing one of several links |
| `Vsfs.ReleasedConsistent` | Operating.Systems.Three.Easy.Pieces/file-implementation/vsfs.py:245-254 | so does freeing a file that nothing names |
| `Vsfs.NewDirConsistent` | Operating.Systems.Three.Easy.Pieces/file-implementation/vsfs.py:326-374 | so does a new directory, with "." and ".." counted |
| `Vsfs.WrittenConsistent` | Operating.Systems.Three.Easy.Pieces/file-implementation/vsfs.py:376-393 | so does a first block |
| `VsfsNames.RemovedGood` | Operating.Systems.Three.Easy.Pieces/file-implementation/vsfs.py:265-296 | after a delete every other path still leads to its inode |
| `VsfsNames.AddedGood` | Operating.Systems.Three.Easy.Pieces/file-implementation/vsfs.py:403-458 | after a create or link every path, the new one included, is listed once in its parent's directory |
| `VsfsTree.CreateTexts` | Operating.Systems.Three.Easy.Pieces/file-implementation/vsfs.py:326-374 | a create makes an empty file, or a directory that lists itself and its parent, and leaves what every file holds; the two entries stay right everywhere |
| `VsfsTree.LinkTexts` | Operating.Systems.Three.Easy.Pieces/file-implementation/vsfs.py:298-324 | a link shows what the file holds under the new path too |
| `VsfsTree.RemoveTexts` | Operating.Systems.Three.Easy.Pieces/file-implementation/vsfs.py:265-296 | a delete leaves what every other path holds, also one to the same file |
| `VsfsTree.WriteTexts` | Operating.Systems.Three.Easy.Pieces/file-implementation/vsfs.py:376-393 | a write shows under every path to the file, and nowhere else |
| `VsfsTree.RootDots` | Operating.Systems.Three.Easy.Pieces/file-implementation/vsfs.py:185-213 | the root of a fresh image lists itself twice |
| `VsfsFs.FileSystem.DoCreate` | Operating.Systems.Three.Easy.Pieces/file-implementation/vsfs.py:326-374 | fails, changing nothing, exactly when there is no room, the name is taken, or an inode or block is lacking |
| `VsfsFs.FileSystem.DoLink` | Operating.Systems.Three.Easy.Pieces/file-implementation/vsfs.py:298-324 | fails, changing nothing, exactly when there is no room or the name is taken |
| `VsfsFs.FileSystem.DeleteFile` | Operating.Systems.Three.Easy.Pieces/file-implementation/vsfs.py:265-296 | its assertions hold; with the last reference the block and the inode are freed |
| `VsfsFs.FileSystem.WriteFile` | Operating.Systems.Three.Easy.Pieces/file-implementation/vsfs.py:376-393 | fails, changing nothing, exactly when the file has a block or none is free |
| `VsfsFs.CorruptionShows` | Operating.Systems.Three.Easy.Pieces/file-journaling/fsck.py:525-619 | a corrupted image is consistent if and only if the corruption was the changed name (kind 7) |
| `VsfsFs.CountsOffByOne` | Operating.Systems.Three.Easy.Pieces/file-journaling/fsck.py:541-564 | a changed reference count is one off in the direction chosen; an orphan counts one reference and has none |
| `VsfsFs.RepairRestores` | Operating.Systems.Three.Easy.Pieces/file-journaling/fsck.py:532-576 | flipping the bit again, the opposite count, the type switched back, the old name: each restores the image, so nothing else was changed |
| `Scheduling.InOrder` | Operating.Systems.Three.Easy.Pieces/cpu-sched/scheduler.py:63-89 | the statistics loop sums turnaround, wait and response of running in list order |
| `Scheduling.SortSorts` | Operating.Systems.Three.Easy.Pieces/cpu-sched/scheduler.py:59-61 | SJF runs the same jobs in order of run time |
| `Scheduling.SortIsStable` | Operating.Systems.Three.Easy.Pieces/cpu-sched/scheduler.py:59-61 | and jobs of equal run time in the order of the list |
| `Scheduling.SortedIsBest` | Operating.Systems.Three.Easy.Pieces/cpu-sched/scheduler.py:59-89 | any order sorted by run time has the smallest sum of turnarounds among all orders of the jobs |
| `Scheduling.SjfIsBest` | Operating.Systems.Three.Easy.Pieces/cpu-sched/scheduler.py:59-89 | SJF minimises total turnaround and total wait over all permutations of the job list |
| `RoundRobin.Schedule` | Operating.Systems.Three.Easy.Pieces/cpu-sched/scheduler.py:91-142 | the loop ends; a job that needs k slices is done when it and the jobs before it have had k slices and those behind it k - 1, or as many as they need; this is its accumulated wait plus its run time; the last job ends at the sum of the run times; a job first runs after one slice, or the whole run, of each job before it |
| `RoundRobin.GotIs` | Operating.Systems.Three.Easy.Pieces/cpu-sched/scheduler.py:108-125 | what a job has run after c slices is c quanta, or all it needs |
| `X86.TestAndJump` | Operating.Systems.Three.Easy.Pieces/threads-locks/x86.py:285-349 | after a test of any of the three forms a conditional jump jumps exactly when the second operand so compares with the first |
| `X86.PushThenPop` | Operating.Systems.Three.Easy.Pieces/threads-locks/x86.py:365-384 | a push and a pop of the same register restore all registers |
| `X86.CallThenReturn` | Operating.Systems.Three.Easy.Pieces/threads-locks/x86.py:353-360 | a return comes back behind the call |
| `X86Programs.Undone` | Operating.Systems.Three.Easy.Pieces/threads-locks/x86.py:244-264 | subtracting undoes adding and the other way round; a change of sign twice changes nothing |
| `X86Programs.RegisterForms` | Operating.Systems.Three.Easy.Pieces/threads-locks/x86.py:238-260 | the register forms do with the value of the register what the immediate forms do with the number |
| `X86Programs.Sums` | Operating.Systems.Three.Easy.Pieces/threads-locks/x86.py:244-264 | adding twice adds the sum, multiplying by one more adds the register once more, and what follows for 0, 1, 2 and -1 |
| `X86Programs.MovedIsThere` | Operating.Systems.Three.Easy.Pieces/threads-locks/x86.py:206-208 | a number moved into a register is what the tests find there |
| `X86Programs.Addresses` | Operating.Systems.Three.Easy.Pieces/threads-locks/x86.py:211-236 | how an address moves with its registers and its scale; lea leaves the address itself |
| `X86Programs.StoreThenLoad` | Operating.Systems.Three.Easy.Pieces/threads-locks/x86.py:211-226 | what is stored is loaded again, and no other word changes |
| `X86Programs.PushAddressThenPop` | Operating.Systems.Three.Easy.Pieces/threads-locks/x86.py:370-384 | a push of an address leaves the address, taken after the stack pointer moved |
| `X86Programs.LoopCounts` | Operating.Systems.Three.Easy.Pieces/threads-intro/looping-race-nolock.s:1-15 | alone, the counting loop adds bx to its word and halts with instruction number 6 * bx + 1 |
| `X86.TicketsIncrease` | Operating.Systems.Three.Easy.Pieces/threads-locks/x86.py:275-280 | whichever threads fetch and add to one word, in whatever order: if all add something positive, each gets a larger number than everybody before it |
| `TicketLock.MutualExclusion` | Operating.Systems.Three.Easy.Pieces/threads-locks/ticket.s:1-30 | for any number of threads, interrupted between any two instructions: in every state of every run at most one is in the critical section |
| `TicketLock.NoLostUpdate` | Operating.Systems.Three.Easy.Pieces/threads-locks/ticket.s:1-30 | when all threads have halted, the shared count has grown by the sum of their loop counts, and the lock is free |
| `TicketLock.EntersInTurn` | Operating.Systems.Three.Easy.Pieces/threads-locks/ticket.s:7-11 | who enters has the number whose turn it is, which is smaller than that of everybody waiting |
| `TicketLock.NotAllInVain` | Operating.Systems.Three.Easy.Pieces/threads-locks/ticket.s:7-11 | while some thread has not halted, one that has not is not waiting for another's turn to end |
| `TicketLock.Nearer` | Operating.Systems.Three.Easy.Pieces/threads-locks/ticket.s:7-11 | a thread whose turn it is enters after at most five instructions of its own, whatever the others do in between |
| `TicketLock.NeverFails` | Operating.Systems.Three.Easy.Pieces/threads-locks/ticket.s:1-30 | no instruction of it ever fails |
| `X86.StepLocal` | Operating.Systems.Three.Easy.Pieces/threads-locks/x86.py:206-385 | an instruction that keeps to a set of addresses does the same on memories that agree there and changes nothing else |
| `X86.Cpu.Execute` | Operating.Systems.Three.Easy.Pieces/threads-locks/x86.py:888-907 | the current thread ends up where it would be alone, fails only where it would fail alone, and disturbs no other |
| `X86.Cpu.Switch` | Operating.Systems.Three.Easy.Pieces/threads-locks/x86.py:1012-1078 | save, next and restore lose nothing |
| `X86.Cpu.Turn` | Operating.Systems.Three.Easy.Pieces/threads-locks/x86.py:883-938 | one turn of run(), for any choice of interrupts and next threads, keeps every thread where it would be alone |
| `X86.ScheduleIndependent` | Operating.Systems.Three.Easy.Pieces/threads-locks/x86.py:862-947 | threads with memory of their own leave the same words in it under every interrupt schedule |
| `X86.Cpu.Run` | Operating.Systems.Three.Easy.Pieces/threads-locks/x86.py:862-938 | when every thread alone halts after its number of instructions, every schedule runs without failing and ends after the sum of these |
| `Vectors.DeadlockFree` | Operating.Systems.Three.Easy.Pieces/threads-bugs/vector-global-order.c:11-21 | for any number of threads and vectors, while some thread has calls left some thread can take a step |
| `Vectors.StepValues` | Operating.Systems.Three.Easy.Pieces/threads-bugs/vector-global-order.c:22-25 | while a thread adds, the locks keep both its vectors from all others |
| `Vectors.RunAll` | Operating.Systems.Three.Easy.Pieces/threads-bugs/vector-global-order.c:11-29 | every schedule ends with all locks free and the vectors as if the additions had been done one at a time, in an order that keeps each thread's own |

## Left out

- Printing, tracing, option parsing, input files and the quiz modes of all programs.
- Random number streams: choices are arbitrary instead; loops that draw until a draw fits (free pages, free bits, free
  inodes) become one arbitrary fitting choice, while the CLOCK search, whose draws change state, is kept as a loop.
- `ssd.py`: the direct and ideal modes, and all operation counters but failed writes; at least one block of at least one
  page is assumed.
- `malloc.py`: a heap of size at least 1, a start and a header that are not negative; requests are at least 1.
- `raid.py`: RAID 0 and 1, disk timing and statistics; a block's contents are one byte in the parity theorems.
- `paging-multilevel-translate.py`: `procAlloc` is called with a new process number each time, as in its program.
- `ffs.py`: `do_delete`, which divides by the number of groups, display symbols, and the statistics on distances.
- Ffs.FileSystem.DoCreate: starts from right books and a contiguity policy of at least 1; of the creates after one that
  booked an inode twice, and of what is left after the abort, nothing is said.
- `lfs.py`: liveness and dumps; operations use the in-memory inode map, and the disk path is the function `DiskInode`,
  which finds nothing behind a pointer of -1 where Python would index from the end.
- LfsNames.CreateNames: does not say where the name "-", the mark of free slots, leads after an entry of another name is
  added; it leads to the first free slot left.
- LfsNames.LinkNames: the same.
- LfsNames.DeleteNames: does not say where "-" leads afterwards.
- `afs.py`: descriptor tables and statistics; an action names the file its descriptor was opened for. Server, caches and
  clients are one object, `Simulation`.
- Mlfq.ChargedUses: not for a tick that issues I/O under stay, which resets the counters; what holds then is `HeldIff`.
- MlfqRun.LevelByTicks: boost and stay off; a boost sets a job's ticks to the allotment of the high queue, so no exact
  tick count holds with it.
- `vsfs.py`: blocks and inodes are values in the file system's lists, so aliasing of block objects is not captured; paths
  are lists of components and the lists of known files and directories are sets.
- `scheduler.py` runs on floating point; the model uses reals. Averages are left as sums.
- RoundRobin.Schedule: the quantum is positive, as otherwise the loop does not end; jobs are numbered by position.
- `x86.py`: parsing and tracing; code is kept apart from data, so a program that reads or writes its own instructions
  stops in the model. The order of `procsched` is any order.
- `vector-global-order.c`: 32-bit overflow of the sums, printing and its lock; a step adds one element.
- `process-run.py` and `fork.py`: smaller state machines of the kinds treated above.
- The programs with planted bugs or empty exercise bodies, `backoff.c`, and the remaining examples of system calls.
