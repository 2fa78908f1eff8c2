# xv6 and its course extensions

A Dafny model of the parts of the repository whose correctness is hardest to see, each with proofs of what it is for. The
stock kernel and tools are those of `Xv6/xv6-public`; the process table and the lottery are those of `Offline-03`, demand
swapping is that of `Offline-04`, and the VIP channel is the airport simulation of `Offline-02`. `dafny verify
dfyconfig.toml` checks everything.

| module | what it models |
|---|---|
| `Params` | shared constants and helpers |
| `Blocks` | disk blocks as bytes, and the words in them |
| `BufferCache` | bio.c over the memory disk: reference counts, dirty pins, the LRU ring as it is linked |
| `Redo` | log.c on the disk: every image that a commit or a recovery leaves, and what a recovery makes of it |
| `Log`, `LogRuns` | log.c in memory: reservations, absorption, group commit, over the buffer cache; runs from boot that panic |
| `BlockMap`, `FileBlocks`, `ChunkBound` | fs.c and file.c: the free map, direct and indirect blocks, file contents, truncation, chunked writes and how many blocks they log |
| `FileCrash` | filewrite, the log and the disk together |
| `FreeList`, `Umalloc` | umalloc.c: the free list as a value, and the pointer code that represents it |
| `Swap` | the swapping vm.c: resident list, swap slots, page table bits, against one flat memory |
| `PageTable`, `Vm` | vm.c and kalloc.c: two-level tables as flat maps, and every frame in use in exactly one way |
| `ProcTable`, `Lottery` | proc.c: slots from fork to wait as one tree under init; the draw and its exact shares |
| `Lfsr` | the random numbers of proc.c: their full period, and who wins in a round of them |
| `SleepLock` | sleeplock.c over sleep and wakeup, one spinlock operation a step |
| `Pipe` | pipe.c: the ring with wrapping counters as a queue, and any number of readers and writers |
| `Grep` | grep.c's matcher against a meaning of patterns |
| `Syntax`, `Shell` | sh.c: the grammar, its round trip, and the parser that advances over and cuts its buffer |
| `VipChannel` | 1705043_IPC.cpp: two directions, two counters, four mutexes, any number of passengers |

Code that changes things in place is a class whose methods carry the loops and assignments of the original; a C pointer
is an index, and a panic is a result that the contract characterises. A crash of the file system may fall between any two
writes of the memory disk, each of which is atomic (memide.c:39-60), and loses all memory. Where processes interleave, the
methods are critical sections and their common invariant holds between them, or the protocol is a step machine and the
theorems are about all its runs.

Results that differ from what one might expect of the code:

- log_write tests for a full log before it looks whether the block is logged already (log.c:217-219), so logging a block
  again can panic inside a reservation (`LogRuns.RelogPanics`). It also compares with `size - 1`, while mkfs makes the
  size LOGSIZE: `Log.PromiseKept` shows that reservations suffice if and only if the size exceeds LOGSIZE.
- A commit panics in bget when the logged blocks and those in the hands of others are NBUF distinct blocks
  (`Log.LogState.Commit`). With mkfs's log that takes a reader besides 29 logged blocks (`LogRuns.ReaderPanics`), since
  fileread is in no operation; LOGSIZE = NBUF logged blocks alone take a larger log. So no size of the log is safe
  (`LogRuns.NoSizeIsSafe`).
- A process of the swapping kernel that grows past 30 pages makes the scan for a free entry leave its array
  (`Swap.Proc.Allocuvm`).
- allocproc does not clear the killed mark. A new process carries it exactly if a kill has struck the slot, since wait last
  cleared it, while it was unused or being made (`ProcTable.PTable.ForkDone`): kill(0) does, as does a kill of the pid that
  a failed fork has left (`BornKilled`, `BornKilledStackless`, `BornKilledUndone`).
- A killed writer that fills a pipe returns without waking readers (`Pipe.StepSleepers`
  gives exactly that step, `Pipe.StrandedRun` a run to it).
- uva2ka reads through the null pointer that walkpgdir returns where there is no page table; `Vm.Kernel.Copyout` says exactly
  when. Address 0 is mapped in the running process, so the read succeeds there: the code takes the process's first word for
  an entry and, if that has the right bits, goes on to copy to wherever it points. What follows the read is not modelled.
- The page fault handler of the swapping kernel reads the same null pointer (trap.c:92-93); there the process is killed
  whatever the word is, after page 0 has been swapped in if it was out (`Swap.Proc.Fault`).
- The lottery compares with `>`, which moves one ticket from the last runnable process to the first
  (`Lottery.ExactShares`).

## Model

| member | source | states |
|---|---|---|
| `BufferCache.BCache.constructor` | Xv6/xv6-public/bio.c:39-56 | all buffers start unpinned as (device 0, block 0), linked into one ring; the logical disk is the disk |
| `BufferCache.BCache.Iderw` | Xv6/xv6-public/memide.c:39-60 | one atomic block transfer: a dirty buffer is written and cleaned, an invalid one is read; the panic happens exactly for nothing to do, a wrong device or a block out of range |
| `BufferCache.BCache.Bget` | Xv6/xv6-public/bio.c:62-93 | a buffer that caches the block is shared; otherwise the least recently used unpinned buffer is recycled; it panics exactly when the block is not cached and every buffer is pinned |
| `BufferCache.BCache.Bread` | Xv6/xv6-public/bio.c:62-106 | the buffer returned holds the logical content of the block; a buffer that is recycled for it was released before every other unpinned one; no eviction changes the disk, the logical disk or any other buffer; the exact panic condition, counted in distinct pinned blocks |
| `BufferCache.BCache.Bwrite` | Xv6/xv6-public/bio.c:110-116 | after the write the disk has the logical content of the block and the rest of the disk is as it was; the write is one more disk image |
| `BufferCache.BCache.Brelse` | Xv6/xv6-public/bio.c:121-141 | dropping the last reference puts exactly that buffer first behind the head, with the others in their order, and makes it the last one released; any other release leaves the ring alone |
| `BufferCache.BCache.MoveFirst` | Xv6/xv6-public/bio.c:129-138 | the six pointer writes leave one cycle through all buffers in both directions, with the buffer first and any two others in the order they had |
| `BufferCache.LongestUnused` | Xv6/xv6-public/bio.c:78-92 | the first unpinned buffer from the end of the ring is the one whose last release is longest ago |
| `BufferCache.BCache.ReleaseThenRead` | Xv6/xv6-public/bio.c:62-141 | over two calls: a read that follows the release of a buffer does not recycle it while another unpinned buffer exists, so its block stays cached |
| `BufferCache.Unlinked` | Xv6/xv6-public/bio.c:131-132 | cutting a buffer out of the doubly linked ring leaves a doubly linked ring of the others in the same order |
| `BufferCache.PutInFront` | Xv6/xv6-public/bio.c:133-136 | linking a buffer in behind the head puts it first and keeps the ring doubly linked |
| `BufferCache.AllPinned` | Xv6/xv6-public/bio.c:78-92 | with at most one buffer per block, all buffers are pinned if and only if NBUF distinct blocks are |
| `BufferCache.Recycled` | Xv6/xv6-public/bio.c:78-106 | recycling an unpinned buffer for another block leaves the logical disk as it was and keeps one buffer per block |
| `Redo.HeaderRoundTrip` | Xv6/xv6-public/log.c:86-113 | the header block read back gives the count and the block numbers that were written, for any header of at most LOGSIZE blocks |
| `Redo.LoggedAt` | Xv6/xv6-public/log.c:178-190 | what each disk block holds after any number of log writes |
| `Redo.InstalledAt` | Xv6/xv6-public/log.c:70-82 | what each home block holds after any number of installs, if the logged block numbers are distinct |
| `Redo.RecoverAt` | Xv6/xv6-public/log.c:116-122 | a recovery gives each logged block its logged content and leaves every other home block alone |
| `Redo.SameRecovery` | Xv6/xv6-public/log.c:116-122 | a recovery depends only on the log and on home blocks that are not logged |
| `Redo.ReplayIdempotent` | Xv6/xv6-public/log.c:70-122 | recovering again after a recovery was cut off after any of its writes has the same outcome |
| `Redo.CrashesDoNotMatter` | Xv6/xv6-public/log.c:70-122 | any number of recoveries that crash after any writes, then one that completes, leave the same home blocks as one recovery |
| `Redo.CommittedImage` | Xv6/xv6-public/log.c:178-202 | once the header is written, a recovery leaves all logged blocks new and all others old |
| `Redo.CrashAtomicity` | Xv6/xv6-public/log.c:178-202 | crash atomicity: for a crash after any write of a commit, followed by any crashing recoveries, the home blocks end all old up to the header write and all new from it on |
| `Log.LogState.constructor` | Xv6/xv6-public/log.c:54-66 | starting the log recovers: the durable state is what a recovery makes of the disk, and the invariant of the log holds |
| `Log.LogState.WriteLog` | Xv6/xv6-public/log.c:178-190 | the cached contents go to the log blocks in order and nowhere else; it panics exactly when the logged blocks and those that others hold fill the cache |
| `Log.LogState.InstallTrans` | Xv6/xv6-public/log.c:70-82 | the log blocks go home in order, through the cache, and the blocks are unpinned one by one |
| `Log.LogState.WriteHead` | Xv6/xv6-public/log.c:102-113 | one block write puts the count and numbers into the header block and keeps the rest of that block |
| `Log.LogState.ReadHead` | Xv6/xv6-public/log.c:86-96 | the in-memory header becomes the one on the disk |
| `Log.LogState.RecoverFromLog` | Xv6/xv6-public/log.c:116-122 | the disk becomes the recovered one and its writes are those of the recovery, in order |
| `Log.LogState.Commit` | Xv6/xv6-public/log.c:193-202 | the disk goes through exactly the images of a commit and ends as the recovered committed image; with anything logged it panics exactly when the distinct blocks that are logged or held by others number NBUF |
| `Log.LogState.BeginOp` | Xv6/xv6-public/log.c:126-141 | an operation is admitted exactly when the log has room for all that the admitted ones may still write and no commit runs; with nothing outstanding and no commit it is admitted |
| `Log.LogState.EndOp` | Xv6/xv6-public/log.c:146-161 | its panic is unreachable, and a commit starts exactly when the last operation ends |
| `Log.LogState.LogWrite` | Xv6/xv6-public/log.c:214-233 | a block is absorbed if it is logged already and appended otherwise, and is pinned by its dirty flag; the exact panic condition |
| `Log.LogState.LoggedUpdate` | Xv6/xv6-public/log.c:204-233 | a whole logged update inside an operation keeps the reservation invariant and changes only that block of the logical disk; it panics exactly when LOGSIZE or size - 1 blocks are logged, or when the block is in no buffer and all buffers are busy |
| `Log.LogState.FinishCommit` | Xv6/xv6-public/log.c:162-202 | a commit has no operation outstanding, makes exactly the logical disk durable, and a crash at any of its images recovers to all or nothing; whoever else holds buffers, it panics exactly when they and the logged blocks fill the cache |
| `Log.HasRoom` | Xv6/xv6-public/log.c:126-141 | logged blocks plus unspent reservations never exceed LOGSIZE, so an operation with an unspent reservation finds room |
| `Log.AbsorbReserved` | Xv6/xv6-public/log.c:214-233 | logging one more block within the reservation keeps the accounting |
| `Log.AbsorbLoggable` | Xv6/xv6-public/log.c:214-233 | logged block numbers stay distinct and outside the log |
| `Log.CommitOutcome` | Xv6/xv6-public/log.c:193-202 | every image of a commit recovers to the old durable state before the header write and to the new one from it on, through any crashes |
| `Log.CrashAtRest` | Xv6/xv6-public/log.c:116-122 | a crash while no commit runs recovers to the durable state |
| `Log.PromiseKept` | Xv6/xv6-public/log.c:217-219 | an operation with an unspent reservation is never refused by the size test of log_write if and only if size exceeds LOGSIZE; mkfs makes size equal to LOGSIZE |
| `Log.PinnedAreBusy` | Xv6/xv6-public/log.c:229-231 | the pinned buffers are exactly those of logged blocks and of blocks that somebody uses, so no logged block is recycled before it is committed |
| `Log.BreadFails` | Xv6/xv6-public/bio.c:62-93 | bread finds no buffer if and only if the block is neither logged nor in use and NBUF other blocks are |
| `Log.LogState.Hold` | Xv6/xv6-public/file.c:95-114 | a reader outside of any operation may take a buffer at any time: it sees the logical disk, and the log stays as it is |
| `Log.LogState.LetGo` | Xv6/xv6-public/file.c:95-114 | and may give it back at any time |
| `LogRuns.RelogPanics` | Xv6/xv6-public/log.c:217-219 | from boot, with any size above LOGSIZE: operations fill the log, and one that logs again a block of its own, within its reservation, panics, because the test comes before absorption |
| `LogRuns.ReaderPanics` | Xv6/xv6-public/log.c:178-190 | from boot on the disk that mkfs makes: 29 logged blocks and one block held by a reader make the commit panic |
| `LogRuns.NoSizeIsSafe` | Xv6/xv6-public/log.c:217-219 | from boot, for every size: up to LOGSIZE an operation within its reservation is refused a new block, and above it LOGSIZE blocks can be logged whose commit panics |
| `BlockMap.PointerOwned` | Xv6/xv6-public/fs.c:373-390 | giving a free block to an empty direct or indirect pointer keeps single ownership and the exact free map, and disturbs no other pointer or data |
| `BlockMap.EntryOwned` | Xv6/xv6-public/fs.c:387-397 | the same for an empty entry of an indirect block |
| `BlockMap.WrittenOwned` | Xv6/xv6-public/fs.c:500-504 | writing a data block changes that block of that one file and nothing else of any file |
| `BlockMap.OnePath` | Xv6/xv6-public/fs.c:373-400 | no block is reached by two pointers, in one file or in two |
| `BlockMap.BitmapExact` | Xv6/xv6-public/fs.c:57-95 | a bit of the free map is set if and only if the block is metadata or some pointer of some inode leads to it |
| `BlockMap.WriteStep` | Xv6/xv6-public/fs.c:497-505 | one round of a write brings the file one block closer to the spliced result, byte by byte |
| `BlockMap.WriteResult` | Xv6/xv6-public/fs.c:497-510 | after the last round the file reads as the result, the other files as before, and no file has holes |
| `BlockMap.ReadStep` | Xv6/xv6-public/fs.c:469-474 | part of one block is the same part of the file's byte sequence |
| `BlockMap.FreeStep` | Xv6/xv6-public/fs.c:414-431 | the next block that itrunc frees is not free already |
| `BlockMap.TruncOwned` | Xv6/xv6-public/fs.c:408-435 | after itrunc the free map has lost exactly the blocks of that inode, and the others own what they did |
| `FileBlocks.Fs.Balloc` | Xv6/xv6-public/fs.c:57-78 | the first free block, marked, zeroed and logged; it panics exactly when every bit is set |
| `FileBlocks.Fs.Bfree` | Xv6/xv6-public/fs.c:82-95 | the bit is cleared, and the panic happens exactly when it was clear |
| `FileBlocks.Fs.Bmap` | Xv6/xv6-public/fs.c:373-400 | a mapped block is found, in the pointer or in the entry of the indirect block, with no change at all; otherwise a fresh zeroed block is mapped there, every pointer and all data that was there stays, and the logged blocks are known exactly; it panics exactly when fewer blocks are free than the entry and a missing indirect block need |
| `FileBlocks.Fs.Writei` | Xv6/xv6-public/fs.c:482-511 | the file's bytes become the old ones with the new ones spliced in, across direct, indirect and partial blocks; other files, ownership and the equality of in-memory and on-disk inodes are kept; the exact failure condition; a panic exactly when fewer blocks are free than the range lacks; every changed block is logged, and their number is bounded for any offset and length |
| `FileBlocks.Fs.Readi` | Xv6/xv6-public/fs.c:453-476 | the bytes returned are that part of the file; nothing is ever allocated or changed; the exact failure condition |
| `FileBlocks.Fs.WriteThenRead` | Xv6/xv6-public/fs.c:453-511 | over two calls: what writei has written, readi returns |
| `FileBlocks.Fs.WriteChunk` | Xv6/xv6-public/file.c:137-142 | every transaction of filewrite logs each block it changes and at most MAXOPBLOCKS of them, whatever the offset and the free map |
| `FileBlocks.ChunkFits` | Xv6/xv6-public/file.c:126-133 | a chunk of at most ((MAXOPBLOCKS-1-1-2)/2)*512 bytes costs at most MAXOPBLOCKS logged blocks at any offset |
| `FileBlocks.Fs.Filewrite` | Xv6/xv6-public/file.c:118-156 | a count is returned exactly when there is nothing to write or all of it fits from an offset within the file, and then all bytes were written; otherwise nothing past the end of the file, or exactly the whole chunks that fit the largest file were; the panic for a short write is unreachable, and balloc's happens exactly when fewer blocks are free than what will be written lacks; after each chunk the file reads as with that many chunks written |
| `FileCrash.SmallStep` | Xv6/xv6-public/file.c:126-142 | an operation that logs at most MAXOPBLOCKS blocks changes at most that many blocks of the disk image, and none of the log, however bits and inodes are packed |
| `FileCrash.Transact` | Xv6/xv6-public/log.c:126-233 | any change of at most MAXOPBLOCKS home blocks goes through the log as one operation without a panic, and a crash at any write recovers to the blocks before or after |
| `FileCrash.TransactAll` | Xv6/xv6-public/log.c:126-233 | over any number of such operations, each disk image recovers to the state after a whole number of them, never fewer than the image before it |
| `FileCrash.DurableFilewrite` | Xv6/xv6-public/file.c:118-156 | end to end: whenever a crash comes during filewrite, and however recovery crashes, what is recovered is the file system after a whole number of chunks, even if balloc panics on the way |
| `FileCrash.EncodeLosesNothing` | Xv6/xv6-public/fs.h:38-48 | with any packing that loses no bits or inodes, the blocks of the disk determine the free map, the inodes and the data |
| `BlockMap.NeedSplit` | Xv6/xv6-public/fs.c:373-400 | what a range of blocks lacks is what its first part lacks plus what the rest lacks once the first is mapped, even when they overlap in a block |
| `FileBlocks.PanicBytes` | Xv6/xv6-public/file.c:133-151 | a chunk that cannot get its blocks means that the whole write lacked them from the start |
| `ChunkBound.ReachesBound` | Xv6/xv6-public/file.c:126-142 | the bound is tight: on a sound disk whose four free blocks lie in four free-map blocks, a chunk that starts inside the last direct block logs exactly MAXOPBLOCKS blocks |
| `ChunkBound.Sound` | Xv6/xv6-public/file.c:126-133 | that disk meets the ownership and no-holes invariants |
| `ChunkBound.TenLogged` | Xv6/xv6-public/file.c:126-133 | the ten are four data blocks, the indirect block, the inode and four blocks of the free map, all distinct |
| `FileBlocks.Fs.Itrunc` | Xv6/xv6-public/fs.c:408-435 | the file is empty, exactly its blocks are free again, other files keep theirs, every changed block is logged, and bfree's panic is unreachable |
| `FreeList.InsertHas` | Xv6/xv6-public/umalloc.c:25-44 | a freed block adds exactly its units to the free list |
| `FreeList.InsertCoalesced` | Xv6/xv6-public/umalloc.c:25-44 | the list stays in address order with no two chunks touching |
| `FreeList.TakeHas` | Xv6/xv6-public/umalloc.c:72-82 | an allocation takes exactly its units out of the list |
| `FreeList.Canonical` | Xv6/xv6-public/umalloc.c:25-90 | a coalesced list is determined by the set of units in it |
| `FreeList.FreeUndoesMalloc` | Xv6/xv6-public/umalloc.c:25-90 | freeing what was just allocated restores the very same list |
| `FreeList.FreesCommute` | Xv6/xv6-public/umalloc.c:25-44 | the order in which two blocks are freed leaves no trace in the list |
| `Umalloc.UnitsSuffice` | Xv6/xv6-public/umalloc.c:69 | the units set aside hold the bytes asked for, with less than one header to spare |
| `Umalloc.Heap.FindPlace` | Xv6/xv6-public/umalloc.c:30-32 | the pointer chase round the circle terminates at the node after which the block belongs, with one wrap |
| `Umalloc.InsertRep` | Xv6/xv6-public/umalloc.c:33-43 | the pointer and size writes that merge upwards and downwards represent insertion into the list |
| `Umalloc.Heap.Free` | Xv6/xv6-public/umalloc.c:25-44 | freeing a live block refines insertion, leaves freep at the node just below the block, keeps live blocks apart from each other and from the list, and conserves units |
| `Umalloc.Heap.Morecore` | Xv6/xv6-public/umalloc.c:47-61 | at least 4096 more units join the list, or memory is exhausted and nothing changes |
| `Umalloc.TakeTailRep` | Xv6/xv6-public/umalloc.c:75-79 | the split writes represent taking the tail of a chunk |
| `Umalloc.ScannedAll` | Xv6/xv6-public/umalloc.c:74-83 | a scan that is back at freep has seen every chunk, and none fits |
| `Umalloc.Heap.Malloc` | Xv6/xv6-public/umalloc.c:64-90 | the first chunk that fits, searching from freep, is split or taken, and freep is left at the node before it; the scan terminates, also after morecore has merged into freep; null is returned exactly when nothing fits and memory is exhausted; the new block overlaps no live one; free plus live units stay all units obtained |
| `Umalloc.FirstFitMeans` | Xv6/xv6-public/umalloc.c:71-88 | the chunk that is taken is the only one that fits with none that fits between freep and it, round the circle |
| `Umalloc.MallocTwice` | Xv6/xv6-public/umalloc.c:64-90 | over two calls: if what is left of the chunk still fits the next request, the next block ends where the first begins |
| `Umalloc.FreeConserves` | Xv6/xv6-public/umalloc.c:25-44 | free plus live units are unchanged by free |
| `Umalloc.Heap.StorePayload` | Xv6/xv6-public/umalloc.c:64-90 | a program that writes only inside its blocks cannot break the allocator |
| `Swap.Unlinked` | Offline-04-Xv6-Memory-Management-System/1705043_Submission/my-xv6/vm.c:618-652 | taking an entry out of the list of resident pages, wherever it stands, leaves the list of the others |
| `Swap.Appended` | Offline-04-Xv6-Memory-Management-System/1705043_Submission/my-xv6/vm.c:357-407 | linking an entry behind the tail appends it |
| `Swap.Proc.UpdateListPointers` | Offline-04-Xv6-Memory-Management-System/1705043_Submission/my-xv6/vm.c:618-652 | the four cases of pointer writes remove exactly the given entry |
| `Swap.Proc.AddNewPage` | Offline-04-Xv6-Memory-Management-System/1705043_Submission/my-xv6/vm.c:357-407 | a new page is appended to the list; with 30 pages tracked the scan for a free entry leaves the array |
| `Swap.Proc.MemoryToSwapFile` | Offline-04-Xv6-Memory-Management-System/1705043_Submission/my-xv6/vm.c:499-523 | the page goes to its slot, its frame is freed, its entry leaves the list and its flags turn over |
| `Swap.Proc.FileToMemory` | Offline-04-Xv6-Memory-Management-System/1705043_Submission/my-xv6/vm.c:441-496 | the page comes back from its slot into a new frame at the end of the list |
| `Swap.SwapOutBacked` | Offline-04-Xv6-Memory-Management-System/1705043_Submission/my-xv6/vm.c:410-439 | after a page is written out, every page is still backed by a frame or a slot with its bytes |
| `Swap.FaultTracked` | Offline-04-Xv6-Memory-Management-System/1705043_Submission/my-xv6/vm.c:526-561 | a fault keeps the slots one-to-one and the list equal to the resident pages |
| `Swap.FaultBacked` | Offline-04-Xv6-Memory-Management-System/1705043_Submission/my-xv6/vm.c:526-561 | a fault keeps every page backed by its own bytes |
| `Swap.Proc.Allocuvm` | Offline-04-Xv6-Memory-Management-System/1705043_Submission/my-xv6/vm.c:239-282 | growing appends zero pages to the flat memory until its size rounds up the new one, and changes no other page, swapping out the oldest as needed; it fails, and takes back all it has added, exactly when there are not frames for the pages up to 15; otherwise the array of 30 entries is overrun exactly when the new size needs more pages |
| `Swap.PagesCover` | Offline-04-Xv6-Memory-Management-System/1705043_Submission/my-xv6/vm.c:250-251 | PGROUNDUP gives the only number of pages that holds the size with less than a page to spare |
| `Swap.Proc.FreePages` | Offline-04-Xv6-Memory-Management-System/1705043_Submission/my-xv6/vm.c:288-345 | the part of deallocuvm that a failed allocuvm runs, page by page with DeletePage: the new pages go with their frames and entries, and the others stay |
| `Swap.ShrinkNext` | Offline-04-Xv6-Memory-Management-System/1705043_Submission/my-xv6/vm.c:303-322 | one page gone in the middle of it: its entry leaves the list and its frame is free |
| `Swap.Proc.Fault` | Offline-04-Xv6-Memory-Management-System/1705043_Submission/my-xv6/trap.c:83-107 | a fault on a swapped page resumes with flat memory as it was, and the process is killed exactly on a page that is not swapped; without a page table the null pointer is read at the process's own address 0, which brings page 0 in first if it is swapped out |
| `Swap.Proc.SwapPages` | Offline-04-Xv6-Memory-Management-System/1705043_Submission/my-xv6/vm.c:526-561 | the oldest resident page and the wanted one change places, first in first out |
| `Swap.Proc.Load` | Offline-04-Xv6-Memory-Management-System/1705043_Submission/my-xv6/trap.c:83-107 | a read of any page, present or swapped, gives the flat memory's page |
| `Swap.Proc.Store` | Offline-04-Xv6-Memory-Management-System/1705043_Submission/my-xv6/trap.c:83-107 | a write of any page, present or swapped, updates the flat memory's page and no other |
| `Swap.Proc.GrowThenLoad` | Offline-04-Xv6-Memory-Management-System/1705043_Submission/my-xv6/vm.c:239-282 | over two calls: once the process has grown, a load at any address below the new size is not killed, and reads zero where the process is new |
| `PageTable.TableAdded` | Xv6/xv6-public/vm.c:42-53 | a blank page table changes nothing of any flat map and keeps one use per frame |
| `PageTable.EntrySet` | Xv6/xv6-public/vm.c:69-73 | setting or clearing an entry changes that page of that directory only, and each frame keeps one use |
| `PageTable.DirDropped` | Xv6/xv6-public/vm.c:290-297 | once no user page is left, a directory and all its tables can go without a trace in the other maps |
| `Vm.Kernel.Kalloc` | Xv6/xv6-public/kalloc.c:83-95 | the first free frame, which is in use nowhere, or null exactly when none is free |
| `Vm.Kernel.Kfree` | Xv6/xv6-public/kalloc.c:60-77 | a frame in use becomes free, no frame is ever free twice, and the panic on a wrong address is unreachable |
| `Vm.Kernel.Walkpgdir` | Xv6/xv6-public/vm.c:36-55 | the page table of a page, made blank from a fresh frame if need be; no flat map changes; null exactly when there is none and none can be made |
| `Vm.Kernel.Mappages` | Xv6/xv6-public/vm.c:61-80 | the range is mapped, to consecutive frames and at one frame for each page table it lacks; otherwise either the frames were too few or a page was mapped already, the latter being the panic |
| `Vm.Kernel.Setupkvm` | Xv6/xv6-public/vm.c:119-136 | a new directory maps exactly the kernel ranges and nothing else; it fails, and gives everything back, exactly when fewer frames are free than the directory and the page tables of the ranges; the remap panic is unreachable |
| `Vm.Kernel.Deallocuvm` | Xv6/xv6-public/vm.c:256-279 | skipping absent tables has the effect of the page-by-page loop: exactly the mapped pages of the range go, each with its frame; the panic on frame 0 is unreachable |
| `Vm.Kernel.Allocuvm` | Xv6/xv6-public/vm.c:222-249 | new zeroed pages on distinct frames that were free, and nothing else; it succeeds if and only if no page of the range is mapped and the frames suffice for the pages and the page tables they lack, panics exactly on a mapped page that is reached before they run out, and on failure leaves the user mapping and its frames as before |
| `Vm.UndoNew` | Xv6/xv6-public/vm.c:232-245 | deallocuvm undoes a partial allocuvm |
| `Vm.Kernel.Freevm` | Xv6/xv6-public/vm.c:284-298 | every page, page table and the directory are freed exactly once, and other address spaces keep theirs |
| `Vm.Restored` | Xv6/xv6-public/vm.c:342-344 | giving back a new directory with all that came with it restores the frames in use exactly |
| `Vm.Kernel.Copyuvm` | Xv6/xv6-public/vm.c:316-345 | a copy with equal contents and flags on frames that were free; it succeeds if and only if every page is there and the frames suffice for directory, pages and page tables, panics exactly on a missing page that is reached before they run out, and on failure gives every frame back |
| `Vm.Kernel.Copyout` | Xv6/xv6-public/vm.c:350-386 | exactly the given bytes of exactly this process change, up to where the user's pages end; it succeeds if and only if they do not end, is refused if and only if they end at a page with a page table, and uses a null pointer if and only if they end where there is none |
| `Vm.BytesSeen` | Xv6/xv6-public/vm.c:366-386 | byte by byte: the process reads the bytes copied where they went, and every process reads everything else as before |
| `Vm.Kernel.GrowThenCopyout` | Xv6/xv6-public/vm.c:222-386 | over two calls: what allocuvm has added is the user's, so that a copyout into it goes through, and the process then reads those bytes, and zeroes around them |
| `Vm.CopyReads` | Xv6/xv6-public/vm.c:316-345 | a child of copyuvm reads what its parent read, at every address |
| `Vm.Kernel.CopyThenWrite` | Xv6/xv6-public/vm.c:316-386 | over two calls: what is written to the parent after copyuvm, the child does not see |
| `Vm.CopyToNowhere` | Xv6/xv6-public/vm.c:350-359 | a process that maps nothing: the first byte meets the null pointer |
| `PageTable.GrownTrans` | Xv6/xv6-public/vm.c:42-53 | page tables made step by step take as many frames as they do together |
| `Vm.WroteMore` | Xv6/xv6-public/vm.c:372-384 | a page written through one directory is seen by no other process |
| `ProcTable.OneSlot` | Offline-03-Xv6-and-Scheduling/xv6-public/proc.c:115-161 | a change of one slot that lets down no child, parent or slot in the making keeps the process tree |
| `ProcTable.EverybodyDescendsFromInit` | Offline-03-Xv6-and-Scheduling/xv6-public/proc.c:297-304 | the parents of every process lead to init: there are no cycles and no lost branches |
| `ProcTable.ParentsLive` | Offline-03-Xv6-and-Scheduling/xv6-public/proc.c:275-315 | no process has a zombie or unused parent whenever ptable.lock is free |
| `ProcTable.PTable.AllocSlot` | Offline-03-Xv6-and-Scheduling/xv6-public/proc.c:115-138 | the first unused slot gets a pid no process has or has had; it fails exactly when none is unused |
| `ProcTable.PTable.ForkFill` | Offline-03-Xv6-and-Scheduling/xv6-public/proc.c:226-253 | the child's page table, parent and tickets; when there is no memory the stack is freed once and the slot given back |
| `ProcTable.PTable.ForkDone` | Offline-03-Xv6-and-Scheduling/xv6-public/proc.c:258-266 | the child joins the tree as a runnable process; it carries the killed mark exactly if kill has struck its slot, since wait last cleared it, while there was no process in it or one still being made |
| `ProcTable.PTable.Exit` | Offline-03-Xv6-and-Scheduling/xv6-public/proc.c:294-312 | the process is a zombie and its children are init's; its parent is awake if it slept in wait, init may be, and nobody else changes; exactly which processes wake; the tree is kept although it changes under the loop |
| `ProcTable.PTable.Wait` | Offline-03-Xv6-and-Scheduling/xv6-public/proc.c:320-359 | a zombie child is reaped if and only if there is one, its pid never having been returned before and its stack and page table freed once; otherwise the process sleeps exactly when it has children and is not killed, and no sleeper has a zombie child |
| `ProcTable.PTable.ExitThenWait` | Offline-03-Xv6-and-Scheduling/xv6-public/proc.c:275-364 | over a run of three: a parent asleep in wait is woken by its child's exit, and when it runs its wait reaps that child |
| `ProcTable.PTable.Kill` | Offline-03-Xv6-and-Scheduling/xv6-public/proc.c:570-587 | the first slot with the pid is marked and no longer sleeps, and no other field or slot changes; the pid of a living process or a zombie finds no other slot, and such a kill leaves no mark on a slot without a process |
| `ProcTable.PTable.KillThenWait` | Offline-03-Xv6-and-Scheduling/xv6-public/proc.c:570-587 | over a run of three: a process killed in its sleep in wait, with no zombie child, ends its wait when it runs |
| `ProcTable.PTable.BornKilled` | Offline-03-Xv6-and-Scheduling/xv6-public/proc.c:570-587 | kill(0) marks a cleared slot, and the next process made there is killed before it runs |
| `ProcTable.PTable.BornKilledStackless` | Offline-03-Xv6-and-Scheduling/xv6-public/proc.c:115-144 | a fork that gets no stack leaves its pid in the slot, where kill marks it for the next process |
| `ProcTable.PTable.BornKilledUndone` | Offline-03-Xv6-and-Scheduling/xv6-public/proc.c:226-247 | a fork that is killed and then fails leaves the mark to the next process |
| `ProcTable.PTable.Fault` | Offline-03-Xv6-and-Scheduling/xv6-public/trap.c:86-95 | the fault of a running process marks that process only |
| `ProcTable.PTable.Schedule` | Offline-03-Xv6-and-Scheduling/xv6-public/proc.c:405-425 | the process that runs next is the one the lottery selects; it was RUNNABLE, and nothing else changes |
| `ProcTable.EverybodyHasTickets` | Offline-03-Xv6-and-Scheduling/xv6-public/proc.c:43-53 | every runnable process has at least one ticket |
| `Lottery.RandStaysAlive` | Offline-03-Xv6-and-Scheduling/xv6-public/proc.c:31-35 | the shift register stays nonzero and within 16 bits |
| `Lottery.RandIsReversible` | Offline-03-Xv6-and-Scheduling/xv6-public/proc.c:31-35 | no two registers have the same successor |
| `Lottery.FirstRepeatIsSeed` | Offline-03-Xv6-and-Scheduling/xv6-public/proc.c:31-35 | the first value to come again is the seed: the sequence is one cycle |
| `Lottery.GetTotalTickets` | Offline-03-Xv6-and-Scheduling/xv6-public/proc.c:372-382 | the sum of the tickets of the runnable processes |
| `Lottery.Select` | Offline-03-Xv6-and-Scheduling/xv6-public/proc.c:407-416 | the loop finds the first runnable process whose running sum reaches the winning number, and finds none only when there is none |
| `Lottery.DrawSelects` | Offline-03-Xv6-and-Scheduling/xv6-public/proc.c:403-416 | a number below the total selects exactly one runnable process, even if more became runnable after the draw |
| `Lottery.ExactShares` | Offline-03-Xv6-and-Scheduling/xv6-public/proc.c:403-416 | each runnable process wins exactly as many numbers as it has tickets, the first one more and the last one fewer |
| `Lfsr.Recurrence` | Offline-03-Xv6-and-Scheduling/xv6-public/proc.c:31-35 | each value of the register is the sum of those 16, 14, 13 and 11 before it |
| `Lfsr.PowersMultiply` | Offline-03-Xv6-and-Scheduling/xv6-public/proc.c:31-35 | the value m + n steps on is given by the product of the polynomials for m and n steps, modulo that of the taps |
| `Lfsr.FullPeriod` | Offline-03-Xv6-and-Scheduling/xv6-public/proc.c:31-35 | the register is back at its seed after n steps if and only if 65535 divides n |
| `Lfsr.EveryNumberOnce` | Offline-03-Xv6-and-Scheduling/xv6-public/proc.c:31-35 | every number from 1 to 65535 comes up, at one place in each round of 65535 |
| `Lfsr.RoundShares` | Offline-03-Xv6-and-Scheduling/xv6-public/proc.c:403-416 | in any 65535 draws in a row with the table unchanged, each runnable process wins, for each number that it can win with, as often as the tickets go into 65535, or once more |
| `SleepLock.StepInv` | Xv6/xv6-public/sleeplock.c:23-42 | every step of every process keeps who holds which lock, and that a sleeper waits for a held lock or for a wakeup on its way |
| `SleepLock.OneHolder` | Xv6/xv6-public/sleeplock.c:23-42 | over any run, at most one process holds the sleep lock, and its pid is recorded |
| `SleepLock.NoLostWakeup` | Offline-03-Xv6-and-Scheduling/xv6-public/proc.c:508-564 | over any run, a process asleep on the lock while the spinlock is free waits for a lock that somebody holds |
| `SleepLock.NoDeadlock` | Xv6/xv6-public/sleeplock.c:23-42 | while any process is under way, one that is can take a step |
| `SleepLock.OnlyWithTheLock` | Xv6/xv6-public/sleeplock.c:23-32 | no step of any process takes one out of acquiresleep but with the lock in its name, or from there anywhere but into the critical section |
| `SleepLock.ThroughCritical` | Xv6/xv6-public/sleeplock.c:23-42 | over any run, a process that was in acquiresleep and is out has been in its critical section |
| `SleepLock.EverybodyGetsTheLock` | Offline-03-Xv6-and-Scheduling/xv6-public/proc.c:508-564 | with no new requests every run is bounded, even with kills, and when it can go no further everybody is done, and everybody who was in acquiresleep has been in the critical section |
| `Pipe.Counters` | Xv6/xv6-public/pipe.c:85-106 | the full and empty tests on counters that wrap at 2^32 are right for the numbers they count |
| `Pipe.RingPut` | Xv6/xv6-public/pipe.c:94 | storing a byte extends the queue and overwrites none in flight |
| `Pipe.PipeBuffer.Write` | Xv6/xv6-public/pipe.c:79-98 | the next bytes are appended in order until all are in or 512 are in flight; with some left it fails exactly if the read end is closed or the writer killed, and otherwise sleeps |
| `Pipe.PipeBuffer.Read` | Xv6/xv6-public/pipe.c:101-121 | on an empty pipe that may be written to it fails if killed and sleeps if not; otherwise it returns the next bytes in order, as many as asked for or all that are in flight; a read of at least one byte returns none if and only if the pipe is drained and the write end closed |
| `Pipe.PipeBuffer.WriteThenRead` | Xv6/xv6-public/pipe.c:79-121 | over two calls: what is written to an empty pipe, and fits, is read from it |
| `Pipe.Delivered` | Xv6/xv6-public/pipe.c:60-121 | over every run of any readers and writers, with kills, the bytes read are a prefix of those written, with 0 to 512 in flight |
| `Pipe.AllGoesIn` | Xv6/xv6-public/pipe.c:79-98 | over every run with the read end open and no kill, each process has put in exactly the bytes that it was told to write, in order, but for those it still has: sleeping in the middle of a write loses and repeats nothing |
| `Pipe.StepSleepers` | Xv6/xv6-public/pipe.c:79-121 | every step keeps readers asleep only on an empty pipe and writers only on a full one, if and only if it is not a killed writer failing on a pipe it has filled beside a sleeping reader |
| `Pipe.StrandedRun` | Xv6/xv6-public/pipe.c:79-98 | such a step is reached: a reader sleeps on the empty pipe, and a killed writer of more than 512 bytes fills it and fails |
| `Pipe.NobodySleepsInVain` | Xv6/xv6-public/pipe.c:79-121 | over every run without a kill, a sleeping reader means empty and a sleeping writer means full |
| `Grep.Match` | Xv6/xv6-public/grep.c:73-82 | a text is accepted if and only if some part of it splits into one string for each part of the pattern, the star counts being free |
| `Grep.MatchHere` | Xv6/xv6-public/grep.c:85-96 | the same at the beginning of the text; the mutual recursion terminates |
| `Grep.MatchStar` | Xv6/xv6-public/grep.c:99-106 | any number of c, then the rest: trying the fewest first misses no match |
| `Grep.BeginsMany` | Xv6/xv6-public/grep.c:99-106 | a text begins with c* and the rest exactly if for some count it begins with that many and then the rest |
| `Grep.PlainSearch` | Xv6/xv6-public/grep.c:73-96 | a pattern of ordinary characters is found where it stands in the text, with ^ at its beginning, with $ at its end, and with both if it is the text |
| `Grep.Wildcards` | Xv6/xv6-public/grep.c:85-106 | a dot passes over any one character, and .* over any number of any |
| `Grep.Repeats` | Xv6/xv6-public/grep.c:99-106 | a star passes over its character as often as it comes, or not at all |
| `Grep.AnywhereIsDotStar` | Xv6/xv6-public/grep.c:73-82 | to search from anywhere is to search from the beginning with .* in front |
| `Syntax.ParsesLine` | Xv6/xv6-public/sh.c:345-446 | the tokens of a parenthesised command parse as that command, up to whatever closes it |
| `Syntax.Lex` | Xv6/xv6-public/sh.c:266-308 | wherever a printed command stands in a line, its tokens are those of the command at their places |
| `Syntax.Reads` | Xv6/xv6-public/sh.c:298-305 | the words at those places read as the command's words |
| `Syntax.RoundTrip` | Xv6/xv6-public/sh.c:328-446 | for every command with valid words and at most MAXARGS-1 arguments, parsing its parenthesised printing returns it |
| `Syntax.AlikeLine` | Xv6/xv6-public/sh.c:375-397 | any line parses to the same command, or fails, with any of its > written >> and any >> written > |
| `Syntax.LineUses` | Xv6/xv6-public/sh.c:345-446 | whatever parses has balanced parentheses, and each of its words is in the command once |
| `Syntax.LineWords` | Xv6/xv6-public/sh.c:345-359 | every word of any parsed command is a whole run of ordinary characters of the line |
| `Syntax.EndsOutside` | Xv6/xv6-public/sh.c:450-493 | no zero is put inside any word |
| `Syntax.CutReads` | Xv6/xv6-public/sh.c:450-493 | in a buffer so cut, every argument and file name reads as its word |
| `Shell.Parser.Gettoken` | Xv6/xv6-public/sh.c:266-308 | the next token and its place, leaving the rest of the tokens |
| `Shell.Parser.Peek` | Xv6/xv6-public/sh.c:311-320 | whether the next token is one of some symbols, with no token lost |
| `Shell.Parser.Parseline` | Xv6/xv6-public/sh.c:345-359 | the advancing parser does what the grammar says, and terminates by tokens consumed |
| `Shell.Parser.Parseexec` | Xv6/xv6-public/sh.c:416-446 | words and redirections in any order go to the same command; the count of arguments is right and overruns nothing |
| `Shell.Parser.Parsecmd` | Xv6/xv6-public/sh.c:328-342 | a line is parsed whole or refused, and afterwards every word reads in the buffer, as a C string, exactly as it stood in the line |
| `Shell.Parser.ParsePrinted` | Xv6/xv6-public/sh.c:328-493 | parsing and cutting a printed command leaves exactly its words to be executed |
| `Shell.Parser.Nulterminate` | Xv6/xv6-public/sh.c:450-493 | zeroes are written at the ends of the words and nowhere else |
| `VipChannel.StepInv` | Offline-02-IPC/1705043/1705043_IPC.cpp:132-330 | every step of any passenger keeps that the counters count and that each locked mutex has one holder, a passenger or a whole direction |
| `VipChannel.NeverMeet` | Offline-02-IPC/1705043/1705043_IPC.cpp:132-330 | over any run, passengers of opposite directions are never in the channel together |
| `VipChannel.NoDeadlock` | Offline-02-IPC/1705043/1705043_IPC.cpp:132-330 | while anybody has set out, somebody who has can take a step |
| `VipChannel.FirstFromRightNeverWaits` | Offline-02-IPC/1705043/1705043_IPC.cpp:312-330 | the first passenger from the right never waits on mtx_extradb |
| `VipChannel.UnlocksWhatIsLocked` | Offline-02-IPC/1705043/1705043_IPC.cpp:132-330 | every mutex is locked when it is unlocked, though by another passenger than locked it |
| `VipChannel.RightOnlyDrains` | Offline-02-IPC/1705043/1705043_IPC.cpp:154-171 | once the left side has mtx_db, nobody more enters from the right until it is through |
| `VipChannel.ThroughTheChannel` | Offline-02-IPC/1705043/1705043_IPC.cpp:132-330 | over any run, a passenger that had set out and no longer waits has been in the channel |
| `VipChannel.EverybodyCrosses` | Offline-02-IPC/1705043/1705043_IPC.cpp:132-330 | with no new arrivals every run is bounded, and when it can go no further everybody is across, and everybody who had set out has been in the channel, on their side |

## Left out

- Hardware, boot code, the console, user programs other than the shell's parser and grep's matcher, and system call glue.
- Waiting in the buffer cache: the sleep lock of each buffer, which has a module of its own. Others may hold buffers, but do
  not take or give them back in the middle of an update or a commit.
- The sign of the count in a header block that was never written by the log.
- Which bytes the bits and inodes are packed into (any packing will do in `FileCrash`), ilock, iget and iput, directories, path lookup and device files.
- FileBlocks.Fs.Balloc: bits are a sequence and the inode table a sequence of records; logging is by block number.
- ChunkBound.ReachesBound: the disk has 16384 blocks, more than FSSIZE; with one block of free map the bound is not reached.
- FileBlocks.Fs.Writei: when balloc panics nothing is promised of the half-written file, since the kernel has stopped.
- Umalloc.Heap.Malloc: sizes do not wrap at 32 bits.
- Swap.Proc.FreePages: shrinking with pages in the swap file, fork and exec are not modelled; after a page is then deleted
  the next slot number may be in use, so slots are one-to-one in shrink-free runs only.
- Swap.Proc.Allocuvm: the frames of page tables and the access counts are not counted.
- Vm.Kernel.Mappages: takes over the frame of one user page at a time, as all its callers have it; kernel ranges may be
  longer. inituvm, loaduvm and clearpteu are not modelled.
- Vm.Kernel.Kfree: the junk written into a freed frame is not modelled.
- FileCrash.Transact: a block that an operation logs more than once is logged once, with its last contents.
- Vm.Kernel.Allocuvm: page tables made on the way to a failure stay, as they do in the kernel.
- ProcTable.PTable.Schedule: gettotalTickets is called twice before the draw; between the calls another processor may take
  the last runnable process, and the remainder would be by zero. The draw here is of a number below a positive total.
- ProcTable.PTable.ForkFill: files, the current directory, names and trap frames are not modelled, and pids do not wrap.
- Lfsr.RoundShares: the table does not change between the draws.
- SleepLock.EverybodyGetsTheLock: the scheduler's choice is any order of steps; sleepers on other channels are left out.
- Pipe.PipeBuffer.Close: freeing the page once both ends are closed is left out; an end is closed when its last user is
  gone, as file reference counts have it.
- Shell.Parser.Parseexec: the command under its redirections is changed as a value, not through a pointer into it.
- Shell.Parser.Parsecmd: an error ends the shell after a message; here it is a result, and malloc does not fail.
- The loop of grep over its line buffer, and running a parsed command.
- VipChannel.NeverMeet: pthread mutexes are binary semaphores, since one thread unlocks what another locked; sleeping,
  printing, the queues around the channel and the choice of lost passes are left out.
