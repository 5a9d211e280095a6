# xv6 kernel protocols, allocators and parsers, verified in Dafny

This project models the parts of the repository whose correctness is hard to see, and proves what
they are for. It follows the `alarm/` copy of xv6 and the two locks under `atomic/`.

- **Storage stack.** The redo log with its crash points (`Log.dfy`), the log driver that issues the
  block writes (`LogDriver.dfy`), group commit in every interleaving (`GroupCommit.dfy`), the buffer
  cache as a state machine (`BufferCache.dfy`) and as a linked ring updated in place
  (`BufferRing.dfy`), the bitmap (`Bitmap.dfy`), inodes, `bmap`, `readi`, `writei`, `itrunc` and
  `filewrite` (`Files.dfy`, `FileSystem.dfy`), what a transaction may change (`Transactions.dfy`), and
  the file system on the log (`Durability.dfy`). The main results: after any mix of commits and
  crashes the disk stands for exactly the transactions whose header write reached it; files are byte
  sequences; no block has two owners, and the bitmap marks exactly the blocks that have one; a write
  chunk logs at most MAXOPBLOCKS blocks, and every block it changes; the last end_op commits, and
  every appended block is in the commit that follows; a crash in its commit leaves
  every file as it was, or all as the write made them; a cached block is always the last one written,
  and stays pinned until it is installed.
- **Concurrency protocols.** Sleep and wakeup, exit and wait, fork and the scheduler
  (`ProcTable.dfy`, `Scheduling.dfy`), the pipe (`Pipe.dfy`, `PipeRuns.dfy`), the sequence lock and
  the readers-writer lock (`SeqLock.dfy`, `RwLock.dfy`, over `Words.dfy`). Each is a state machine
  over its atomic steps with any number of threads; the theorems are about every run.
- **Allocators.** The K&R free list (`FreeList.dfy`, `Umalloc.dfy`) and two-level page tables over
  the page free list (`PageTable.dfy`, `AddressSpaces.dfy`, `VirtualMemory.dfy`): pages are conserved,
  address spaces stay apart, the number of free pages says exactly when an operation fails, and the
  user can touch the user pages and not the kernel's.
- **Language code.** The shell's scanner and recursive-descent parser (`ShellLexer.dfy`,
  `ShellParser.dfy`), lines as they are written and what they mean (`ShellPrinter.dfy`), that the
  parser accepts exactly those (`ShellGrammar.dfy`), the words it leaves in the input buffer
  (`ShellWords.dfy`), and the regular-expression matcher (`Grep.dfy`).
- **Alarm delivery** (`Alarm.dfy`).

`Common.dfy` and `Blocks.dfy` have the types that several modules share.

Code that changes state step by step is modelled by classes and methods with loops, each proved
against a function on values; the theorems about runs are about those functions. A `panic` is a
result (`ok` is false, a `Status`, or a halted state); no member claims a panic unreachable unless
its row says so. Concurrent steps are interleaved under sequential consistency.

Some properties one might expect do not hold of the code. In those cases the code is kept as it is,
and the project has an input or a run that shows it and the exact condition under which the property
holds:

- `log_write` compares `lh.n` with the log size outside `log.lock`, and `mkfs` gives the log LOGSIZE
  blocks including its header. Operations that keep to their reservation can then panic, and two of
  them can log one block more than the region holds (`GroupCommit.NoPanicExactly`,
  `GroupCommit.FitsExactly`, `GroupCommit.FullLogRefusesAbsorption`).
- `malloc` passes a byte count to `sbrk`, whose argument is a signed int, so huge requests ask for a
  negative amount (`Umalloc.SbrkAsked`).
- A sequence-lock reader can be misled after exactly 2^64 increments (`SeqLock.SafeExactly`), and a
  readers-writer lock by 2^64 readers (`RwLock.ExclusionExactly`).
- `copyuvm` does not return the page in hand when mapping it fails. `VirtualMemory.Machine.Copyuvm`
  says, by the number of free pages, exactly when a page is lost that way, and
  `VirtualMemory.LosingCopy` builds a machine on which one is.
- A killed writer gives up on a full pipe without waking the readers (`PipeRuns.StrandsExactly`).

## Model

| member | source | states |
|---|---|---|
| CrashLog.ReplayIdempotent | alarm/log.c:69-82 | installing a prefix of the logged blocks and then all of them is installing them once: install_trans can be repeated |
| CrashLog.PutHeader | alarm/log.c:102-113 | the header block that write_head leaves reads back, word by word, as the count and block numbers it was given |
| CrashLog.RecoveryKeepsView | alarm/log.c:115-122 | recovery may stop after any of its writes; the file system that the disk stands for is unchanged, and a finished recovery has an empty log |
| CrashLog.CommitBeforeHeader | alarm/log.c:177-197 | before the header write, whatever was written, the disk stands for the old file system |
| CrashLog.CommitHeader | alarm/log.c:102-113 | the header write makes the log describe exactly the transaction |
| CrashLog.CommitAfterHeader | alarm/log.c:192-202 | from the header write on, the disk stands for the old file system with the whole transaction |
| CrashLog.CommitIsLogThenRecover | alarm/log.c:192-202 | a commit is writing log and header and then doing what recovery does |
| CrashLog.CommitInPieces | alarm/log.c:192-202 | the writes of log, header, home blocks and cleared header add up to the commit's write sequence |
| CrashLog.StepIsAtomic | alarm/log.c:69-122 | a commit, a crash after any number of its writes, a recovery or a crash inside one takes the disk to the ideal one: all of the transaction or nothing |
| CrashLog.CrashAtomicity | alarm/log.c:69-122 | after any run of commits, recoveries and crashes inside either, the home blocks stand for exactly the transactions whose header write reached the disk, in order |
| LogDriver.Log.constructor | alarm/log.c:53-66 | an empty in-memory header over a disk |
| LogDriver.Log.Bwrite | alarm/memide.c:38-60 | one block write: the disk, the pin and the trace of writes change at that block alone |
| LogDriver.Log.LogWrite | alarm/log.c:213-233 | panics exactly when the log is full, at the region's end, or outside an operation; otherwise the block is recorded once (absorption), pinned, and reads as written; nothing else reads differently |
| LogDriver.Log.WriteLog | alarm/log.c:177-190 | issues exactly the log-block writes of the pinned contents, in order |
| LogDriver.Log.WriteHead | alarm/log.c:101-113 | issues the one header write, with count and entries of the in-memory header |
| LogDriver.Log.InstallTrans | alarm/log.c:69-82 | copies each log block home and unpins it |
| LogDriver.Log.Commit | alarm/log.c:192-202 | issues exactly the write sequence of the specification, empties header and pins, and every block reads afterwards as it did before |
| LogDriver.Log.ReadHead | alarm/log.c:85-96 | the in-memory header is what the header block says |
| LogDriver.Log.Recover | alarm/log.c:115-122 | issues exactly the specification's recovery writes |
| LogDriver.LogHoldsPending | alarm/log.c:177-190 | after the log writes the region holds the pending contents and the header is untouched |
| LogDriver.CommittedBlocks | alarm/log.c:192-202 | after a commit each block on disk is what it read as, pinned or not, before |
| GroupCommit.Discipline | alarm/log.c:125-174 | in every interleaving: outstanding counts the operations in progress, a commit runs alone and with none in progress, every operation is in the transaction it began in, no block is logged twice, lh.n plus unspent reservations is at most LOGSIZE, and the panics at lines 153 and 221 do not happen |
| GroupCommit.SleepersWillWake | alarm/log.c:126-141 | a begin_op that sleeps still has to wait, and an operation or a commit is in progress that will wake it |
| GroupCommit.NoStartDuringCommit | alarm/log.c:126-141 | no operation starts while a thread is committing |
| GroupCommit.OnlyCommitEmpties | alarm/log.c:125-233 | no step but a commit takes a block out of the log |
| GroupCommit.AppendLogs | alarm/log.c:223-232 | a log_write that returns has its block in the log, which is otherwise as it was |
| GroupCommit.LastEndCommits | alarm/log.c:145-173 | end_op commits exactly when no other operation is in progress, with the log as it stands; any other end_op wakes the sleepers and leaves the commit to a later one |
| GroupCommit.NoCommitInOperation | alarm/log.c:125-173 | no commit comes while an operation is in progress, so its blocks go into one transaction |
| GroupCommit.CommitHasAppended | alarm/log.c:192-233 | the commit that follows an append has its block, whichever thread commits |
| GroupCommit.AllCommitted | alarm/log.c:125-233 | over any run: once all operations and commits are over, every block that any of them appended was in a commit |
| GroupCommit.TooBigHappens | alarm/log.c:218-219 | with a log region of at most LOGSIZE blocks, operations within their reservation reach the panic |
| GroupCommit.NoPanicExactly | alarm/log.c:218-219 | operations that stop calling log_write when their reservation is spent never panic, exactly when the region has more than LOGSIZE blocks |
| GroupCommit.FullLogRefusesAbsorption | alarm/log.c:218-219 | in a full log, log_write panics even for a block that is already logged, whatever the region's size |
| GroupCommit.OverrunHappens | alarm/log.c:213-233 | two threads can pass the test for the last block and both append, so that lh.n exceeds the region |
| GroupCommit.FitsExactly | alarm/log.c:213-233 | the logged blocks always fit behind the header block, exactly when the region has more than LOGSIZE blocks or at most one |
| BufferCache.InitInv | alarm/bio.c:38-56 | binit's state satisfies the cache invariant |
| BufferCache.StepInv | alarm/bio.c:61-141 | every step of bget, bread, bwrite, log_write and brelse keeps ring, reference counts, identities, uniqueness, exclusion and agreement with the disk |
| BufferCache.RunInv | alarm/bio.c:61-141 | the invariant over any run of any clients |
| BufferCache.BreadReturnsLatest | alarm/bio.c:97-106 | after any run, a client that has filled its locked buffer has the last data written to that block |
| BufferCache.IdentityStable | alarm/bio.c:66-93 | a buffer with a reference keeps its block over any run, also between bget's unlock and its sleep lock |
| BufferCache.PinnedUntilInstalled | alarm/log.c:231 | a block marked by log_write stays cached, dirty and newest until it is written to the disk |
| BufferCache.StoreReads | alarm/bio.c:97-106 | what the log driver reads (pinned contents over the disk) is the last data written |
| BufferCache.BwriteRefinesStore | alarm/bio.c:109-116 | a cache bwrite is the log driver's block write |
| BufferCache.LogWriteRefinesStore | alarm/log.c:213-233 | a cache log_write is the log driver's pin |
| BufferCache.OthersRefineStore | alarm/bio.c:61-141 | no other step changes disk or pins |
| BufferCache.RingMove | alarm/bio.c:130-138 | moving a released buffer to the front keeps the ring in most-recently-released order |
| BufferCache.GetExactly | alarm/bio.c:61-93 | the specification of bget, over the buffers alone: which buffer, with what contents, and when it panics |
| BufferCache.OldestRecycled | alarm/bio.c:81-91 | a block that is not cached gets the unused clean buffer that was released longest ago |
| BufferCache.WriteRecorded | alarm/bio.c:109-116 | what a client puts into its buffer and writes is the latest data of the block, and with bwrite also on the disk |
| BufferCache.ReleasedIsNewest | alarm/bio.c:120-141 | the last brelse of a buffer makes it the most recently released one; an earlier one moves nothing |
| BufferRing.Ring.constructor | alarm/bio.c:38-56 | binit's loop links all NBUF buffers into one ring |
| BufferRing.Ring.PushFront | alarm/bio.c:134-137 | the four link updates put a buffer at the front |
| BufferRing.Ring.Unlink | alarm/bio.c:132-133 | the two link updates take a buffer out |
| BufferRing.Ring.Cached | alarm/bio.c:69-76 | the forward scan finds the first buffer that holds the block |
| BufferRing.Ring.Victim | alarm/bio.c:81-91 | the backward scan finds the least recently released buffer that is unused and clean |
| BufferRing.Ring.Bget | alarm/bio.c:61-93 | panics exactly when no buffer holds the block and none is unused and clean; otherwise adds a reference to the buffer that holds the block, or gives it the unused clean buffer that was released longest ago, and touches no other buffer |
| BufferRing.Ring.Brelse | alarm/bio.c:120-141 | drops a reference and, at the last, moves the buffer to the front of the ring; the links stay one ring over exactly NBUF buffers |
| Bitmap.Mark | alarm/fs.c:66-68 | setting a bit marks that block and no other |
| Bitmap.Unmark | alarm/fs.c:89-93 | clearing a bit frees that block and no other |
| Files.OneOwner | alarm/fs.c:373-401 | in a sound table a block is held by one slot of one inode |
| Files.TableDirect | alarm/fs.c:379-383 | a new direct block keeps the table sound |
| Files.TableIndirect | alarm/fs.c:388-389 | a new indirect block keeps the table sound |
| Files.TableEntry | alarm/fs.c:390-395 | a new entry in the indirect block keeps the table sound |
| Files.TableData | alarm/fs.c:499-505 | writing a data block of one inode touches no inode's block map |
| Files.WriteChunk | alarm/fs.c:499-505 | changing part of one block is an overlay on the file's bytes |
| FileSystem.FileSystem.constructor | alarm/mkfs.c:94-111 | the zeroed file system that mkfs starts from, with its layout: every inode is empty, and exactly the blocks marked at the start are reserved |
| FileSystem.FileSystem.Balloc | alarm/fs.c:56-78 | the lowest free block is marked and zeroed, and logs its bitmap block and itself; panics exactly when every block is in use; nothing outside logged blocks changes |
| FileSystem.FileSystem.Bfree | alarm/fs.c:81-96 | frees exactly that block; panics exactly when it was free |
| FileSystem.FileSystem.Iupdate | alarm/fs.c:221-237 | the on-disk inode is the in-memory one |
| FileSystem.FileSystem.Bmap | alarm/fs.c:373-401 | a mapped block is returned with nothing changed; otherwise a zeroed block that was free becomes that slot, and nothing else's data changes; the number of blocks logged is bounded case by case, and nothing outside them changes; panics beyond MAXFILE, and below it only when every block is in use |
| FileSystem.FileSystem.Writei | alarm/fs.c:482-512 | returns n or -1 exactly by the source's tests; the file becomes the overlay, other files are unchanged, every inode is written through, the bitmap marks exactly the reserved and the owned blocks, the blocks logged are bounded, and nothing outside them changes; a panic only when every block is in use |
| FileSystem.FileSystem.Readi | alarm/fs.c:453-477 | returns the slice of the file's bytes, cut at its end, and allocates nothing |
| FileSystem.FileSystem.Itrunc | alarm/fs.c:408-436 | the file is empty, other files are unchanged, exactly the inode's blocks are freed, and nothing outside logged blocks changes |
| FileSystem.FileSystem.WriteChunkOp | alarm/file.c:140-145 | one chunk of filewrite is one transaction that logs at most MAXOPBLOCKS blocks, all behind the log, and changes nothing outside them; a panic only when every block is in use |
| FileSystem.ChunkBound | alarm/file.c:133-138 | the arithmetic of the bound, for every offset and every chunk length |
| FileSystem.ChunkedIsPut | alarm/file.c:134-153 | writing chunk by chunk is writing the longest writable prefix at once |
| FileSystem.WritableAll | alarm/file.c:134-153 | all of the data is writable exactly when the offset is inside the file and the end below the maximal size |
| FileSystem.WriteNext | alarm/file.c:136-151 | one round of filewrite's loop: a chunk written and the offset moved, or a failure that changes nothing; a panic only when every block is in use |
| FileSystem.Filewrite | alarm/file.c:117-156 | the file gets the writable prefix, the offset moves by its length, and the result is n or -1 as the source says; no transaction exceeds MAXOPBLOCKS; a panic only when every block is in use |
| FileSystem.Apply | alarm/fs.c:408-512 | one writei, readi or itrunc does to the files what overlay, slice and clear do to byte sequences, with the same answer; only writei can panic, and only when every block is in use |
| FileSystem.RunOps | alarm/fs.c:408-512 | any run of writei, readi and itrunc on any inodes agrees with the run on plain byte sequences, unless a writei comes when every block is in use |
| Transactions.TracedTake | alarm/fs.c:66-71 | the bit and the block that balloc changes are in the two blocks that it logs, which lie between the log and the end of the disk |
| Transactions.TracedGive | alarm/fs.c:89-95 | the bit that bfree clears is in the block that it logs |
| Transactions.TracedInode | alarm/fs.c:221-237 | the inode that iupdate changes is in the block that it logs |
| Durability.InodeBack | alarm/fs.c:221-237 | the size and addresses that iupdate stores in a slot of an inode block read back, and the other slots are as they were |
| Durability.WritesExist | alarm/mkfs.c:94-103 | for every file system and every set of blocks there are block contents that agree with it: the inode, bitmap and data areas do not overlap |
| Durability.TransactionHolds | alarm/log.c:192-202 | a disk that holds the file system before a transaction holds the one after it once the logged blocks are written |
| Durability.AllOrNothing | alarm/log.c:69-122 | a commit; or a crash after any number of its writes, any number of crashes in recovery and a recovery: the blocks behind the log are those before the transaction, or those after it |
| Durability.CrashedTransaction | alarm/log.c:69-202 | so the disk holds the file system before the transaction, or the one after it, exactly as the header write was reached |
| Durability.FileHeld | alarm/fs.c:373-477 | a file read from a disk that holds the file system, through inode block, addresses and indirect block, is the file |
| Durability.WriteDurably | alarm/file.c:134-153 | one chunk of filewrite on a disk: however the logged blocks are written out, the log takes the transaction, and after a commit or any crashes and a recovery every file on disk is as before, or every one is as the write made it |
| FreeList.InsertSeparated | alarm/umalloc.c:33-42 | inserting with coalescing keeps the list address-sorted with no two blocks touching |
| FreeList.InsertCover | alarm/umalloc.c:33-42 | inserting adds exactly the block's units to the free ones |
| FreeList.CutSeparated | alarm/umalloc.c:75-82 | cutting keeps the list sorted and separated |
| FreeList.CutCover | alarm/umalloc.c:75-82 | cutting removes exactly the units handed out |
| Umalloc.Allocator.Start | alarm/umalloc.c:70-73 | the first call links the base block to itself |
| Umalloc.Allocator.FindSlot | alarm/umalloc.c:30-32 | free's search stops, after at most one round, at the one place where the block belongs |
| Umalloc.Allocator.Free | alarm/umalloc.c:24-44 | the block leaves the used ones and joins the free list, coalesced on both sides; ring, order, disjointness and exact cover of the heap are kept |
| Umalloc.Allocator.Morecore | alarm/umalloc.c:46-61 | fresh memory from sbrk becomes free; null exactly when sbrk fails |
| Umalloc.Allocator.Malloc | alarm/umalloc.c:63-90 | returns a block of enough units that was free; when a free block has room it is used and the heap does not grow; null only when none has room and sbrk fails; keeps the invariant; the search loop terminates |
| Umalloc.UnitsHold | alarm/umalloc.c:69 | when the units computed in 32-bit arithmetic hold the bytes asked for |
| Umalloc.SbrkAsked | alarm/umalloc.c:52-54 | sbrk is asked for a positive amount exactly when nbytes is at most 2^31 - 16, or so large that the unit count wraps |
| Umalloc.SbrkShrinks | alarm/umalloc.c:52-54 | a request for which sbrk is asked for a negative amount |
| Umalloc.GiveBack | alarm/umalloc.c:24-44 | giving a block back keeps used and free blocks disjoint and covering the heap |
| Umalloc.TakeOut | alarm/umalloc.c:74-85 | taking a block out does too |
| Umalloc.Grow | alarm/umalloc.c:46-61 | new memory above the heap joins it without touching a block |
| Umalloc.FreeUndoesMalloc | alarm/umalloc.c:24-90 | freeing the block malloc cut off gives the same free list back |
| PageTable.AddTableSpace | alarm/vm.c:42-52 | a new page table changes no mapping and belongs to the space that made it |
| PageTable.MapSpace | alarm/vm.c:61-80 | mapping a spare page keeps frames, tables and free pages disjoint |
| PageTable.UnmapSpace | alarm/vm.c:269-276 | an unmapped frame goes to the free list and nowhere else |
| VirtualMemory.Machine.Kalloc | alarm/kalloc.c:82-95 | the first free page, or none |
| VirtualMemory.Machine.Kfree | alarm/kalloc.c:59-77 | the page is first on the free list; panics exactly outside the memory it accepts |
| VirtualMemory.Machine.Walk | alarm/vm.c:35-55 | finds or makes the page table of an address, and fails exactly when it is missing and none may or can be made; a new directory entry is present, writable and the user's; no mapping changes and pages are conserved |
| VirtualMemory.Machine.Mappages | alarm/vm.c:60-80 | maps the range to consecutive pages, and as far as it got nothing else; page tables are added exactly where they are missing, open to the user, and taken from the free list; it stops for memory at a missing page table with no page free; the remap panic needs that page mapped before |
| VirtualMemory.Machine.UnmapAt | alarm/vm.c:265-277 | one round of deallocuvm: the page is unmapped, or a whole range without page table is skipped that has no mapped page |
| VirtualMemory.Machine.Deallocuvm | alarm/vm.c:255-279 | exactly the pages between the two sizes are unmapped and freed; the skip misses none; pages are conserved, every other address space is intact, and no panic happens |
| AddressSpaces.SkipTable | alarm/vm.c:266-268 | a missing page table means that the range skipped has no mapped page |
| VirtualMemory.Machine.Allocuvm | alarm/vm.c:221-249 | returns newsz exactly when the free pages suffice for the frames and the missing page tables, and then maps exactly the new range, takes exactly those pages, and, if all its directory entries were open to the user, the user can read and write every new page; failure leaves the whole mapping exactly as it was; pages are conserved and every other address space is intact |
| VirtualMemory.Machine.Freevm | alarm/vm.c:283-298 | every page of the address space is on the free list once, nothing else is freed, and every other address space is intact: the same mapping and pages, none of them free |
| VirtualMemory.Machine.Setupkvm | alarm/vm.c:118-136 | succeeds exactly when the free pages suffice for the directory and its tables, and then the new directory maps exactly the kernel's regions in pages that were free, the user can touch none of them if kmap has no user page (AddressSpaces.KmapPrivate), and every address space is intact; otherwise every page is free again; no panic |
| VirtualMemory.Machine.Copyuvm | alarm/vm.c:314-343 | succeeds exactly when the free pages suffice for kernel tables, frames and user tables: the child then has the parent's user pages with their flags in frames that were free, for the user to read and write as in a parent whose directory is open, beside the kernel's, and every address space is intact; otherwise nothing has changed, except that one page is lost exactly when the pages left for the copy are one more than a multiple of 1025 and too few; no panic if the parent's pages are all present |
| AddressSpaces.ParentStays | alarm/vm.c:314-343 | an address space is as it was while another is built from free pages, and they share no page |
| AddressSpaces.KmapRegions | alarm/vm.c:105-115 | the rows of kmap are in the kernel's half, in order and apart |
| AddressSpaces.KmapTables | alarm/vm.c:105-115 | the kernel's mappings take 64 page tables, wherever its data starts |
| AddressSpaces.KmapMaps | alarm/vm.c:105-115 | kmap maps the memory below PHYSTOP at KERNBASE page for page, read-only in the kernel's text and else writable, device pages to themselves, and nothing else |
| AddressSpaces.PteDecides | alarm/vm.c:48-52 | when all directory entries are writable and the user's, what the user may do to a page is what its page-table entry says |
| AddressSpaces.MappedForUser | alarm/vm.c:234-245 | the user can read and write every page that allocuvm maps |
| AddressSpaces.KernelHidden | alarm/vm.c:105-136 | the user cannot read a page that only kmap maps |
| AddressSpaces.CopiedForUser | alarm/vm.c:325-337 | every copied page is to the user in the child what it is in the parent |
| AddressSpaces.AllIntact | alarm/vm.c:221-279 | a change that conserves the pages of one address space and touches no table but its own leaves every address space that shares no page with it intact, and still apart from it |
| AddressSpaces.AllStay | alarm/vm.c:283-298 | freeing an address space leaves every one that shares no page with it intact |
| AddressSpaces.TooFew | alarm/vm.c:234-245 | allocuvm runs out of pages only when fewer were free than frames and missing page tables |
| AddressSpaces.CopyStops | alarm/vm.c:325-337 | where copyuvm stops for want of a page, too few pages were free for the copy, and one is in hand exactly when the pages for the copy are one more than a multiple of 1025 |
| VirtualMemory.LosingCopy | alarm/vm.c:314-343 | on a machine of 133 pages, copying a process of one page fails and leaves a page that is neither free nor anybody's |
| VirtualMemory.Machine.constructor | alarm/kalloc.c:46-53 | freerange puts every page of the range on the free list once |
| ProcTable.Table.Wakeup1 | alarm/proc.c:470-478 | exactly the sleepers on the channel become runnable |
| ProcTable.Table.PassChildren | alarm/proc.c:268-275 | every child goes to init, and init wakes exactly when one of them is a zombie |
| ProcTable.Table.Exit | alarm/proc.c:263-278 | the table after the locked part of exit |
| ProcTable.Table.WaitScan | alarm/proc.c:294-314 | frees the first zombie child if there is one, and tells whether there are children |
| Scheduling.StepInv | alarm/proc.c:240-478 | every step of sleep, wakeup, exit, wait, fork, kill, yield (also in the middle of sleep) and the scheduler keeps the invariant |
| Scheduling.ExitWaiters | alarm/proc.c:263-278 | after exit's wakeups nobody sleeps in wait with a zombie child |
| Scheduling.RunInv | alarm/proc.c:240-478 | the invariant over any run |
| Scheduling.TableOk | alarm/proc.c:240-405 | in every reachable state: RUNNING processes and CPUs match one to one, no process or zombie has a zombie or freed parent, and nobody sleeps in wait while it has a zombie child |
| Scheduling.WaitExactly | alarm/proc.c:286-325 | wait returns exactly when it has a zombie child, which it frees alone, or has no child, or is killed; otherwise it sleeps on itself and the table is otherwise unchanged |
| Scheduling.SleepSleeps | alarm/proc.c:430-465 | sleep leaves the process sleeping on the channel it was given, and nothing else changed |
| Scheduling.LifeCycle | alarm/proc.c:180-510 | every step takes exactly the processes with an arrow along it from state to state: which event, from where to where, for every state and every event |
| Scheduling.SleepsOn | alarm/proc.c:430-510 | over any run, a process sleeps on, on the same channel, until a wakeup on it, an exit that wakes its parent, or a kill |
| Scheduling.HolderExactly | alarm/proc.c:430-465 | a lock other than ptable.lock is taken exactly by acquire and at the end of sleep, when it is free, and given up exactly by its holder's release and in sleep |
| Scheduling.ParentExactly | alarm/proc.c:180-510 | the parent changes exactly when fork sets it, when it exits and init inherits, and when wait frees the child; killed is set by kill alone and cleared by that wait |
| Scheduling.StepOnward | alarm/proc.c:430-465 | a process only goes forward in a call of sleep |
| Scheduling.LockTaken | alarm/proc.c:447-450 | whoever takes lk finds the sleeper past releasing it |
| Scheduling.WakeupReaches | alarm/proc.c:470-487 | a wakeup on the channel reaches a process that has given up lk |
| Scheduling.NoLostWakeup | alarm/proc.c:430-487 | once a process has called sleep(chan, lk) holding lk and another has then taken lk, by acquire or at the end of its own sleep, any later wakeup(chan) finds it awake or makes it RUNNABLE, in every interleaving |
| Pipe.Buffer.constructor | alarm/pipe.c:33-37 | an empty pipe with both ends open |
| Pipe.FullExactly | alarm/pipe.c:85 | the test for a full pipe is exact in 32-bit arithmetic |
| Pipe.Buffer.Put | alarm/pipe.c:93 | one byte is appended, also when nwrite wraps |
| Pipe.Buffer.Take | alarm/pipe.c:116 | the oldest byte is delivered, also when nread wraps |
| Pipe.Buffer.Write | alarm/pipe.c:78-98 | a stretch of pipewrite stores as many bytes as fit and returns, fails or sleeps exactly as the source says |
| Pipe.Buffer.Read | alarm/pipe.c:100-121 | a stretch of piperead delivers the oldest bytes, or fails or sleeps exactly as the source says |
| Pipe.Buffer.Close | alarm/pipe.c:59-75 | closes one end, and frees the pipe exactly when both are closed |
| PipeRuns.RunFifo | alarm/pipe.c:59-121 | over any run of any processes, delivered bytes are a prefix of stored ones and the rest, at most 512, is the pipe's contents |
| PipeRuns.ReadExactly | alarm/pipe.c:100-121 | a read delivers the oldest bytes, as many as there are and it asks for, and returns how many, none at the end of the file; it sleeps exactly when the pipe is empty with a writer to come, and fails then exactly when it is killed |
| PipeRuns.WriteExactly | alarm/pipe.c:78-98 | a write stores its bytes in order and returns their number, or stops at a full pipe and sleeps, or fails exactly when no reader is left or it is killed |
| PipeRuns.ReadReturns | alarm/pipe.c:100-121 | over any run of the others, a call of piperead delivers nothing until it returns, and then the oldest min(n, available) bytes with their number, 0 at the end of the file |
| PipeRuns.WriteReturns | alarm/pipe.c:78-98 | over any run of the others, a call of pipewrite that returns n has stored all its bytes in order, and one that fails a proper prefix of them |
| PipeRuns.StrandsExactly | alarm/pipe.c:78-98 | a step leaves no reader asleep with data present or writers gone and no writer asleep with room present or readers gone, unless it is a killed writer's write that overfills the pipe while a reader sleeps; and exactly then it does |
| PipeRuns.NoVainSleep | alarm/pipe.c:59-121 | in any run where no killed process writes, nobody sleeps in vain |
| PipeRuns.KilledWriterStrands | alarm/pipe.c:85-89 | a run where a killed writer leaves a reader asleep at a full pipe |
| SeqLock.StepInv | atomic/seqlock/seqlock.h:19-38 | every atomic step keeps lock, count, versions and readers consistent |
| SeqLock.OddWhileWriting | atomic/seqlock/seqlock.h:28-38 | the count is odd exactly while a writer is between its increments, and at most one thread has the spin lock |
| SeqLock.AcceptedIsSnapshot | atomic/seqlock/seqlock.h:19-26 | an accepted read saw only the version that was current when it began, if fewer than 2^64 increments came between |
| SeqLock.QuietReadAccepted | atomic/seqlock/seqlock.h:23-26 | a read that no increment overlapped is accepted |
| SeqLock.WrapMisleads | atomic/seqlock/seqlock.h:23-26 | a run with 2^64 increments in which an accepted read mixes two versions |
| SeqLock.SafeExactly | atomic/seqlock/seqlock.h:19-26 | accepted reads spanning at most w increments are snapshots exactly when w is below 2^64 |
| SeqLock.WrittenIsRead | atomic/seqlock/seqlock.h:19-38 | a writer that finds the lock free can store a value and give the lock back, and a reader after it reads that value and is accepted |
| RwLock.StepInv | atomic/rwlock/rwlock.h:18-39 | every atomic step keeps both locks and the count consistent |
| RwLock.CountIsReaders | atomic/rwlock/rwlock.h:18-28 | readers_count is the number of readers inside |
| RwLock.ExclusionExactly | atomic/rwlock/rwlock.h:30-39 | a writer inside excludes readers and writers in every run of k threads exactly when k is at most 2^64 |
| RwLock.TooManyReaders | atomic/rwlock/rwlock.h:30-35 | a run in which 2^64 readers look like none |
| RwLock.NoEntryWhileWaiting | atomic/rwlock/rwlock.h:18-35 | while a writer holds the entry lock and waits or writes, in any run up to its unlock no reader enters and the number inside only falls |
| RwLock.CanDrain | atomic/rwlock/rwlock.h:24-35 | from any state with a writer waiting, the readers can all leave, and then the writer gets in |
| RwLock.UnlockAdmits | atomic/rwlock/rwlock.h:18-39 | a writer's unlock frees the lock, and any idle reader, or any idle writer, can then get in (at most 2^64 threads) |
| ShellLexer.GetToken | alarm/sh.c:267-310 | returns and consumes the next token, with its kind and bounds, or 0 at the end |
| ShellLexer.Peek | alarm/sh.c:312-322 | tells whether the next token begins with one of the characters, and skips only white space |
| ShellLexer.RestRender | alarm/sh.c:264-310 | scanning printed lexemes gives them back |
| ShellLexer.ScanExactly | alarm/sh.c:264-310 | the tokens are the one way to cut the line into blanks and whole tokens: words as long as they go, >> before > |
| ShellParser.ParseRedirs | alarm/sh.c:376-399 | the loop does what the grammar says for redirections, with the panic for a missing file; ShellPrinter.RedirsBack and ShellGrammar.UnRedirs say what that means, for <, > and >> |
| ShellParser.ParseExec | alarm/sh.c:417-448 | likewise for a command with its arguments, with the panics |
| ShellParser.ParseBlock | alarm/sh.c:401-415 | likewise for a parenthesised line |
| ShellParser.ParsePipe | alarm/sh.c:363-374 | likewise for a pipeline |
| ShellParser.ParseLine | alarm/sh.c:346-361 | likewise for a line with background commands and lists |
| ShellParser.ParseCmd | alarm/sh.c:329-341 | the command, or a panic exactly when the input is not one command |
| ShellPrinter.RoundTrip | alarm/sh.c:329-448 | printing any line with legal words and at most nine arguments a command, with redirections <, > and >> anywhere among the words, and parsing it gives exactly the command it means |
| ShellPrinter.LineRead | alarm/sh.c:329-343 | any text with the tokens of a line, however it is spaced, parses to what the line means |
| ShellPrinter.RedirsBack | alarm/sh.c:376-399 | the tokens of redirections <, > and >> wrap the command in them, in order: < reads into descriptor 0, > and >> write and create on descriptor 1 |
| ShellGrammar.UnRedirs | alarm/sh.c:376-399 | whatever parseredirs accepts was written as such redirections, up to where it stops |
| ShellPrinter.LineBack | alarm/sh.c:346-361 | the tokens of a line parse to what it means, whatever closes the line |
| ShellPrinter.ExecBack | alarm/sh.c:376-448 | likewise for a command in a pipe: its words in order, inside its redirections in order |
| ShellPrinter.WrittenMeans | alarm/sh.c:329-448 | every command with legal words can be written as a line that means it |
| ShellGrammar.UnLine | alarm/sh.c:346-448 | whatever parseline accepts was written as a line of the grammar, and the command is what it means |
| ShellGrammar.GrammarExactly | alarm/sh.c:329-448 | parsecmd accepts a text exactly when its tokens are a line of the grammar, and returns what that line means; no text means two things |
| ShellWords.ParsedIsLegal | alarm/sh.c:329-448 | whatever is accepted is a legal command, so printing and parsing it again gives the same command |
| ShellWords.NulTerminate | alarm/sh.c:451-495 | the buffer gets a NUL at the end of every word and changes nowhere else |
| ShellWords.WordReadsBack | alarm/sh.c:451-495 | no NUL lands inside a word: each word is the C string at its start |
| ShellWords.ParseBuffer | alarm/sh.c:329-344 | after parsecmd every word of the command reads back exactly |
| Grep.MatchHere | alarm/grep.c:84-96 | true exactly when a string of the pattern's language is a prefix of the text |
| Grep.MatchStar | alarm/grep.c:98-106 | true exactly when a row of the character followed by the rest of the pattern is |
| Grep.Match | alarm/grep.c:72-82 | true exactly when a string of the pattern's language is a substring of the text, at the start for ^ and at the end for $ |
| Alarm.Process.Timer | alarm/trap.c:57-69 | the alarm fields, the frame and the pushed return address after a tick: a tick in the kernel changes nothing; the handler is entered at the address set, with esp four lower (in 32 bits) and the rest of the frame as it was |
| Alarm.Process.PageFault | alarm/trap.c:93-101 | the saved frame comes back exactly on the fault at the magic address while a handler runs |
| Alarm.Process.SysAlarm | alarm/sysproc.c:93-108 | sets period, count and handler, or nothing on a bad argument |
| Alarm.TicksAccounted | alarm/trap.c:57-69 | over any run, counted ticks since the last sys_alarm are the period times the deliveries plus alarmpassed, which stays below the period |
| Alarm.DeliveriesAre | alarm/trap.c:57-69 | deliveries and alarmpassed are quotient and remainder of the counted ticks |
| Alarm.TickExactly | alarm/trap.c:57-69 | a tick counts exactly in user mode with an alarm set and no handler running, every alarmtime-th of those enters the handler, and any other tick changes nothing |
| Alarm.AlarmStays | alarm/sysproc.c:93-108 | until the next sys_alarm the period and the handler are the ones it was given |
| Alarm.NoNesting | alarm/trap.c:58-68 | while a handler runs, no trap enters another or touches the saved frame |
| Alarm.ReturnRestores | alarm/trap.c:93-99 | a whole delivery: whatever traps come during the handler, its return restores the interrupted frame field for field |

## Left out

- `date/` copies of the kernel: the same code as `alarm/` for these parts.
- Boot, drivers, assembly, `fibers/`, `sse/`, `bash/`, `fs/`, `memory/`, `elf/`: hardware, system calls or floating point with no functional core.
- Directories and paths (`dirlookup`, `dirlink`, `skipelem`, `namex`), `ialloc`, `iget` and `iput`: the inode layer is modelled from the inode down.
- Device inodes in `readi` and `writei` (`devsw`), and the inode's type, link and device fields.
- The buffers between the file system and the log: `FileSystem` changes on-disk inodes and the bitmap as values; `Durability` says which block contents agree with them.
- Sectors and multi-sector blocks: a block write is atomic, as the log assumes.
- `inituvm`, `loaduvm`, `copyout`, `uva2ka`, `clearpteu`: easy beside the functions modelled.
- The contents of user pages (zeroed by allocuvm, copied by copyuvm, overwritten by kfree).
- `freevm` of a null directory, which panics.
- VirtualMemory.Machine.Allocuvm: requires the pages between the two sizes to be unmapped, which every caller provides; otherwise mappages panics.
- BufferCache.BreadReturnsLatest: for device 1, the only device; all buffers start as device 0, block 0, so uniqueness is stated for other devices.
- CrashLog.CrashAtomicity: for transactions that fit the log region and name home blocks; GroupCommit.FitsExactly says when the code guarantees the first.
- LogDriver.Log.Commit: the log header and the disk are sequences that the methods reassign, not C arrays.
- GroupCommit.Discipline: for operations that call log_write between begin_op and end_op and add at most MAXOPBLOCKS blocks each.
- Umalloc.Allocator.Malloc: memory is counted in header-sized units, and sbrk's answer is a parameter that is fresh memory above everything obtained before.
- FileSystem.FileSystem.Writei: one operation at a time; inode locks are not modelled.
- Durability.WriteDurably: one transaction at a time; group commit of several operations is in `GroupCommit` and not joined with it.
- Scheduling.NoLostWakeup: for lk other than ptable.lock; with ptable.lock itself, as in wait(), the step that sleeps is the one that scans, and Scheduling.TableOk covers it.
- Scheduling.TableOk: the scheduler's scan order is left open (any RUNNABLE process may be picked); pids, killed-process exit paths and the pages of a process are not modelled.
- PipeRuns.NoVainSleep: assumes that an end's last close comes when nobody is inside an operation on it, as the file reference count ensures.
- Pipe.Buffer.Write: the number of bytes is a natural number; a negative count, for which the loop does nothing, is not modelled.
- SeqLock.AcceptedIsSnapshot: sequential consistency; weaker memory orders and the fences are not modelled. The same holds for RwLock.
- ShellParser.ParseCmd: the command tree is a value, not linked malloc'ed nodes; `runcmd` and the printing of error messages are not modelled.
- Grep.Match: line buffering and file handling of grep are not modelled.
- Alarm.ReturnRestores: one process image; fork, exec and exit during a handler are not modelled, and the word pushed below the user's stack pointer is not restored by the code.
