# Verified models of an xv6 kernel with per-process paging

The repository is xv6 for x86 with demand paging added: every process keeps at most 16 pages in
memory and swaps the others to a file of its own. This project models its hardest parts in Dafny and
proves what they are for.

* **Log and buffer cache** (`log.c`, `bio.c`). A commit is a sequence of single-block disk writes
  that a crash may cut anywhere, recovery included. Whatever the cut, a completed recovery leaves all
  of a transaction or none of it (`LogRecovery`). `LogDriver` runs the code's loops over the buffer
  cache and shows that they issue exactly those writes. `GroupCommit` finds exactly when `log_write`
  cannot panic. `LogSystem` and `LogSystemSafety` put processes, cache, commit and crashes into one
  step system: if the log has room, what survives any run is the replay of a prefix of whole operations.
  `LogOverrun` shows the run that breaks it for every other log. `LogWaits` is the waiting for log space.
* **Paging** (`swap.c`, `vm.c`, `proc.c`). Page table, page metadata, swap-slot table, SCFIFO ring,
  swap file and frames together represent one address space (`SwapState`); every step keeps them
  consistent and keeps, or changes as intended, the contents of every page (`SwapOut`, `SwapIn`,
  `SwapTrack`). `SwapQueue` says what a run of second-chance evictions leaves. `SwapProc` is the code,
  `SwapFork` is fork, `SwapStranded` a run that leaves no page resident, `Aging` the NFUA and LAPA policies,
  `AgingRuns` what their counters say over every run.
* **File contents** (`fs.c`, `file.c`). Block ownership, file bytes over direct and indirect blocks,
  the exact set of blocks a write logs, when it runs out of disk, and `filewrite`'s splitting into
  transactions (`FsState`, `FsBlocks`, `FsContent`, `FsGrow`, `FsSpace`, `FsInode`, `FsTight`, `FileIo`).
* **User memory allocator** (`umalloc.c`). The free list in memory against a list of blocks
  (`FreeList`, `Umalloc`).
* **Sleeping and waiting** (`proc.c`, `sleeplock.c`, `pipe.c`). Every run of fork, exit, wait and kill
  (`ProcTable`, `ProcRuns`) and who is woken in it (`ProcSleep`), a sleep lock interleaved at every spinlock operation (`SleepLock`), the
  pipe's ring (`Pipe`), and who is left asleep on a pipe (`PipeRuns`).
* **Shell and grep** (`sh.c`, `grep.c`). Lexer, recursive descent, printer and NUL termination in
  place (`ShellTokens`, `ShellGrammar`, `ShellExec`, `ShellMap`, `ShellParser`, `ShellStrings`), and the matcher
  against the language of its pattern (`Grep`).

Code that updates state in place is a class with methods, and each method is proved against a function
or relation on values; concurrency is a step system over values, one step for each critical section or
lock operation, and two for `log_write`, whose tests come before its critical section. A `panic` is a
result (`ok == false`, `-1`, `Panic`, `Failed`, `halted`), and where it cannot happen, that is proved.
`log.c` trusts every operation to log at most `MAXOPBLOCKS` blocks and never tests it: the runs of
`LogSystem` are those of operations that do, and `GroupCommit` takes the calls that operations make as a
parameter.

## Findings

* `log_write` tests the length of the log without `log.lock` (`log.c:218-223`), so two processes can pass the
  test together and both append. In a log of 2 to `LOGSIZE - 1` blocks the commit then overwrites the block
  after the log, and a crash leaves no replay. With the `LOGSIZE` blocks that `mkfs.c:25` chooses the list
  pins all `NBUF` buffers, and the commit stops in `bget` before it writes anything. Storage is atomic and
  durable exactly when the log has more than `LOGSIZE` blocks, or no fewer than there are buffers, or so few
  that nothing can be logged (`LogOverrun.AtomicExactly`, `LogOverrun.AtomicWithBuffers`,
  `LogOverrun.HomeBlockLost`, `LogOverrun.CommitStops`).
* `log_write` can panic with the log size of `mkfs.c`: whatever calls operations make, it is free of panics exactly when
  they log nothing or the longest log at which they call it is below `LOGSIZE` and below the log's size
  less one. For operations that use their whole reservation this means more than `LOGSIZE` blocks and no
  call, not even for a block already logged, with nothing left, because the test comes before absorption
  (`GroupCommit.PanicFreeExactly`, `GroupCommit.PanicFreeFullUse`). `filewrite` makes no such call
  (`FileIo.FileWrite`).
* A commit of `LOGSIZE` blocks cannot complete, because they pin all `NBUF` buffers and `bget` finds none for
  the log (`LogDriver.Log.Commit`).
* A page fault finds no ring to join, `headp` being -1, exactly when no page is resident, and that happens:
  a process that grows while other processors take the frames can lose all its pages to the swap file and
  the new ones to the failure (`SwapProc.Proc.HandlePgflt`, `SwapStranded.Strand`,
  `SwapStranded.StrandedFault`).
* `fork` stops the machine when it gets a frame for every page of the child and none for the buffer of
  `copy_swap_file` (`SwapFork.Fork`).
* A killed `pipewrite` that fills an empty pipe and gives up wakes nobody: a reader stays asleep with 512
  bytes to read, for as long as another process has the write end open and does not write. No reader is left
  asleep with bytes to read in exactly the runs without such a step (`PipeRuns.LostReader`,
  `PipeRuns.NoReaderLostExactly`).
* NFUA finds no page to evict when every resident page is saturated, and 32 accessed ticks saturate a page
  (`Aging.Pager.NfuaVictim`, `Aging.AlwaysAccessedSaturates`).
* `malloc` serves a request without wrap-around exactly up to `0x7FFFFFF0` bytes
  (`Umalloc.RequestLimit`).
* `>>` does not append: the parser makes the same tree of `>>` as of `>` (`sh.c:388-390`), whatever the command line
  (`ShellMap.AppendIsOverwrite`).

## Model

| member | source | states |
|---|---|---|
| `DiskModel.ApplyNext` | memide.c:38-60 | a sequence of block writes acts one write at a time |
| `LogRecovery.EncodeHead` | log.c:101-113 | the header written reads back as exactly the list, and the rest of the block is kept |
| `LogRecovery.InstallPrefix` | log.c:69-82 | install_trans cut after any write: the log region is intact, that many homes are written and all else is as before |
| `LogRecovery.RecoverPrefix` | log.c:115-122 | a recovery cut after any number of writes leaves the logical contents; a complete one leaves an empty log with every home block up to date |
| `LogRecovery.RecoverAfterCrashes` | log.c:115-122 | however often recovery crashes, the one that completes leaves exactly the logical contents |
| `LogRecovery.RecoverIdempotent` | log.c:115-122 | recovering a recovered disk changes no home block |
| `LogRecovery.HeadWriteCommits` | log.c:101-113 | the header write over a fully written log turns the logical contents from old to new at once |
| `LogRecovery.CommitPrefix` | log.c:192-202 | a commit cut after any write: all old up to the header write, all new from it on |
| `LogRecovery.CrashAtomicity` | log.c:69-122 | commit cut anywhere, any number of crashed recoveries, one that completes: every home block old before the header write, every one new after it |
| `GroupCommit.BeginKeeps` | log.c:125-141 | begin_op keeps the reservation: logged blocks and all open budgets fit the log |
| `GroupCommit.TestKeeps` | log.c:218-221 | passing log_write's unlocked tests keeps the reservation: whoever is past them for a new block has something left to spend |
| `GroupCommit.AppendKeeps` | log.c:223-232 | log_write's append keeps the reservation, whatever happened since the tests, and absorbs repeated blocks |
| `GroupCommit.EndKeeps` | log.c:145-174 | end_op starts a commit exactly when the last operation ends |
| `GroupCommit.GroupCommitSafety` | log.c:125-233 | after any interleaving a commit runs only with no operation open, end_op does not panic, and an operation within its budget finds room |
| `GroupCommit.NoPanicBelowPeak` | log.c:213-233 | no run panics whose operations make their calls only at log lengths below both limits |
| `GroupCommit.PanicFreeExactly` | log.c:218-221 | for any rule on which calls operations make: log_write never panics if and only if they log nothing or the longest log at which the rule lets one call is below LOGSIZE and below size - 1 |
| `GroupCommit.PanicFreeFullUse` | log.c:218-221 | for operations that use all of their reservation: never a panic if and only if the log has more than LOGSIZE blocks and no call is made with nothing left |
| `GroupCommit.PanicFreeWithRoom` | log.c:218-221 | operations that call only with something left never panic exactly with more than LOGSIZE blocks of log; those that only count new blocks can panic with any log |
| `LogWaits.StepKeeps` | log.c:125-174 | every section keeps: whoever sleeps in begin_op would sleep again |
| `LogWaits.NoLostWakeup` | log.c:125-174 | over every run, a process asleep in begin_op has a commit in progress, or no room for its reservation and an open operation to wait for |
| `LogWaits.StaysAsleep` | log.c:125-174 | a sleeper in begin_op sleeps on over every run in which no operation and no commit ends and it is not killed |
| `LogWaits.Projects` | log.c:125-174 | sleeping aside, every run is a run of GroupCommit, so begin_op admits exactly what the reservation allows |
| `LogWaits.SleepersCanBeWoken` | log.c:145-174 | from every state with a sleeper the operations and the commit under way can go on by themselves until all are woken |
| `LogSystemSafety.StepKeeps` | log.c:69-233 | every step of every process, of the commit, of a crash and of recovery keeps the invariant of cache, log and disk |
| `LogSystemSafety.LogTestKeeps` | log.c:218-221 | the unlocked tests keep it |
| `LogSystemSafety.LogAppendKeeps` | log.c:223-232 | the append keeps it: however stale the test, the list fits the log or pins every buffer |
| `LogSystemSafety.WriteHeadCommits` | log.c:192-202 | at the header write what becomes durable is exactly what processes see |
| `LogSystemSafety.AtomicAndDurable` | log.c:69-233 | with room in the log, over every run with crashes, what recovery leaves is the replay of a prefix of the history without half-done operations, and every read agrees with the replay of the whole history |
| `LogSystemSafety.QuiescentIsDurable` | log.c:145-174 | with room in the log: when no operation is open and none is committing, the disk holds everything processes have seen |
| `LogSystemSafety.LoggedIsPinned` | bio.c:75-88 | with room in the log: a logged block not yet at home has a valid buffer that cannot be recycled, and its home on disk is old before the header write |
| `LogOverrun.OverfullReached` | log.c:213-233 | for every log of 2 to LOGSIZE blocks, with at least as many buffers, there is a run, two processes past the test together, with as many blocks logged as the log has, one more than it holds |
| `LogOverrun.HomeBlockLost` | log.c:177-190 | with one buffer more its commit overwrites the block after the log before anything is committed, so that what survives is no replay |
| `LogOverrun.CommitStops` | bio.c:81-92 | with as many buffers as log blocks the same commit finds no buffer for its first log block, none can be recycled, and the disk is as it was |
| `LogOverrun.AtomicExactly` | log.c:69-233 | for any number of buffers: every run on every disk with every sequence of crashes survives as a replay if and only if the log has at most one block, more than LOGSIZE, or no fewer than there are buffers |
| `LogOverrun.AtomicWithBuffers` | param.h:10-12 | with NBUF buffers: if and only if it has at most one block or at least LOGSIZE |
| `BufferCache.Cache.constructor` | bio.c:38-56 | the list is one ring of all buffers, none claimed |
| `BufferCache.Cache.FindCached` | bio.c:68-76 | finds the buffer of the block exactly when one is claimed for it |
| `BufferCache.Cache.FindFree` | bio.c:81-91 | finds the least recently used buffer without references and not dirty, if there is one |
| `BufferCache.Cache.Bget` | bio.c:61-93 | a locked buffer for the block: its own, or the least recently used free one with the data not yet valid; no other buffer changes; -1 exactly when it has none and none is free |
| `BufferCache.Cache.Bread` | bio.c:96-106 | the latest contents of the block; no block changes, no write is issued, dirty buffers stay |
| `BufferCache.Cache.Bwrite` | bio.c:109-116 | exactly one disk write, of the buffer's block and contents |
| `BufferCache.Cache.Brelse` | bio.c:120-141 | the reference is dropped, and the last one moves the buffer to the front of the list |
| `BufferCache.MoveToFront` | bio.c:128-138 | the pointer surgery of brelse is the list with that buffer moved to the front |
| `LogDriver.CopyBlock` | log.c:74-80 | one round of write_log or install_trans is one write with the source's latest contents; with nobody else holding buffers it completes if one is free |
| `LogDriver.FreeExactly` | bio.c:81-91 | with no references held, a buffer is free exactly when fewer blocks than buffers are dirty |
| `LogDriver.FillHeader` | log.c:101-113 | write_head's loop builds EncodeHead of the list |
| `LogDriver.ParseHeader` | log.c:85-96 | read_head's loop rebuilds the list |
| `LogDriver.Log.LogWrite` | log.c:213-233 | refused exactly when the list is full or no operation is open, with nothing changed; otherwise the block is in the list once and its buffer is dirty |
| `LogDriver.Log.WriteLog` | log.c:177-190 | issues exactly one write of each logged block's latest contents to the log, in order |
| `LogDriver.Log.InstallTrans` | log.c:69-82 | issues exactly one write of each log block to its home, in order |
| `LogDriver.Log.Commit` | log.c:192-202 | the writes issued are CommitWrites in order, all of them unless the machine stops; then the disk is all old or all new; with no references held it completes exactly when fewer than NBUF blocks are logged |
| `LogDriver.Log.RecoverFromLog` | log.c:115-122 | the writes issued are RecoverWrites; when it completes, as it does with no references held, the disk is the recovered disk |
| `SwapState.FreeSlotExists` | swap.c:28-37 | an eviction always finds a free swap slot |
| `SwapState.TakenEntryExists` | swap.c:42-50 | a page coming in always finds a taken entry to give its slot to |
| `SwapState.OthersUntouched` | vm.c:218-236 | a step that stays within a process's own frames and file cannot be noticed by another process |
| `SwapOut.NoHoles` | swap.c:28-37 | the offset picked is at most the swap file's size and the write stays within MAXFILE blocks |
| `SwapOut.OutOk` | swap.c:138-165 | swap-out keeps every page's contents, one place per page, and the slots exactly conserved |
| `SwapIn.InOk` | swap.c:170-199 | swap-in keeps every page's contents and returns the slot |
| `SwapTrack.AddOk` | swap.c:253-290 | adding a page adds exactly that zeroed page to the address space |
| `SwapTrack.RemoveResidentOk` | swap.c:295-332 | removing a resident page removes exactly that page |
| `SwapTrack.RemoveSwappedOk` | swap.c:295-332 | removing a swapped page removes exactly that page and gives its slot back |
| `SwapQueue.PressEvict` | swap.c:98-115 | while new pages are added, every eviction takes an older page, except at most one, after which the older ones have lost PTE_A |
| `SwapProc.PhysMem.Kalloc` | kalloc.c:87-101 | any free frame; none when there is none or other processors hold them all at that moment |
| `SwapProc.ClearAExactly` | swap.c:98-115 | PTE_A is cleared on exactly the entries passed over |
| `SwapProc.Proc.constructor` | swap.c:218-248 | an empty, consistent address space with all 17 slots free |
| `SwapProc.Proc.GetOffset` | swap.c:28-37 | takes the first free slot; its panic is not reached when an eviction is due |
| `SwapProc.Proc.FreeOffset` | swap.c:42-50 | puts a slot into the first taken entry; its panic is not reached |
| `SwapProc.Proc.FindPageInd` | swap.c:56-61 | the entry of a tracked page, -1 exactly if there is none |
| `SwapProc.Proc.FindFreeSlot` | swap.c:204-210 | the first unused entry, -1 exactly if all are in use |
| `SwapProc.Proc.GetPageToSwap` | swap.c:98-118 | ends within one lap with the first entry from headp whose PTE_A is clear, or headp; clears PTE_A on those passed |
| `SwapProc.Proc.SwapToFile` | swap.c:138-165 | the page moves to a free slot, leaves the ring and is marked paged out; nothing else changes |
| `SwapProc.Proc.SwapFromFile` | swap.c:170-199 | the page's contents are in the new frame, its slot is free, it is last on the ring; HandlePgflt says so of the queue of pages |
| `SwapProc.Proc.FreePage` | vm.c:218-236 | the page second chance picks is evicted and its frame freed, frames conserved, and the address space unchanged |
| `SwapProc.EvictsAs` | swap.c:98-165 | scan and swap-out together are one eviction by second chance on the queue of pages |
| `SwapProc.Proc.HandlePgflt` | vm.c:477-514 | a fault on a swapped page for which there is a frame brings it back, memory unchanged, exactly when some page is resident: last in the queue and without PTE_A, behind the old queue, or with 16 pages resident behind what an eviction by second chance leaves of it; the other outcomes exactly as coded |
| `SwapProc.Proc.AddPage` | swap.c:253-290 | the new page is tracked and last on the ring, or all 32 entries are in use |
| `SwapProc.Proc.AllocUvm` | vm.c:241-293 | exactly the new zeroed pages appear; out of frames the memory is as it was; frames conserved; out of entries the process is killed; exactly where it stops and why; from 16 resident pages, failing after 16 new ones leaves none resident |
| `SwapProc.Proc.DeallocUvm` | vm.c:299-337 | exactly the pages past newsz disappear, from the queue too, where the others keep their order; frames conserved |
| `SwapProc.Proc.DeallocPage` | vm.c:312-333 | the page disappears from address space, tables and queue, nothing else does |
| `SwapProc.Proc.AllocPage` | vm.c:252-289 | a zeroed page is mapped, last in the queue, after an eviction by second chance if 16 are resident; no frame or no entry exactly as coded |
| `SwapStranded.Strand` | vm.c:241-293 | every process with 16 pages, all resident, whatever their PTE_A bits, that grows by 17 or more is left with its memory intact and no page resident if the 17th frame cannot be had |
| `SwapStranded.SixteenPages` | vm.c:241-293 | a new process that grows to 16 pages is such a process |
| `SwapStranded.StrandedFault` | vm.c:477-514 | after that any fault of the process finds frames but no ring to join |
| `SwapFork.ForkOk` | vm.c:373-434 | the child is consistent, remembers what the parent remembers and owns exactly the frames taken for it |
| `SwapFork.CopyUvm` | vm.c:373-412 | resident pages in new frames with the same contents and PTE_A, paged-out entries copied; succeeds exactly when there is a frame for each resident page; otherwise the frames are given back |
| `SwapFork.CopySwapFile` | swap.c:123-133 | the child's swap file is the parent's, copied through a buffer; without a frame for the buffer the machine stops |
| `SwapFork.CopyPageArr` | vm.c:414-434 | the metadata points only into the child's page table |
| `SwapFork.Fork` | proc.c:192-221 | parent and child both hold the parent's memory in frames and files of their own, with the same queue and PTE_A bits, frames conserved, exactly when a frame is left after the copy; without frames for the copy parent and free frames are as they were; with frames for the copy only the machine stops |
| `Aging.NumOfOnes` | swap.c:339-347 | the number of set bits, at most 32 |
| `Aging.OnesIsCount` | swap.c:339-347 | dividing by two counts the set bits of the word |
| `Aging.CounterIsHistory` | swap.c:365-376 | after any run of ticks the counter is the last 32 accesses, newest highest, over the bits it started with |
| `Aging.LapaRank` | swap.c:80-87 | LAPA's first key is the number of accesses in those 32 |
| `Aging.SaturatedExactly` | swap.c:365-376 | the counter is all ones exactly when all 32 observations were accesses |
| `Aging.AlwaysAccessedSaturates` | swap.c:365-376 | 32 accessed ticks saturate a counter whatever it was |
| `Aging.Pager.UpdatePagesCounter` | swap.c:356-384 | every resident page is aged once and its accessed bit cleared, no other page changes; what that makes of the counters is in AgingRuns |
| `Aging.Pager.LapaVictim` | swap.c:73-97 | the first lexicographic minimum of set bits and counter among resident pages, none exactly when none is resident |
| `Aging.Pager.NfuaVictim` | swap.c:73-97 | the first smallest counter among resident pages, none exactly when all of them are saturated |
| `AgingRuns.CounterOverRuns` | swap.c:356-384 | over every run of accesses, ticks and pages coming and going, a resident page's counter is its last 32 observations since it came over the bits it came with, and it has PTE_A exactly if it was used since the last tick |
| `AgingRuns.Observed` | swap.c:369-375 | each tick observes exactly whether the page was used since the tick before, or since it came |
| `AgingRuns.NoTicksLost` | swap.c:367-371 | every tick adds one observation |
| `AgingRuns.StartsRight` | swap.c:181-270 | the bits a page comes with, new or from the swap file, under either policy |
| `AgingRuns.TickClears` | swap.c:369-375 | after each tick no resident page has PTE_A, and pages that are not resident are as they were |
| `AgingRuns.AwayUnchanged` | swap.c:369-369 | over every run a page that is not resident is as it was until it comes or is removed |
| `AgingRuns.UsedOutranks` | swap.c:88-96 | after a tick a page used since the one before has a larger counter than every page that was not |
| `FsState.WordSame` | fs.c:389-397 | a block number stored in an indirect block reads back |
| `FsState.AllocOk` | fs.c:56-78 | allocation takes a block nobody owns and changes no file |
| `FsBlocks.SetAddrOk` | fs.c:379-390 | installing a zeroed block in an empty direct slot, or as indirect block, keeps ownership and every file's bytes |
| `FsBlocks.SetEntryOk` | fs.c:391-397 | installing a zeroed block as an indirect entry keeps ownership and every file's bytes |
| `FsBlocks.StoredOk` | fs.c:500-506 | overwriting a data block changes those bytes of that file and nothing else anywhere |
| `FsBlocks.TruncatedOwnership` | fs.c:408-436 | releasing exactly an inode's blocks keeps ownership of all others |
| `FsBlocks.EmptyOk` | mkfs.c:94-120 | a disk without files satisfies the ownership invariant |
| `FsContent.StoredSpliced` | fs.c:500-506 | patching one block is a splice of the file's bytes |
| `FsContent.SplicedContent` | fs.c:482-512 | bytes written and size grown together splice the contents |
| `FsContent.SpliceReads` | fs.c:453-512 | what was written reads back, the rest is as it was |
| `FsContent.BudgetFits` | file.c:127-133 | a chunk needs no more log space than one operation reserves |
| `FsContent.ChunkIsLargest` | file.c:127-133 | the chunk is the largest size for which the budget fits at every offset |
| `FsGrow.LoggedTrans` | fs.c:373-401 | growing twice logs exactly what each growth logs |
| `FsGrow.WriteLogBound` | fs.c:482-512 | the blocks a write logs number at most its budget, even if every allocation touches another bitmap block |
| `FsGrow.GrowthBound` | fs.c:482-512 | all that a write logs before the inode is one less than the budget at most |
| `FsGrow.WriteLogTight` | file.c:127-133 | an unaligned write over four blocks past the direct ones, free blocks all in different bitmap blocks, logs exactly MAXOPBLOCKS blocks |
| `FsSpace.ShortDisk` | fs.c:56-78 | a write that finds no free block had fewer free blocks than empty slots to fill |
| `FsSpace.EnoughDisk` | fs.c:482-512 | a write that completes had a free block for every slot it needed |
| `FsTight.TightWrite` | file.c:127-133 | conditions on the disk before the write under which a chunk completes and logs exactly MAXOPBLOCKS blocks |
| `FsTight.TightRun` | file.c:127-133 | a disk that meets them: an append of CHUNK bytes to a file of eleven blocks and a byte, from its first step |
| `FsInode.FileSystem.Balloc` | fs.c:56-78 | the lowest free block, zeroed and logged; fails only on a full disk |
| `FsInode.FileSystem.Bfree` | fs.c:81-96 | clears the bit, panics exactly on a free block |
| `FsInode.FileSystem.Bmap` | fs.c:373-401 | the block of the file block, allocated where missing; no file's bytes change; exactly the growth is logged; fails only on a full disk with the slot still empty |
| `FsInode.FileSystem.Iupdate` | fs.c:221-237 | the inode on disk becomes the one in memory |
| `FsInode.FileSystem.Writei` | fs.c:482-512 | refusal changes nothing; otherwise contents spliced, other files untouched, disk inode equal to memory, exactly the blocks of WriteLog logged, and every data, indirect, bitmap or inode block changed among them; balloc panics exactly when fewer blocks are free than slots to fill |
| `FsInode.FileSystem.Readi` | fs.c:453-477 | the slice of the contents, nothing changed, -1 exactly past the end or on wrap-around |
| `FsInode.FileSystem.Itrunc` | fs.c:408-436 | exactly the inode's blocks become free, no other file changes, bfree's panic is not reached, every block changed is logged |
| `FileIo.FileRead` | file.c:96-113 | the contents from the offset, which moves past them; -1 exactly when unreadable, past the end or wrapping |
| `FileIo.FileWrite` | file.c:117-156 | n exactly when the write fits, otherwise -1; a prefix of whole chunks is in the file; each transaction logs at most MAXOPBLOCKS blocks, and every call of log_write finds fewer logged by it |
| `FreeList.InsertSpaced` | umalloc.c:24-44 | freeing keeps the list in address order with no two blocks touching |
| `FreeList.InsertCovers` | umalloc.c:24-44 | freeing makes exactly the block's units free |
| `FreeList.TakeSpaced` | umalloc.c:74-86 | allocating keeps the list in order and coalesced |
| `FreeList.TakeCovers` | umalloc.c:74-86 | allocating takes exactly its units, all of which were free |
| `FreeList.Canonical` | umalloc.c:24-44 | two coalesced lists with the same free units are the same list |
| `FreeList.MallocThenFree` | umalloc.c:24-90 | malloc then free of the same block restores the list |
| `Umalloc.RequestLimit` | umalloc.c:63-70 | a request is served without wrap-around exactly up to the limit |
| `Umalloc.UsableBytes` | umalloc.c:69-69 | the units for a request hold it exactly when the rounding does not wrap |
| `Umalloc.Heap.FindPlace` | umalloc.c:29-32 | free's scan ends within one lap at the block's place |
| `Umalloc.Heap.JoinNeighbours` | umalloc.c:33-43 | the pointer surgery is insertion with both joins |
| `Umalloc.Heap.Free` | umalloc.c:24-44 | the ring in memory spells out the coalesced list, exactly the block's units are free, freep is the free block below it, and what other allocated blocks hold is kept |
| `Umalloc.Heap.Morecore` | umalloc.c:46-61 | at least 4096 new units join the free list after its last block, where freep is left, or nothing changes |
| `Umalloc.Heap.Malloc` | umalloc.c:63-90 | a block of enough units disjoint from every allocated one, whose contents are kept; it grows the heap, once, or fails, exactly when no free block is large enough; first fit from freep, before growing or after it, and freep and the list then |
| `Umalloc.TakenFromGrant` | umalloc.c:74-90 | after growing, the block is the end of what sbrk granted |
| `ProcTable.ProcessTable.AllocProc` | proc.c:74-92 | the first unused entry with the next pid, or none is unused |
| `ProcTable.ProcessTable.Wakeup1` | proc.c:471-480 | exactly the sleepers on the channel become runnable |
| `ProcSleep.WokenExactly` | proc.c:432-512 | each step makes runnable exactly the sleepers it should: on the channel of a wakeup, in wait when a child exits or init inherits a zombie, or killed |
| `ProcSleep.StaysAsleep` | proc.c:432-480 | over every run, a process sleeps on while nothing that should wake it happens; in wait, while no child of it exits, it inherits no zombie and it is not killed |
| `ProcSleep.SleepsUntilWoken` | proc.c:432-480 | a process asleep on a channel sleeps on, on that channel, over every run without a wakeup on it and without its being killed |
| `ProcSleep.WokenAtLast` | proc.c:471-512 | the first step that should wake a sleeper leaves it runnable |
| `ProcSleep.SleepersHaveChannels` | proc.c:432-465 | over every run a sleeper sleeps on itself or on a channel |
| `ProcSleep.KilledExactly` | proc.c:494-512 | over every run until it is reaped, a process is marked killed exactly if it was or was killed in the run |
| `ProcTable.ProcessTable.Exit` | proc.c:261-277 | parent woken, children handed to init, which is woken if one is a zombie, and a zombie left |
| `ProcTable.ProcessTable.Wait` | proc.c:290-322 | reaps the first zombie child if and only if there is one; otherwise -1 or asleep as coded |
| `ProcTable.ProcessTable.Kill` | proc.c:494-512 | marks the first entry with the pid and makes it runnable if asleep, -1 exactly if there is none |
| `ProcRuns.ExitNoLost` | proc.c:261-277 | after an exit nobody is asleep in wait with a zombie child |
| `ProcRuns.StepKeeps` | proc.c:179-512 | every critical section keeps the invariant of table and history |
| `ProcRuns.WaitSafety` | proc.c:233-324 | over every run: no sleeper in wait has a zombie child, each exited process is reaped at most once, by its forker or init, and unreaped ones have a live parent |
| `SleepLock.StepKeeps` | sleeplock.c:22-42 | every interleaved step keeps the invariant of the two spinlocks and the sleep lock |
| `SleepLock.MutualExclusion` | sleeplock.c:22-42 | over every run at most one process has the sleep lock |
| `SleepLock.NoLostWakeup` | proc.c:432-489 | over every run, with lk->lk free and the lock not taken nobody is asleep on it or about to be |
| `SleepLock.SchedHoldsOnlyPtable` | proc.c:377-394 | sched is entered holding ptable.lock and not lk->lk, and no spinlock has two holders |
| `SleepLock.SleepsWhileHeld` | sleeplock.c:22-42 | from any state of any run, while the holder does not go on the lock stays its own and every sleeper sleeps on unless killed |
| `SleepLock.NotStuck` | sleeplock.c:22-42 | unless all are idle some process or the scheduler can always go on |
| `Pipe.Pipe.Write` | pipe.c:78-98 | bytes are appended until done or 512 are in flight, across counter wrap-around; sleeps or fails only when full |
| `Pipe.Pipe.Read` | pipe.c:100-121 | the oldest bytes in flight, in order, as many as asked for or all; sleeps only on an empty pipe open for writing |
| `Pipe.Pipe.Close` | pipe.c:59-75 | one end closed, bytes in flight kept, freed when both ends are |
| `PipeRuns.StepKeeps` | pipe.c:59-121 | every section of any number of readers and writers keeps: a sleeping writer has a full ring and the read end open |
| `PipeRuns.NoWriterLost` | pipe.c:113-118 | over every run, a writer asleep has a full ring and the read end open |
| `PipeRuns.StepFed` | pipe.c:84-97 | sleeping readers stay without bytes to read exactly when the step is not a killed writer giving up on a ring it filled |
| `PipeRuns.NoReaderLostExactly` | pipe.c:59-121 | a run leaves no reader asleep with bytes in the ring, at any point, if and only if it has no such step |
| `PipeRuns.StaysAsleep` | pipe.c:106-112 | a sleeping reader stays asleep over every run in which nobody writes, the write end stays open and it is not killed |
| `PipeRuns.WriterStaysAsleep` | pipe.c:84-92 | a sleeping writer stays asleep over every run in which nobody reads, the read end stays open and it is not killed |
| `PipeRuns.LostReader` | pipe.c:85-89 | one reader, two writers and a kill leave the reader asleep with 512 bytes to read, until the other writer writes or closes or the reader is killed |
| `Pipe.WrapMod` | pipe.c:93-93 | the wrapped counter finds the same place in the ring |
| `Grep.PrefixStar` | grep.c:98-106 | a starred item matches exactly by some run of fitting characters and then the rest |
| `Grep.MatchHere` | grep.c:84-96 | true exactly when the text begins with a word of the pattern's language |
| `Grep.MatchStar` | grep.c:98-106 | shortest-first search is complete |
| `Grep.Match` | grep.c:72-82 | 1 exactly when the text has a substring in the language, with anchors |
| `ShellParser.Parser.Peek` | sh.c:308-318 | whether the next token starts so; only white space is consumed |
| `ShellParser.Parser.GetToken` | sh.c:263-306 | the next token and its place, consumed; 0 at the end |
| `ShellParser.Parser.ParseRedirs` | sh.c:371-394 | agrees with the grammar on the remaining tokens, of which ShellExec says what becomes of each redirection |
| `ShellParser.Parser.ParseWords` | sh.c:426-441 | agrees with the grammar, and argv never overflows |
| `ShellParser.Parser.ParseExecCmd` | sh.c:412-443 | agrees with the grammar |
| `ShellParser.Parser.ParseBlockCmd` | sh.c:396-410 | agrees with the grammar |
| `ShellParser.Parser.ParsePipeCmd` | sh.c:358-369 | agrees with the grammar |
| `ShellParser.Parser.ParseLineCmd` | sh.c:341-356 | agrees with the grammar |
| `ShellParser.Parser.ParseCommand` | sh.c:325-336 | ends on every string, with the grammar's tree or a panic |
| `ShellGrammar.RoundTrip` | sh.c:341-443 | the parser inverts the printer on every tree with at most nine words per exec |
| `ShellExec.ExecTyped` | sh.c:371-443 | for words and redirections in any order on one exec, spelled `<`, `>` or `>>`, the tree is the exec of the words in order inside the redirections in order, reading exactly for `<`; a panic exactly from ten words on |
| `ShellExec.LineTyped` | sh.c:325-443 | the same for a whole command line |
| `ShellMap.AppendIsOverwrite` | sh.c:384-390 | for every list of tokens the parse is the same when any `>>` is written `>` |
| `ShellMap.ParseAlike` | sh.c:341-443 | the tree depends on the words only by carrying them along, and on the spelling of output redirections not at all |
| `ShellMap.ParseMap` | sh.c:341-443 | replacing the words before parsing or after it is the same |
| `ShellStrings.RoundTripText` | sh.c:263-443 | every such command, printed as a string, parses to itself |
| `ShellStrings.ParsedWords` | sh.c:294-298 | every word of a parsed tree is a whole word of the buffer |
| `ShellStrings.NulTerminate` | sh.c:446-490 | a NUL at the end of each word of the tree and nowhere else |
| `ShellStrings.WordsIntact` | sh.c:446-490 | no NUL lands inside a word, so each is the C string it was |
| `ShellStrings.ParseCmd` | sh.c:325-339 | the grammar's tree with every word a C string in the buffer, or a panic with the buffer untouched |

## Left out

- Hardware and boot code: the disk is an array of blocks written one at a time, and PTE_A is set by the program's accesses.
- Memory ordering and interrupt details of spinlocks: a spinlock operation is one step.
- The AQ policy: removing a page leaves holes in its queue that are not reclaimed, so it does not hold the resident pages in order.
- exec, and creating and removing swap files: one process keeps one swap file for its life.
- The two-level page-table walk, and deallocuvm's skip over a missing page table: the page table is a map from page numbers.
- Page permissions: swap-in maps with PTE_W and PTE_U whatever the entry had; the model speaks of contents.
- The free-page counter of kalloc.c and the page counters shown by print_proc_data: they do not influence the rest.
- Device inodes, directories, path lookup and inode allocation: the file layer starts at an inode number.
- The bitmap's packing of eight bits to a byte: it is a sequence of bits, and each bit's bitmap block is kept for the log.
- Device numbers: there is one disk.
- The panics for want of buffers, blocks or inodes are results of the model, not shown to be unreachable; they depend on load. For commit and for writei it is shown exactly when they happen.
- BufferCache.Cache.Bget: requires that nobody holds the block's buffer locked, where the code sleeps until it is released; the interleavings are in LogSystem.
- BufferCache.Cache.Bread: the same.
- Liveness under a fair scheduler: SleepLock.NotStuck says that some step is always possible, not that each process gets one.
- Wrap-around of pids at the largest int.
- The grep driver that reads lines, and runcmd, which executes the tree.
- LogSystemSafety.AtomicAndDurable: buffers of the log region itself are not cached in the step system, which only asks for a spare one at each write; LogDriver has them.
- GroupCommit.PanicFreeExactly: takes for granted that bget finds a buffer for every block logged; with NBUF buffers its panic comes before that of log_write where a rule lets operations log more than LOGSIZE blocks.
- LogWaits.NoLostWakeup: sleep and wakeup are atomic with their section, as in PipeRuns, and no process is shown to get its turn.
- LogDriver.Log.Commit: struct arrays in place (the header's block list, the buffers) are sequence fields that the methods reassign, here and in the other classes; aliasing between them is not modelled.
- SwapProc.Proc.HandlePgflt: requires a page-table entry for the address, which the code dereferences unchecked; faults at kernel addresses are not modelled.
- AgingRuns.CounterOverRuns: a run is of one process; fork, which copies the counters, starts another from any state.
- SwapProc.Proc.AllocUvm: requires the new range to be unmapped, which mappages otherwise answers with its remap panic.
- Pipe.Pipe.Write: one section between two sleeps; who is woken is in PipeRuns, which counts the bytes and does not hold them.
- Pipe.Pipe.Read: the same.
- Pipe.Pipe.Close: the same.
- PipeRuns.NoReaderLostExactly: sleep and wakeup are atomic with the section they are in, which is what SleepLock shows of them one lock operation at a time.
- SwapFork.Fork: the frames of page tables and of the kernel stack are not counted, and every process has a swap file, which the first process has not.
- SwapProc.PhysMem.Kalloc: frames that other processors take and give back show only as `busy`.
- Umalloc.Heap.Malloc: requires a request within Umalloc.RequestLimit, beyond which the rounding or sbrk's argument wraps.
- ShellParser.Parser.ParseWords: argv and eargv are a sequence of at most nine places; redirections wrap the exec once all its words are known, which is where the code's shared pointer leads.
