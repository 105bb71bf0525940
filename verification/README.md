# A model of an xv6 variant

This project models the parts of a RISC-V xv6 system that are hard to get right, and proves what they
are for. The system has three additions over stock xv6: copy-on-write fork, page reference counts, and
several compile-time schedulers. `dafny verify dfyconfig.toml` checks everything.

Every component has the same layers. A value describes the state, with bookkeeping that the C code keeps
only in its author's head: what a page, a disk block or a descriptor is used for. Functions or step
predicates on that value describe each update, and small lemmas say what each update keeps. A class then
runs the code with its loops and its branches, in place, and its contracts tie the new state to those
functions. Main results are about every run or every reachable state.

- **Log and buffer cache** (`LogModel`, `LogInvariant`, `LogRefinement`, `LogBudget`, `LogOverflow`, `LruRing`,
  `LogCode`). The machine allows a crash between any two block writes. It refines a store of two block maps, the
  durable one and the current one.
- **Copy-on-write memory** (`VmModel`, `VmTree`, `VmOps`, `CowSpec`, `VmSteps`, `VmBudget`, `VmCode`, `EagerSpec`,
  `VmProcs`, `VmWitness`). Physical pages, counts, three-level page tables, fork, faults, copyout, growing, shrinking
  and exit. It refines memory in which fork copies every page at once, and runs out of pages only where that would.
- **File blocks** (`FsModel`, `FsOps`, `FsSteps`, `FsBudget`, `FlatFiles`, `FsCode`). Bitmap bits and little-endian words
  inside byte blocks, direct and indirect mapping, truncation, and the blocks that each transaction logs. It refines
  flat byte arrays, and a write comes short only where they do not fit the disk.
- **Sleep locks** (`SleepLock`), **MLFQ** (`Mlfq`), **lottery** (`ParkMiller`, `Lottery`), both with `ProcStates`.
- **Virtio queue** (`Virtio`, `VirtioCode`), with the device as two arbitrary steps.
- **Pipe** (`Pipe`), **allocator** (`Umalloc`), **matcher** (`Grep`), **shell parser** (`ShellGrammar`, `ShellLex`,
  `ShellCode`).
- `Paths`, `Pigeonhole` and `Words` hold general facts.

## What the models take for granted

- One disk device, with a number other than the 0 that zeroed buffers carry. Blocks passed to log_write lie outside
  the log area, and a caller that changes a buffer logs it before brelse; a copy into a buffer is all or nothing.
- A block write and the memory copy just before it are one step. Sequentially consistent memory; a spin lock makes
  the code under it one step where a model says so.
- copyout goes to pages that have PTE_W or the copy-on-write mark. `CowSpec.StorePrivateIff` says exactly when a store
  without PTE_W would stay private. Where copyout carries on after a failed kalloc the model stops with `NoMemory`.
- `ticks` does not wrap.
- A buffer handed to the disk driver is in no other request, because its sleep lock is held.
- sbrk answers with the end of memory, aligned to a header; between two calls that end moves only up.

## What turned out not to hold as written

- The reservation of begin_op protects log_write exactly when the log area has LOGSIZE blocks besides its header.
  mkfs makes it one block shorter (`LogOverflow.RoomIffLogLargeEnough`, `LogOverflow.MkfsLogTooSmall`).
- A larger log area does not help. Some budgeted run ends in a commit that panics in bget, with no other process in
  the way, exactly when the log area has NBUF blocks besides its header; LOGSIZE equals NBUF, so every size has one of
  the two panics (`LogOverflow.CommitPanicsIff`, `LogOverflow.NoLogSizeIsSafe`). When others hold buffers, bget panics
  for an uncached block as soon as their buffers and the pinned blocks are NBUF together (`LogOverflow.BgetPanicsIff`):
  with the area that mkfs makes, one reader is enough (`LogOverflow.MkfsCommitPanics`).
- Fork is not invisible: a store that the process may do, and could do before it forked, gets it killed exactly when
  its page is marked and the address is on the page below the one of the stack pointer or at the start of that one
  (`VmSteps.StoreAgreesIff`). With the stack pointer where userinit puts it, that is all of page 0 after the first
  fork (`VmWitness.StackStoreKilled`). Private memory with the set of marked pages beside it determines every such
  outcome (`VmProcs.Machine.Step`), and a process that takes part in no fork meets none of them
  (`EagerSpec.ForkFreeStores`).
- copyout to a read-only page that fork has shared changes the other process too
  (`CowSpec.StorePrivateIff`, `VmWitness.CopyoutReachesParent`).
- The lottery is exact if and only if the ticket sum is below 2^31 - 1, which settickets does not ensure
  (`Lottery.FairIffSumFits`). At that sum the last ticket never wins, since rand() does not return the value for it
  (`Lottery.LastTicketStarves`); beyond it the largest holders can starve (`Lottery.LargestHoldersStarve`).
- malloc hands out memory that the process does not have exactly when it asks sbrk for 2^31 bytes or more, from a
  request of 0x7fffffe1 bytes on, and the write of the new header does not fault (`Umalloc.FitsIntIff`,
  `Umalloc.Allocator.Malloc`, `Umalloc.HugeRequest`). When it does fault, at an end of memory that did not move up,
  the process is killed and nothing is handed out (`Umalloc.FaultsIff`).
- A write whose copy from the user fails midway is not undone in the cached block. That shows in the file exactly when
  one of the bytes copied lies below the size and differs (`FsSteps.TornWriteIff`).
- The ten-block budget of a filewrite chunk is met only because files have no holes: an unaligned chunk touches four
  blocks, and the first one exists (`FsSteps.FirstBlockExists`, `FsSteps.ChunkBudget`).
- piperead loses one byte exactly when a copy to the reader fails (`Pipe.PipeObj.ReadStretch`).
- Under MLFQ fork resets the queue and the entry time of the parent instead of the child's. The child enters queue 0
  with entry time 0, so it takes the turn of a process whose turn it was, unless that one is in queue 0 since tick 0
  and in an earlier slot (`Mlfq.ForkKeepsTurnIff`). Each fork into a slot buys that slot one more turn
  (`Mlfq.BoundedBypass`), and a process that is due can wait for any number of them (`Mlfq.ForkStarves`).

## Model

| member | source | states |
|---|---|---|
| `LogModel.DecodeEncode` | kernel/log.c:86-114 | reading a header block gives back the list that write_head stored in it |
| `LogInvariant.NextInv` | kernel/log.c:68-235 | every step of cache, log, commit, recovery and crash keeps the invariant: one buffer per block, listed blocks valid and pinned once, header and log blocks consistent with the phase of commit |
| `LogInvariant.GetRecycleInv` | kernel/bio.c:77-87 | recycling a buffer whose count is 0 keeps the invariant, so it never loses a logged update |
| `LogInvariant.RecycledNotPinned` | kernel/bio.c:77-82 | a buffer with count 0 carries no block of the transaction |
| `LogInvariant.RecycleCur` | kernel/bio.c:77-87 | recycling leaves the content that bread would deliver unchanged, for every block |
| `LogInvariant.LogWriteInv` | kernel/log.c:214-235 | log_write, absorbing or appending, keeps the invariant |
| `LogInvariant.InstallInv` | kernel/log.c:68-83 | one round of install_trans keeps the invariant, including its bunpin |
| `LogInvariant.ReplayInv` | kernel/log.c:68-83 | one round of install_trans during recovery keeps the invariant |
| `LogInvariant.CrashInv` | kernel/log.c:54-66 | losing the cache and the in-memory header at any point leaves a disk from which recovery can start |
| `LogInvariant.QuietIsClean` | kernel/log.c:146-175 | with no operation in progress, an unpinned cached block equals its disk block |
| `LogRefinement.NextRefines` | kernel/log.c:68-235 | every step of the machine is a step of the two-map store, or changes nothing that can be seen |
| `LogRefinement.WriteHeadRefines` | kernel/log.c:102-114 | the one header write of a commit makes the durable map equal to the current map |
| `LogRefinement.DurableChangesAtCommit` | kernel/log.c:193-203 | no other step changes what a recovery would produce, and no operation is in progress at that write |
| `LogRefinement.CrashSafety` | kernel/log.c:68-203 | at every instant of every run with any crashes, a completed recovery would produce exactly the content at the last committed header write, when no system call was in progress |
| `LogRefinement.RecoveryRestores` | kernel/log.c:116-123 | when recovery ends, the home blocks on disk and in the cache are that content |
| `LogRefinement.ReadsLatest` | kernel/bio.c:92-103 | a locked buffer holds the latest content of its block |
| `LogRefinement.RunInv` | kernel/log.c:68-235 | the invariant holds in every state of every run |
| `LogBudget.Reservation` | kernel/log.c:126-142 | in every run whose operations keep to MAXOPBLOCKS, header entries plus unused reservations stay within LOGSIZE |
| `LogBudget.RoomInLog` | kernel/log.c:214-235 | an operation with unused budget finds fewer than LOGSIZE entries, and log_write does not panic if the log area has LOGSIZE blocks besides its header |
| `LogOverflow.RoomIffLogLargeEnough` | kernel/log.c:219-223 | some budgeted run makes log_write panic if and only if the log area is smaller than that |
| `LogOverflow.MkfsLogTooSmall` | mkfs/mkfs.c:25 | the log size that mkfs chooses is one too small |
| `LogOverflow.CommitPanicsIff` | kernel/bio.c:77-88 | some budgeted run ends in a commit whose first bget panics, with no other process using a buffer, if and only if the log area has NBUF blocks besides its header |
| `LogOverflow.NoLogSizeIsSafe` | kernel/param.h:10-11 | since LOGSIZE equals NBUF, every log area allows one of the two panics |
| `LogOverflow.BgetPanicsIff` | kernel/bio.c:58-88 | in every state, bget of a block panics if and only if the block is not cached and the pinned blocks with the buffers that others hold beside them fill the cache |
| `LogOverflow.MkfsCommitPanics` | kernel/log.c:178-190 | with the log area of mkfs and one buffer held by a reader, some budgeted run ends in a commit whose first bget panics |
| `LruRing.Unlink` | kernel/bio.c:128-129 | the two pointer writes take a buffer out of the ring and leave the order of the others |
| `LruRing.LinkFront` | kernel/bio.c:130-133 | the four pointer writes put a buffer at the front of the ring |
| `LogCode.FreeBufferIff` | kernel/bio.c:74-88 | outside all users, some buffer can be recycled if and only if the pinned blocks do not fill the cache |
| `LogCode.BlockLayer.constructor` | kernel/bio.c:36-53 | binit links all buffers into the ring; the start state is a start state of the machine |
| `LogCode.BlockLayer.FindCached` | kernel/bio.c:66-73 | the first loop of bget finds a buffer of the block if there is one |
| `LogCode.BlockLayer.FindUnused` | kernel/bio.c:77-87 | the second loop finds the least recently used buffer without references |
| `LogCode.BlockLayer.Bget` | kernel/bio.c:58-88 | bget hits, recycles, or panics exactly when the block is not cached and every buffer is referenced |
| `LogCode.BlockLayer.Bread` | kernel/bio.c:92-103 | bread delivers a locked buffer with the latest content of the block |
| `LogCode.BlockLayer.Bwrite` | kernel/bio.c:106-112 | bwrite stores the buffer on disk; without the lock it panics |
| `LogCode.BlockLayer.Brelse` | kernel/bio.c:116-137 | the buffer is unlocked and released, and becomes most recently used exactly when its count reaches 0 |
| `LogCode.BlockLayer.WriteLog` | kernel/log.c:178-190 | all log blocks are written, nothing durable or current changes, and it panics exactly when the list pins every buffer |
| `LogCode.BlockLayer.WriteHead` | kernel/log.c:102-114 | the header write commits: durable becomes current |
| `LogCode.BlockLayer.InstallTrans` | kernel/log.c:68-83 | installing or replaying changes nothing that can be seen and ends after the last block |
| `LogCode.BlockLayer.ClearHead` | kernel/log.c:199-202 | the empty header leaves both maps and makes the disk agree with them |
| `LogCode.BlockLayer.Commit` | kernel/log.c:193-203 | commit as a whole makes the current map durable on disk, and succeeds exactly when the list is shorter than NBUF |
| `LogCode.BlockLayer.ReadHead` | kernel/log.c:86-97 | recovery starts from the list in the header block |
| `LogCode.BlockLayer.RecoverFromLog` | kernel/log.c:116-123 | recovery leaves the durable map and puts it on disk |
| `LogCode.BlockLayer.BeginOp` | kernel/log.c:126-142 | begin_op proceeds exactly when nothing commits and one more full reservation fits |
| `LogCode.BlockLayer.LogWrite` | kernel/log.c:214-235 | log_write absorbs or appends and pins; it panics exactly when the list is full |
| `LogCode.BlockLayer.EndOp` | kernel/log.c:146-175 | the last end_op commits everything that was logged; an earlier one only ends the operation |
| `VmModel.IndexSplit` | kernel/vm.c:73-84 | the three index fields determine the page number, so distinct pages reach distinct slots |
| `VmModel.JoinSplit` | kernel/vm.c:73-84 | any three index fields come from exactly the page number they make up |
| `VmTree.LinkLookup` | kernel/vm.c:96-99 | hanging an empty table into the tree changes no translation of any process |
| `VmTree.StoreLookup` | kernel/vm.c:158 | storing a leaf entry changes the translation of that page of that process and no other |
| `VmTree.LinkTrees` | kernel/vm.c:91-101 | a new table keeps all page-table trees well formed and disjoint |
| `VmTree.UnlinkTrees` | kernel/vm.c:276-282 | clearing a pointer to an empty table does so too |
| `VmOps.AllocInv` | kernel/kalloc.c:112-129 | kalloc keeps exact counts, the free list, the trees, the maps and the sharing rule |
| `VmOps.ReleaseInv` | kernel/kalloc.c:82-107 | so does kfree of a page with one owner |
| `VmOps.MapFreshInv` | kernel/vm.c:143-165 | so does mapping a page that the kernel holds |
| `VmOps.ShareInv` | kernel/vm.c:328-331 | so does mapping a page a second time, with its count raised, when no entry for it is writable |
| `VmOps.DropInv` | kernel/vm.c:186-190 | so does removing a mapping: the page is freed exactly when that was the last one |
| `VmOps.ProtectInv` | kernel/vm.c:320-326 | taking PTE_W away and marking the entry leaves the page writable through no entry |
| `CowSpec.PokeEager` | kernel/vm.c:398 | a store through an entry with PTE_W changes that page of that process and nothing else that any process sees |
| `CowSpec.StorePrivateIff` | kernel/vm.c:357-405 | a store through any entry stays private, whatever is written, if and only if the page has no other mapping |
| `CowSpec.ProtectEager` | kernel/vm.c:320-326 | marking an entry changes nothing that a process sees |
| `CowSpec.DropEager` | kernel/vm.c:186-190 | removing a mapping removes that page from the view and leaves the rest |
| `VmSteps.LowEmpty` | kernel/vm.c:272-288 | a process without mappings has no valid entry in its lowest tables, so freewalk meets no leaf |
| `VmSteps.MovedPrivate` | kernel/trap.c:103-117 | replacing a marked entry by a private copy and dropping the shared page keeps all invariants and is not visible |
| `VmSteps.TablesReleased` | kernel/vm.c:271-297 | after uvmfree every page-table page of the process is on the free list with count 0, and no table page of another process has changed hands |
| `VmSteps.StoreAgreesIff` | kernel/trap.c:71-117 | with a page free, a store is killed exactly when private memory forbids it, if and only if its page is not marked or its address not near the stack pointer |
| `VmSteps.WrittenStep` | kernel/vm.c:362-403 | writing page by page writes the flat byte range |
| `VmBudget.NoRoom` | kernel/kalloc.c:112-129 | when no page is free, physical memory is no larger than the mappings, counted as if nothing were shared, the page tables, and what the kernel holds |
| `VmBudget.NoTable` | kernel/vm.c:91-95 | one page less when walk misses a table |
| `VmBudget.TablesCount` | kernel/vm.c:86-103 | a process with n pages has one root, one middle table per 2^18 and one low table per 512 pages |
| `VmCode.Memory.constructor` | kernel/kalloc.c:53-75 | kinit ends with every page free and every count 0 |
| `VmCode.Memory.Kalloc` | kernel/kalloc.c:112-129 | kalloc fails exactly when the list is empty; otherwise it hands out the first page, counted once |
| `VmCode.Memory.Kfree` | kernel/kalloc.c:82-107 | kfree panics exactly when the count is not positive, and frees the page exactly when it was 1 |
| `VmCode.Memory.IncPgrc` | kernel/kalloc.c:30-41 | incpgrc adds one, and panics exactly on a negative count |
| `VmCode.Memory.Walk` | kernel/vm.c:86-103 | walk ends at the slot of the page; it adds only tables of its path, without changing any translation, and fails only when no page is free and a table of the path is missing or, not allocating, when a table is missing |
| `VmCode.Memory.Uvmunmap` | kernel/vm.c:170-192 | exactly the range disappears from the map and from the view |
| `VmCode.Memory.MapNew` | kernel/vm.c:143-165 | mappages adds exactly its page, or fails and changes no mapping |
| `VmCode.Memory.AllocPage` | kernel/vm.c:233-246 | one round of uvmalloc adds a zeroed page, or leaves nothing behind and there was no room for it |
| `VmCode.Memory.Uvmalloc` | kernel/vm.c:225-249 | uvmalloc adds zeroed pages for exactly the new range; it fails only if physical memory is smaller than all pages with the new ones and their tables, and then the view is the old one and only tables for the pages it tried stay |
| `VmCode.Memory.Protect` | kernel/vm.c:313-326 | the parent's entry loses PTE_W and is marked; nothing visible changes |
| `VmCode.Memory.SharePage` | kernel/vm.c:313-331 | one round of uvmcopy gives the child the parent's entry, marked; it fails only when a table is missing and no page is free, and then the view is unchanged |
| `VmCode.Memory.Uvmcopy` | kernel/vm.c:305-338 | the child's pages are copies of the parent's, on the same frames, and neither can write to them; exactly the writable pages gain the mark, on both sides; it fails only if physical memory is smaller than eager copies and tables, and then only marks of the parent are left of the attempt |
| `VmCode.Memory.Uvmcreate` | kernel/vm.c:196-205 | an empty page table for the process, failing exactly without memory |
| `VmCode.Memory.FreeChild` | kernel/vm.c:276-282 | the child table is freed and its entry cleared; nothing visible changes |
| `VmCode.Memory.Freewalk` | kernel/vm.c:271-288 | every table page below is freed once, the leaf panic is unreachable, and the page itself goes last |
| `VmCode.Memory.Uvmfree` | kernel/vm.c:291-297 | exactly the pages and the page table of the process are gone, and pages change hands only by becoming free |
| `VmCode.Memory.CopyPage` | kernel/trap.c:103-117 | a marked page gets a private copy, without any visible change; it fails exactly without memory |
| `VmCode.Memory.Usertrap` | kernel/trap.c:71-123 | a fault is fatal exactly for a bad address, the stack guard range, an unmapped or kernel page, a page without the mark, or no memory; otherwise the page is private and writable |
| `VmCode.Memory.UserStore` | kernel/trap.c:71-123 | a user store changes exactly one byte of that process and clears the mark of that page, or the process is killed and nothing changed, with the exact condition for each and for lack of memory |
| `VmCode.Memory.UserLoad` | kernel/trap.c:71-123 | a user load returns the byte of the private view, and is killed exactly on an unreachable page |
| `VmCode.Memory.CopyoutPage` | kernel/vm.c:362-403 | one round of copyout resolves a marked page first and then changes only the target page; on a read-only page it overwrites the frame, whoever maps it |
| `VmCode.Memory.Copyout` | kernel/vm.c:356-405 | copyout writes the flat byte range in the private view and clears the marks of exactly its pages; after a fault exactly the bytes before the first unreachable page are written, and only a marked page makes it run out of memory |
| `VmCode.Memory.Copyin` | kernel/vm.c:410-430 | copyin returns the bytes of the private view, up to the first unreachable page |
| `EagerSpec.Isolation` | kernel/vm.c:299-338 | in private memory no operation changes a page or a mark of another process, except that fork creates the child's |
| `EagerSpec.ForkThenStore` | kernel/vm.c:299-338 | after fork both read the same bytes, and a later store of the child is seen by the child alone |
| `EagerSpec.ForkFreeUnmarked` | kernel/vm.c:320-326 | over every run, a process that takes part in no fork has no marked page |
| `EagerSpec.ForkFreeStores` | kernel/trap.c:71-117 | so its stores succeed exactly when private memory allows them, wherever the stack pointer stands and however little memory is left |
| `VmProcs.Machine.Userinit` | kernel/vm.c:210-222 | the first process has one page that holds its code, unless memory is smaller than that page and its tables |
| `VmProcs.Machine.ForkProc` | kernel/proc.c:391-411 | fork copies all pages at once in the private view and shares them underneath; it fails only if eager copies and tables would not fit into memory, and then only marks of the parent show the attempt |
| `VmProcs.Machine.ExitProc` | kernel/proc.c:312-318 | exit removes exactly the pages of the process |
| `VmProcs.Machine.SbrkProc` | kernel/proc.c:371-387 | growproc adds zeroed pages or removes exactly the pages above the new size; it fails only when growing and if eager copies and tables would not fit |
| `VmProcs.Machine.Step` | kernel/vm.c:225-430 | every operation reports what private memory allows and leaves what private memory prescribes: a store is killed if and only if it is forbidden, or its page is marked and its address near the stack pointer, and nothing fails for lack of memory while eager copies fit |
| `VmProcs.Machine.Run` | kernel/vm.c:225-430 | copy-on-write memory refines eager-copy memory over every run of fork, exit, sbrk, stores, loads, copyout and copyin, its failures included |
| `VmProcs.Machine.Grow` | kernel/exec.c:65 | growing for a segment that exec loads adds zeroed pages with its permissions, and fails only if all pages and tables would not fit into memory |
| `VmWitness.StackStoreKilled` | kernel/trap.c:73-77 | after the first fork a store to page 0 with the stack pointer at its end is killed, although private memory allows it and pages are free |
| `VmWitness.CopyoutReachesParent` | kernel/vm.c:362-403 | after a fork, copyout to a read-only page of the child changes a byte of the parent |
| `FsModel.SetWordAt` | kernel/fs.c:408-413 | storing a word of an indirect block changes that word and no other |
| `FsModel.WithBitAt` | kernel/fs.c:75-77 | setting or clearing a bit of a byte leaves the other bits |
| `FsModel.MarkAt` | kernel/fs.c:92-105 | marking a block changes its bit in the free map and no other, across bitmap blocks |
| `FsOps.AllocCore` | kernel/fs.c:65-88 | taking a free block keeps bitmap, ownership and all file maps consistent |
| `FsOps.AttachCore` | kernel/fs.c:389-413 | giving the block to a file keeps them consistent |
| `FsOps.AttachMap` | kernel/fs.c:389-413 | exactly one entry of one file map changes |
| `FsOps.DetachCore` | kernel/fs.c:432-448 | freeing a listed block keeps them consistent |
| `FsOps.DetachMap` | kernel/fs.c:432-448 | exactly one entry of one file map becomes empty |
| `FsOps.IupdateDisk` | kernel/fs.c:225-241 | iupdate stores the inode in its own slot of the inode block and changes no other inode on disk |
| `FsOps.KeptContent` | kernel/fs.c:471-539 | a file whose blocks are kept reads the same |
| `FsSteps.FirstBlockExists` | kernel/fs.c:506-523 | an unaligned write starts in a block that exists, because a file has no hole below its size |
| `FsSteps.BudgetStep` | kernel/fs.c:516-528 | one round of writei logs at most one data block, one bitmap block for it, and one more bitmap block when the indirect block is new |
| `FsSteps.ChunkBudget` | kernel/file.c:149-174 | a filewrite chunk logs at most MAXOPBLOCKS distinct blocks, for any offset and any number of bitmap blocks |
| `FsSteps.SpliceRead` | kernel/fs.c:471-539 | reading back a written range gives what was written, and the rest is as before |
| `FsSteps.TornWriteIff` | kernel/fs.c:520-525 | a copy that fails after some bytes leaves the file as it was if and only if those below its size are the bytes that were there |
| `FsCode.FileSystem.constructor` | mkfs/mkfs.c:243-245 | the starting state: metadata blocks marked, all others free, all inodes empty |
| `FsCode.FileSystem.FindClear` | kernel/fs.c:73-76 | the first clear bit of a bitmap block, within the disk |
| `FsCode.FileSystem.Balloc` | kernel/fs.c:65-88 | balloc takes the first free block, zeroed, logging its bitmap block and itself; it returns 0 exactly when all blocks are used |
| `FsCode.FileSystem.Bfree` | kernel/fs.c:91-105 | bfree clears one bit, and panics exactly when it is clear already |
| `FsCode.FileSystem.BmapDirect` | kernel/fs.c:388-396 | the direct half of bmap |
| `FsCode.FileSystem.BmapIndirect` | kernel/fs.c:400-406 | the indirect block is there or is allocated empty; no file block changes |
| `FsCode.FileSystem.BmapListed` | kernel/fs.c:407-417 | the listed half of bmap |
| `FsCode.FileSystem.Bmap` | kernel/fs.c:382-421 | bmap returns the file block, allocating only when there is none, keeps every block and byte of every file, and logs at most the stated blocks |
| `FsCode.FileSystem.FreeListed` | kernel/fs.c:442-445 | a listed block is freed while its entry stays behind in the indirect block |
| `FsCode.FileSystem.FreeBlocks` | kernel/fs.c:432-449 | all blocks of the inode, and no others, become free; the freeing-free-block panic is unreachable |
| `FsCode.FileSystem.Itrunc` | kernel/fs.c:425-453 | itrunc returns precisely one inode's blocks, empties the file, and leaves every other file |
| `FsCode.FileSystem.ReadChunk` | kernel/fs.c:482-495 | one round of readi delivers its slice of the file and allocates nothing |
| `FsCode.FileSystem.Readi` | kernel/fs.c:471-498 | readi returns exactly the requested bytes below the size, across the direct and indirect blocks, and changes nothing |
| `FsCode.FileSystem.WriteChunk` | kernel/fs.c:516-528 | one round of writei stores its bytes, or stops on a full disk or a failed copy without harm |
| `FsCode.FileSystem.Writei` | kernel/fs.c:505-539 | writei splices a prefix of the data of the returned length into the file, sets the size to the maximum, leaves every other file, keeps files without holes, and allocates only blocks of its range; the length is that of the whole chunks that can be read, or the disk is full and lacks the next block |
| `FsBudget.FullMeansShort` | kernel/fs.c:65-88 | if the disk is full and a block that was asked for is missing, there are fewer data blocks than the files need |
| `FsBudget.StoredStop` | kernel/fs.c:516-528 | where a write of partly readable data stops: the last block boundary, or its start, from which the data up to the next one cannot be read |
| `FsCode.FileSystem.WriteStep` | kernel/fs.c:505-539 | so writei comes short of that length only if the files do not fit the disk |
| `FsCode.FileSystem.Filewrite` | kernel/file.c:134-181 | filewrite splices the data chunk by chunk, each chunk within MAXOPBLOCKS logged blocks; it returns -1 for a negative count, a range outside the file or its largest size, or unreadable data, and otherwise only if the files do not fit the disk |
| `FsCode.FileSystem.Step` | kernel/fs.c:425-539 | every write, read and truncation reports and leaves what flat byte arrays on a disk of that size prescribe |
| `FsCode.FileSystem.Run` | kernel/fs.c:425-539 | the inodes refine flat byte arrays over every run of writes, reads and truncations |
| `FlatFiles.WriteThenRead` | kernel/fs.c:471-539 | on a disk with room a write stores all its data, and a read of that range returns exactly the bytes written |
| `SleepLock.NextInv` | kernel/sleeplock.c:21-41 | every step of acquiresleep, sleep, wakeup, releasesleep and kill keeps the invariant, for any number of processes |
| `SleepLock.MutualExclusion` | kernel/sleeplock.c:21-41 | in every interleaving at most one process holds the lock, and locked with pid says which |
| `SleepLock.NoLostWakeup` | kernel/proc.c:858-926 | a process asleep on the lock implies that it is held, or that a releaser's scan has yet to reach that process |
| `SleepLock.Progress` | kernel/proc.c:858-926 | while some process is in the middle of an operation, some such process can take its next step |
| `ParkMiller.Schrage` | kernel/proc.c:10-34 | the two-term form computes 16807 * x mod 2^31 - 1 without leaving 32 bits |
| `ParkMiller.NonZero` | kernel/proc.c:10-34 | the product from which do_rand subtracts one is never zero |
| `ParkMiller.Injective` | kernel/proc.c:10-34 | different states give different draws |
| `ParkMiller.RandOnto` | kernel/proc.c:10-34 | every value from 0 to 0x7ffffffd is returned from some state |
| `ParkMiller.Random.DoRand` | kernel/proc.c:10-34 | do_rand returns the next value, at most 0x7ffffffd |
| `Lottery.SomeoneWins` | kernel/proc.c:700-742 | every draw up to the ticket sum falls to some runnable process |
| `Lottery.OneWins` | kernel/proc.c:700-742 | no draw falls to two processes |
| `Lottery.ExactShare` | kernel/proc.c:700-742 | exactly p->tickets of the draws select p |
| `Lottery.CanDrawIff` | kernel/proc.c:707 | the draws that some generator state gives are exactly those from 1 to the size of totaltickets, but not above 0x7ffffffe |
| `Lottery.FairIffSumFits` | kernel/proc.c:706-721 | with sums that wrap, exactly p->tickets of the draws that can come up select p, for every runnable p, if and only if the ticket sum is below 2^31 - 1 |
| `Lottery.LastTicketStarves` | kernel/proc.c:706-721 | two processes with 0x7ffffffe tickets and one: the sum is an int, and the first one wins from every generator state |
| `Lottery.LargestHoldersStarve` | kernel/proc.c:706-721 | four runnable processes of which the two with the most tickets are selected by no draw |
| `Lottery.Table.Update` | kernel/proc.c:804-806 | a change of one table entry with its ledger update keeps totaltickets equal to the sum over runnable processes |
| `Lottery.Table.Allocproc` | kernel/proc.c:145-180 | the first unused entry is taken without tickets, and the ledger is left alone |
| `Lottery.Table.Userinit` | kernel/proc.c:361-364 | the first process brings one ticket |
| `Lottery.Table.Fork` | kernel/proc.c:447-451 | the child has as many tickets as the parent, and the ledger stays exact |
| `Lottery.Table.Yield` | kernel/proc.c:799-807 | yield returns the tickets to the ledger |
| `Lottery.Table.Sleep` | kernel/proc.c:858-889 | a process that goes to sleep leaves the ledger alone |
| `Lottery.Table.Exit` | kernel/proc.c:475-518 | so does one that exits |
| `Lottery.Table.Freeproc` | kernel/proc.c:227-275 | so does freeing its entry |
| `Lottery.Table.Wakeup` | kernel/proc.c:899-926 | everybody asleep on the channel, except the caller, becomes runnable, and the ledger stays exact |
| `Lottery.Table.Kill` | kernel/proc.c:932-960 | a killed sleeper becomes runnable, and the ledger stays exact |
| `Lottery.Table.Settickets` | kernel/sysproc.c:177-191 | the running process changes its tickets without touching the ledger; negative counts are refused |
| `Lottery.Table.Scan` | kernel/proc.c:708-737 | the scan stops at the first runnable process whose wrapped sum reaches the draw, and finds one for every draw up to totaltickets, whatever the sum |
| `Lottery.Table.Dispatch` | kernel/proc.c:700-742 | with a positive total there is always a winner, it is the process that the draw falls to while the sum fits an int, and the ledger stays exact |
| `Mlfq.AgingRun` | kernel/trap.c:288-301 | over any run in which a process waits, k ticks take it from queue q with wait w to queue max(0, q - (w + k) / MAX_WAIT_TIME) |
| `Mlfq.BecomesDue` | kernel/trap.c:288-301 | enough ticks bring a waiting process to queue 0 with its entry time in the past |
| `Mlfq.BoundedBypass` | kernel/proc.c:666-698 | from then on each other slot is dispatched at most once before it, plus once for every process that fork starts in that slot |
| `Mlfq.ForkKeepsTurnIff` | kernel/proc.c:442-445 | the process whose turn it is keeps it over a fork if and only if it is in queue 0 with entry time 0 and in an earlier slot than the child |
| `Mlfq.ForkStarves` | kernel/proc.c:442-445 | the bound is reached for every number of forks: a process that is due all the time waits for n + 1 turns of one other slot |
| `Mlfq.CrowdReached` | kernel/proc.c:442-445 | the state that this starts from is reached from the first process alone |
| `Mlfq.Table.ForkProc` | kernel/proc.c:391-445 | fork takes the first unused slot; it is the Fork step, which resets the parent's queue and entry time |
| `Mlfq.Table.Clockintr` | kernel/trap.c:282-307 | one tick ages every runnable process and charges every running one |
| `Mlfq.Table.Pick` | kernel/proc.c:671-687 | the scan ends with a best runnable process, the first among equals, or with none when none is runnable |
| `Mlfq.Table.Schedule` | kernel/proc.c:666-698 | the chosen process starts with its counters cleared |
| `Mlfq.Table.YieldProc` | kernel/proc.c:799-820 | yield moves a process that used up its slice one queue down and takes its entry time |
| `Mlfq.Table.Timer` | kernel/trap.c:156-170 | a running process is charged and gives up the CPU exactly when its slice is used up or a better queue has a runnable process: a Use step, and then a Yield step or nothing |
| `Mlfq.Table.Wakeup` | kernel/proc.c:899-926 | woken processes enter with the current tick: a run of Rouse steps |
| `Virtio.ChainsDisjoint` | kernel/virtio_disk.c:216-292 | chains in flight have three descriptors each and are pairwise disjoint |
| `Virtio.Partition` | kernel/virtio_disk.c:157-212 | a descriptor is taken exactly when it is in the chain of some request |
| `Virtio.RingPush` | kernel/virtio_disk.c:271-277 | publishing at the 16-bit index overwrites no entry that waits, also when the index wraps |
| `Virtio.RingPop` | kernel/virtio_disk.c:312-324 | the 16-bit indices differ exactly when entries wait, and the next one is found at the index |
| `Virtio.SubmitInv` | kernel/virtio_disk.c:216-281 | a new request keeps chains, rings and buffers consistent |
| `Virtio.CompleteInv` | kernel/virtio_disk.c:312-324 | so does a completion by the device, in any order |
| `Virtio.AckInv` | kernel/virtio_disk.c:312-324 | so does handling a completion, whose entry leads to the buffer that was submitted |
| `Virtio.FreeInv` | kernel/virtio_disk.c:288-289 | so does freeing a finished chain |
| `VirtioCode.VirtioDisk.AllocDesc` | kernel/virtio_disk.c:156-166 | the first free descriptor, or -1 when there is none |
| `VirtioCode.VirtioDisk.FreeDesc` | kernel/virtio_disk.c:169-182 | a descriptor is freed and blanked; the two panics are exactly a bad index and a free one |
| `VirtioCode.VirtioDisk.FreeChain` | kernel/virtio_disk.c:185-197 | exactly the three descriptors of the chain are freed |
| `VirtioCode.VirtioDisk.Alloc3` | kernel/virtio_disk.c:201-213 | three distinct free descriptors, or none taken when there are not three |
| `VirtioCode.VirtioDisk.Submit` | kernel/virtio_disk.c:215-281 | a request is published completely, or nothing changed and the caller has to wait |
| `VirtioCode.VirtioDisk.DeviceTake` | kernel/virtio_disk.c:271-281 | the device reads published requests in order |
| `VirtioCode.VirtioDisk.DeviceComplete` | kernel/virtio_disk.c:309-320 | the device reports any request that it has taken, with any status |
| `VirtioCode.VirtioDisk.Intr` | kernel/virtio_disk.c:294-327 | every reported request releases exactly the buffer that was submitted with it, up to the first with a status other than 0; it panics if and only if there is one |
| `VirtioCode.VirtioDisk.Finish` | kernel/virtio_disk.c:283-292 | the finished request gives its three descriptors back |
| `Pipe.FullEmpty` | kernel/pipe.c:87-113 | the wrapped counters still tell full from empty |
| `Pipe.PipeObj.Push` | kernel/pipe.c:95 | a byte goes to the end of the pipe, also when the counter wraps |
| `Pipe.PipeObj.Pop` | kernel/pipe.c:123 | the byte taken is the oldest one |
| `Pipe.PipeObj.WriteStretch` | kernel/pipe.c:76-102 | pipewrite appends its bytes in order, sleeps only when the pipe is full, and fails exactly when the reader is gone or the writer is killed |
| `Pipe.PipeObj.ReadStretch` | kernel/pipe.c:105-130 | piperead delivers the next bytes in order, sleeps exactly on an empty pipe with a writer, and loses a byte exactly when a copy fails |
| `Pipe.PipeObj.Run` | kernel/pipe.c:76-130 | over any interleaving the bytes read are the bytes written, in order, without the positions of failed copies and at most PIPESIZE behind; with successful copies they are a prefix |
| `Umalloc.InsertCore` | user/umalloc.c:33-43 | putting a block on the ring at its place keeps the ring in address order and the blocks tiled |
| `Umalloc.MergeCore` | user/umalloc.c:33-40 | joining two blocks that touch does so too |
| `Umalloc.SplitInv` | user/umalloc.c:78-82 | cutting the tail off a free block keeps everything, and leaves no two free blocks touching |
| `Umalloc.GrowInv` | user/umalloc.c:52-57 | so does memory obtained from sbrk |
| `Umalloc.ReturnedCoalesced` | user/umalloc.c:24-44 | after free no two free blocks touch |
| `Umalloc.OneBlock` | user/umalloc.c:25-90 | the units that headers claim are exactly those of the blocks, live or free, and no unit is in two blocks |
| `Umalloc.Allocator.FindPlace` | user/umalloc.c:30-32 | the search of free ends, at the list member after which the block belongs |
| `Umalloc.Allocator.FreeBlock` | user/umalloc.c:24-44 | free gives the block back, coalesced, and leaves every other live block |
| `Umalloc.Allocator.Morecore` | user/umalloc.c:46-60 | a block of at least the wanted size is on the list, or sbrk failed or the header write faulted and the heap is unchanged; the process has that memory exactly when its size in bytes is an int |
| `Umalloc.Allocator.Take` | user/umalloc.c:75-85 | the block found is handed out whole or its tail is |
| `Umalloc.Allocator.Malloc` | user/umalloc.c:63-90 | malloc returns a block that is disjoint from every live block and large enough, asks sbrk at most once and only when no free block fits, and its search ends; it fails only if sbrk refuses or the header write faults, and otherwise all blocks lie in memory of the process exactly when sbrk was not asked or was asked for an int |
| `Umalloc.SbrkExact` | user/umalloc.c:53 | the end of memory moves by the units asked for if and only if their bytes are below 2^31 |
| `Umalloc.FitsIntIff` | user/umalloc.c:69 | that is so exactly for requests below 0x7fffffe1 bytes |
| `Umalloc.FaultsIff` | user/umalloc.c:53-57 | writing the new header faults only if sbrk was asked for nothing or less; for nothing exactly when memory ends at a page boundary, and always when a page or more was given back |
| `Umalloc.HugeRequest` | user/umalloc.c:53 | a first request of 0xfffffff8 bytes gets a block inside which lies the address that the next sbrk returns |
| `Grep.Match` | user/grep.c:71-81 | match succeeds exactly when some substring, a prefix after ^, is a word of the pattern and reaches the end if the pattern ends in $ |
| `Grep.MatchHere` | user/grep.c:83-95 | matchhere succeeds exactly when some prefix is such a word |
| `Grep.MatchStar` | user/grep.c:97-105 | matchstar succeeds exactly when the rest matches after some number of fitting characters |
| `Grep.HereStar` | user/grep.c:83-105 | the language of a starred item, unfolded |
| `Grep.HereOne` | user/grep.c:83-95 | the language of a single item, unfolded |
| `ShellGrammar.TokenRoundTrip` | user/sh.c:345-447 | parsing the printed tokens of any tree of words, redirections, pipes, lists and background nodes consumes them and returns the tree |
| `ShellGrammar.LineRoundTrip` | user/sh.c:345-360 | the same in front of any text that ends a line |
| `ShellLex.LexRender` | user/sh.c:266-309 | reading back rendered tokens gives the tokens |
| `ShellLex.RoundTrip` | user/sh.c:328-447 | the parser inverts the canonical printer on character level |
| `ShellLex.AcceptedRoundTrip` | user/sh.c:328-447 | every line that is accepted yields a tree that can be printed, and parsing its printed form gives the same tree |
| `ShellCode.Parser.GetToken` | user/sh.c:266-309 | gettoken returns the next token with the span of a word, and moves on |
| `ShellCode.Parser.Peek` | user/sh.c:311-321 | peek tells whether the next token starts with one of the symbols, without consuming it |
| `ShellCode.Parser.Redirections` | user/sh.c:375-398 | parseredirs collects all redirections, and panics exactly when a file is missing |
| `ShellCode.Parser.Simple` | user/sh.c:425-447 | parseexec of a simple command follows the grammar, its panics included |
| `ShellCode.Parser.Block` | user/sh.c:400-414 | parseblock follows the grammar |
| `ShellCode.Parser.PipeCmd` | user/sh.c:362-373 | parsepipe follows the grammar |
| `ShellCode.Parser.Line` | user/sh.c:345-360 | parseline follows the grammar, and every parse ends |
| `ShellCode.Parser.Command` | user/sh.c:328-343 | parsecmd accepts exactly the lines that are one command with nothing left over |
| `ShellCode.EndsOutside` | user/sh.c:451-494 | the end of a word is never inside another word |
| `ShellCode.NulTerminate` | user/sh.c:450-494 | nulterminate writes a NUL at the end of every word and nowhere else |
| `ShellCode.ParseBuffer` | user/sh.c:328-343 | after parsecmd every word of the tree is a NUL-terminated string in the buffer, with the text it had |

## Left out

- Assembly, CSRs, TLB fences, the PLIC, the UART, boot code and virtio_disk_init: hardware.
- kernel/console.c: the ring arithmetic of the pipe again.
- kernel/exec.c, kernel/syscall.c and most of kernel/sysfile.c and kernel/sysproc.c: argument plumbing.
- Directories, link counts, ialloc, iget and iput: they would add bulk beside the block layer.
- Trampoline and trapframe mappings, the kernel page table, uvmclear and copyinstr: the user part of page tables is modelled, below the trapframe page.
- The FCFS, RR and PBS branches of scheduler: their selection claims are weaker than those of MLFQ and LBS.
- Unsynchronised updates of totaltickets and of the static ctickets: each update is one step.
- LogCode.BlockLayer.Commit: runs while no other process holds a buffer; readers that interleave with a commit are covered by the step machine of `LogModel`.
- LogCode.BlockLayer.EndOp: the same, when it is the last operation.
- LogCode.BlockLayer.WriteLog: the same.
- LogCode.BlockLayer.WriteHead: the same.
- LogCode.BlockLayer.InstallTrans: the same.
- LogCode.BlockLayer.Bread: called where bget neither panics nor waits; `LogCode.BlockLayer.Bget` has the panic.
- VirtioCode.VirtioDisk.Intr: the device does not report between two rounds of the loop; what it would report then stays for the next interrupt.
- FsCode.FileSystem.WriteChunk: a failed copy leaves the buffer as it was, as in Writei; `FsSteps.TornWriteIff` says what a partial one would change.
- VmProcs.Machine.SbrkProc: sizes above the trapframe page are left out, as in Step.
- VmCode.Memory.CopyoutPage: stops at a failed kalloc, where the code goes on with a null page.
- VmProcs.Machine.Step: sizes are assumed to stay below the trapframe page; physical memory runs out long before.
- VmCode.Memory.Copyout: does not say what happens after a failed kalloc, where the code goes on with a null page.
- VmCode.Memory.MapNew: one page at a time; the only caller with a longer range is kvmmap at boot.
- VmProcs.Machine.Userinit: says nothing of the state after memory ran out, because uvmfirst does not test for it.
- FsCode.FileSystem.Writei: a failed copy leaves the buffer as it was, although the code may have changed part of it, unlogged, until the buffer is recycled; `FsSteps.TornWriteIff` says when that shows.
- Mlfq.BoundedBypass: ticks are unbounded numbers.
- Pipe.PipeObj.Run: sleeping and waking are the ends and starts of stretches; which sleeper runs next is left open.
- The commands that the shell runs, printf, the small user programs and the test programs.
