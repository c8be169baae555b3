# xv6 in Dafny

This project models the parts of the xv6 kernel (with its MLFQ-style scheduler and `lseek`) whose
correctness is hard to see, and proves what they promise. Nothing here runs the kernel: the
methods follow the C functions statement by statement, and their contracts and the lemmas beside
them are what Dafny has proved. Every lemma switches automatic induction off, so each proof is the
body shown.

* `LogSpec`, `Log`, `Transaction`, `Interleaved`, `BufferCache`, `Reservation`, `Ide`, `Blocks`: the
  redo log, the buffer cache and the disk queue. The disk is a map from block numbers to 512-byte blocks, a
  commit is the sequence of single-block writes it makes, and a crash stops after any prefix of
  them. The log is proved on the real header encoding and through the cache with its LRU list, with
  other processes reading in between; `Transaction` runs whole operations through it, from
  `begin_op` to `end_op` and from recovery on, and `Interleaved` any number of them at once.
* `FsSpec`, `FileSys`, `Mkfs`, `Session`, `Format`, `FsOnLog`, `LogBounds`: block allocation, the direct and indirect block
  map, truncation, reads and writes against a plain byte sequence per file, open files and `lseek`,
  and the image `mkfs` makes. The invariant behind it all is "no holes": exactly the first
  ceil(size/512) blocks of a file are mapped. `Session` is about any sequence of operations from
  the finished image on; `Format` about the bytes of bitmap and inode blocks; `FsOnLog` about a
  crash while a write goes through the log; `LogBounds` about how much an operation logs.
* `Umalloc`: the user-level allocator, a circular address-ordered free list (*The C Programming
  Language*, 2nd edition, section 8.7).
* `VmSpec`, `Vm`: two-level page tables in physical memory, word by word (section 4.3 of volume 3A
  of the Intel 64 and IA-32 manual), and the frame allocator with its in-page links. A ghost map
  gives every frame one owner; page tables and owners agree both ways.
* `SleepWakeup`, `Sched`: sleep, wakeup and sleep locks, and the scheduler with the timer, as state
  machines over any number of processes, channels and CPUs.
* `Pipe`, `Grep`, `ShellSpec`, `Shell`: the pipe ring with 32-bit counters, the regular-expression
  matcher of *The Practice of Programming*, chapter 9, and the shell's parser.

Six promises turn out not to hold as one would expect; each has a counterexample and the exact
condition instead:

* `log_write` can panic although every operation keeps to MAXOPBLOCKS distinct blocks. The log
  `mkfs` makes has LOGSIZE blocks, one of them the header, and the guard runs before it is seen
  that a block is already logged; so the guard can fire when the log is full but nothing is added
  to it, and a bigger log on disk does not help. `Reservation.GuardExact`: for operations of at
  most `budget` distinct blocks and a log of `size` blocks the panic is unreachable if and only if
  `budget` is 0, or below MAXOPBLOCKS with 11 + 2 * `budget` below `size`; for the log `mkfs`
  makes, if and only if `budget` is below MAXOPBLOCKS. `FileSys.Fs.Writei` shows that a chunk of
  `filewrite` logs at most 10 blocks, and at most 8 on a disk with two bitmap blocks or fewer,
  such as the one `mkfs` makes.
* The same test runs before `log.lock` is taken, so two processes can both pass it with room for
  one block left. `Reservation.OverflowExact`: what is logged stays within the log if and only if
  `budget` is 0, or `size` is 1, or `budget` is at most MAXOPBLOCKS with 10 + 2 * `budget` below
  `size`; for the log `mkfs` makes, again, if and only if `budget` is below MAXOPBLOCKS.
* `itrunc` and `iput` log one bitmap block for every part of the bitmap the file's blocks are in.
  `LogBounds.TruncExact`: they keep to MAXOPBLOCKS on every consistent disk if and only if the bits
  of the data blocks lie in at most nine bitmap blocks.
* `grep` drops a partial line whenever a read brings no newline, and stops looking for newlines at
  a NUL byte. `Grep.GrepExact`: it prints exactly the matching lines, for every pattern, if and
  only if no read without a newline comes before one with a newline and no NUL comes before the
  last newline.
* `mkfs` rounds the root directory up even when it fills its last block. `Mkfs.RootRounded`: the
  image is consistent if and only if the root's size was not a multiple of the block size.
* The scheduler is not the round robin its comments speak of and never demotes.
  `Sched.SchedulerSafety`: no time slice count exceeds 1 and every priority is 0 in every reachable
  state. `Sched.Starves`: for every n there is a run in which one process stays RUNNABLE while n
  dispatches pass it over. `Sched.DispatchTakesFirstSlot`: a slot is dispatched if and only if it
  is RUNNABLE and no lower one is.

Panics and failures are return values (`ok` is false, or the result is `None`), and each operation
that has one says when it takes it: the buffers, the blocks of the disk or the frames of memory have
run out, counted in the state before the call wherever the caller can count them. Where a contract
says nothing about a panic's outcome, the machine has stopped. The disk image a process sees through the log is
`Cache.Contents()`; reads of other processes are interleaved at the points where `bread` can wait.

## Model

| member | source | states |
|---|---|---|
| LogSpec.HeaderRoundTrip | log.c:85-113 | the header block, a count and block numbers as little-endian words, reads back as the list that was written, whatever the block held |
| LogSpec.CommitCrash | log.c:69-122 | cut after any k of commit's writes, recovery yields the old home blocks up to the last log write and the new ones exactly from the header write on |
| LogSpec.RecoveryCrash | log.c:69-122 | recovery cut after any number of writes and run again ends with the same home blocks |
| LogSpec.RecoveriesCut | log.c:115-122 | any number of interrupted recoveries leave a recoverable disk with the same recovered home blocks |
| LogSpec.CleanAfterRecovery | log.c:115-122 | a completed recovery leaves an empty log |
| LogSpec.CommitContinuesAsRecovery | log.c:177-202 | past the header write, commit makes exactly the writes recovery would make |
| LogSpec.CommitCompletes | log.c:192-202 | a finished commit leaves an empty log and the transaction installed |
| LogSpec.PowerCutRecovers | log.c:192-202 | a power cut anywhere in a run of commits leaves exactly the transactions whose header write reached the disk, whole |
| LogSpec.AfterBootIs | log.c:115-122 | the same across one boot with interrupted recoveries |
| LogSpec.LifetimeAtomic | log.c:69-202 | over any number of boots, power cuts and interrupted recoveries the file system is what running the surviving transactions one after the other gives |
| Log.CopyBlock | log.c:69-82 | the copy both install_trans and write_log make: the target block gets the newest contents of the other, as one disk write; it gives up only when fewer than two buffers beside the pinned ones are free of other readers |
| Log.Logger.WriteLog | log.c:177-190 | the log blocks get the newest contents of the logged blocks, in order, and nothing else is written; every home block stays pinned; gives up only for want of buffers |
| Log.Logger.EncodeHead | log.c:101-113 | the header encoding is the list of logged blocks |
| Log.Logger.WriteHead | log.c:101-113 | the header write is the planned one, keeping the rest of the header block; every home block stays pinned; gives up only for want of buffers |
| Log.Logger.InstallTrans | log.c:69-82 | every logged block goes home with the contents its log block has, in order, and is unpinned; gives up only for want of buffers |
| Log.Logger.ReadHead | log.c:85-96 | the in-memory header is the list on disk; nothing is written; gives up only for want of buffers |
| Log.Logger.DecodeHead | log.c:85-96 | decoding inverts the header encoding |
| Log.Logger.Commit | log.c:192-202 | the disk trace of commit, complete or cut, is a prefix of the commit writes of the specification; complete, nothing is pinned; gives up only for want of buffers |
| Log.Logger.RecoverFromLog | log.c:115-122 | the disk ends as the specification's recovery, and cut short it is on the way there; afterwards the logging invariant holds; gives up only for want of buffers |
| Log.Logger.BeginOp | log.c:125-141 | an operation starts exactly when no commit is running and the reservation allows, and then the state follows the reservation protocol |
| Log.Logger.Test | log.c:216-221 | the test before log.lock is taken passes exactly when the reservation model's does |
| Log.Logger.LogBlock | log.c:223-233 | the rest of log_write, whatever others logged since the test: if the block is logged already or there is room, it is pinned and logged once, its buffer otherwise untouched |
| Log.Logger.LogWrite | log.c:213-233 | both in a row: the block the caller holds is pinned and logged once; the panic is taken exactly when the reservation model says so |
| Log.Logger.Append | log.c:213-233 | absorption: the list gains the block unless it has it, and has no duplicates |
| Log.Logger.EndOp | log.c:145-174 | the last operation commits: home blocks on disk equal their newest contents, and after every single write on the way a crash recovers to all old or all new; it panics only when fewer than two buffers beside the pinned ones are free of other readers |
| Log.Logger.CommitAll | log.c:192-202 | the same for the commit alone, on the traced disk writes; gives up only for want of buffers |
| Log.Logger.CacheStepKeepsValid | log.c:205-233 | other processes' cache steps keep the logging invariant: exactly the logged blocks are pinned and the log on disk is empty |
| Log.HomeWrites | log.c:192-202 | a commit writes a home block only if it is logged, and only with its newest contents |
| Log.CommitDurable | log.c:192-202 | after a commit every home block on disk equals its newest contents |
| Log.CutIsSafe | log.c:192-202 | every disk state on the way of a cut commit is crash safe |
| Transaction.UpdateBlock | log.c:205-233 | bread, a change, log_write and brelse: the newest contents of that block change, the disk does not, and the log has at most one block more; fails only for want of buffers |
| Transaction.RunTransaction | log.c:125-233 | a whole operation from begin_op to end_op: its blocks are on disk, no other home block changed, and after every single write on the way a crash recovers to all old or all new; it gets through as long as two buffers beside the pinned ones stay free of other readers |
| Transaction.BootAndRun | log.c:53-233 | recovery and then any transactions give the home blocks of running those transactions, without log or crash, on the recovered disk; again as long as two buffers beside the pinned ones stay free of other readers |
| Interleaved.Kernel.DoBegin | log.c:125-141 | the process enters an operation exactly when it is in none and the log has room for one more; nothing else changes |
| Interleaved.Kernel.DoGet | bio.c:61-93 | a reference to the buffer of the block, or to one not in use if there is none; a panic exactly when there is neither, whatever others have under way |
| Interleaved.Kernel.DoUnref | bio.c:128-141 | one reference less, exactly if the process has one and does not hold the lock |
| Interleaved.Kernel.DoStore | log.c:205-233 | a change by a process inside an operation that holds the buffer of that block, locked and filled, is one more store of its operation; exactly then is it made |
| Interleaved.Kernel.DoLog | log.c:213-233 | the block of a buffer the process owns is pinned and logged once, for its operation; a panic exactly when the log is full |
| Interleaved.Kernel.DoEnd | log.c:145-174 | a process in an operation that has released its buffers leaves it, and nobody else does; if it was the only one, everything stored becomes a commit point and every home block on disk has its newest contents, or other readers have all buffers but one beside the pinned; otherwise nothing changes |
| Interleaved.Kernel.LastEnd | log.c:145-202 | the commit makes the number of stores so far a commit point, and a crash after any of its writes recovers to the one before or to it; complete, the disk has them all |
| Interleaved.CommitSafe | log.c:192-202 | crash safety of one commit extends that of everything before it |
| Interleaved.Kernel.Run | log.c:125-233 | over any interleaving of begin_op, bget, locking, reading, changing, log_write, the halves of brelse and end_op by any number of processes: each step has its effect on the state exactly when its guard holds; the pinned blocks are the logged ones at every step; a crash after any disk write recovers to what the stores of whole operations, in the order made, leave; and when everyone who began has ended, every store is on disk |
| Interleaved.NobodyLeft | log.c:125-174 | over any run, processes come in by begin_op alone and end_op takes them out: if everyone who begins ends, nobody is left inside |
| Reservation.RunKeepsInv | log.c:125-174 | over every interleaving: no block is logged twice, committing implies nobody is outstanding, logged blocks plus unused reservations stay within the promise |
| Reservation.ReservationHolds | log.c:125-174 | with MAXOPBLOCKS per operation, logged blocks plus unused reservations never exceed LOGSIZE |
| Reservation.RacyIsPlain | log.c:213-233 | with the test and the append of log_write as two steps, other processes in between, the log goes through no state it could not go through with them as one |
| Reservation.FillsLog | log.c:125-233 | every number of blocks up to 10 + 2 * budget that the test lets in is logged in some run, with two operations outstanding |
| Reservation.GuardExact | log.c:213-233 | the panic in log_write is unreachable if and only if operations log nothing, or fewer than MAXOPBLOCKS distinct blocks each with twice that many and 11 short of the log's size |
| Reservation.OverflowExact | log.c:213-233 | with test and append apart, what is logged never exceeds the header or the log on disk if and only if operations log nothing, or nothing passes the test, or MAXOPBLOCKS blocks and two operations' worth more fit |
| BufferCache.MoveToFront | bio.c:120-141 | unlinking and relinking keeps the doubly linked list a permutation, with the buffer in front |
| BufferCache.Cache.constructor | bio.c:38-56 | binit: all NBUF buffers are on the list, nothing cached, the contents are the disk's |
| BufferCache.Cache.FindCached | bio.c:61-75 | finds the buffer that caches a block, or none does |
| BufferCache.Cache.FindVictim | bio.c:77-93 | finds the least recently used buffer that is unused and clean, or every buffer is in use |
| BufferCache.Cache.Bget | bio.c:61-93 | one buffer per block; a recycled buffer was unused and clean, so the newest contents of no block are lost |
| BufferCache.Cache.Bread | bio.c:96-106 | the caller gets, locked, the newest contents of the block, while others go on reading; the panic is taken exactly when every buffer is in use and none caches the block |
| BufferCache.Cache.AllInUse | bio.c:77-93 | a process with at most one buffer finds all in use only if other readers and pinned blocks take all but one |
| BufferCache.Cache.OthersRead | bio.c:96-106 | any number of steps of other readers change no contents, pin and unpin nothing, and leave the caller's buffers alone |
| BufferCache.Cache.Bwrite | bio.c:109-116 | the disk block becomes the buffer's data, by one write; nothing else changes |
| BufferCache.Cache.Unlock | bio.c:120-127 | the first half of brelse frees the lock and nothing else |
| BufferCache.Cache.Unref | bio.c:128-141 | the second half drops one reference and, if it was the last, moves the buffer to the front of the list |
| BufferCache.Cache.Brelse | bio.c:120-141 | with other readers stepping in between the two halves, the caller no longer holds the buffer, its other buffers and all contents are as before |
| BufferCache.Cache.Fill | memide.c:38-60 | reading an invalid buffer does not change the newest contents of any block |
| BufferCache.Cache.UnpinnedIsOnDisk | bio.c:61-93 | what is not pinned and not being changed equals the disk block |
| Ide.Disk.Submit | ide.c:137-168 | the request goes to the end of the linked queue and is started if it is the only one; nothing is transferred |
| Ide.Disk.Interrupt | ide.c:103-131 | an interrupt has, on disk and buffers, the effect of memide's iderw on the head of the queue, and starts the next; a dirty buffer is then on disk and unchanged, any other has the disk block, and nothing else moves |
| Ide.RunKeepsGood | ide.c:137-168 | over every run, queued buffers are distinct and still waiting |
| Ide.QueueRefinesMemide | memide.c:38-60 | every run of the queue is a run of the synchronous disk: each request is called once, in the order submitted; submitted is called plus queued |
| FsSpec.OwnedAdd | fs.c:372-400 | giving a free block to an empty slot keeps "a bit is set iff the block is metadata or referenced exactly once" |
| FsSpec.OwnedRemove | fs.c:407-435 | dropping all references of one inode with its bits keeps the same |
| FsSpec.ClearStep | fs.c:407-435 | the next block itrunc frees is still allocated, so "freeing free block" is unreachable |
| FsSpec.StartsWrite | fs.c:481-511 | storing inside one mapped block is a write on the flat byte sequence |
| FsSpec.OthersContent | fs.c:481-511 | a change confined to one file leaves the bytes of every other file |
| FileSys.Fs.Balloc | fs.c:56-78 | the first free block over all bitmap blocks, zeroed; it fails only if every block is taken, and takes exactly one |
| FileSys.Fs.Bfree | fs.c:81-95 | clears the bit, and panics exactly when it was clear |
| FileSys.Fs.Iupdate | fs.c:220-236 | the inode on disk becomes the one in memory |
| FileSys.Fs.Bmap | fs.c:372-400 | the address of a mapped block with nothing changed, or the next block mapped (with the indirect block if it is the first of those), zero, owned once, and nothing else moved; it takes one free block, two with a new indirect block, and fails only if there are fewer |
| FileSys.Fs.Readi | fs.c:452-476 | returns the bytes of the flat file in range, -1 on a bad offset, and allocates nothing |
| FileSys.Fs.Writei | fs.c:481-511 | a flat write; other files untouched; the inode on disk equals the one in memory although iupdate runs only when the size grows; every block changed is logged; three blocks' worth logs at most MAXOPBLOCKS blocks; it goes through exactly when as many blocks are free as the growth maps, indirect block included, so always inside the mapped blocks; it fails only with every block taken |
| FileSys.Fs.Itrunc | fs.c:407-435 | frees exactly the file's blocks and its indirect block, never a free one, leaves other files, and logs exactly the bitmap blocks of what it frees and the inode's block; that many blocks more are free |
| FileSys.Fs.Ialloc | fs.c:194-214 | the first free inode, cleared; consistency kept; fails only if none is free |
| FileSys.Fs.FreeInode | fs.c:331-352 | the freeing branch of iput: the inode is free and empty, its blocks are free, consistency kept; it logs what itrunc logs |
| FileSys.AtMostTen | file.c:117-156 | four data, one indirect, four bitmap and one inode block make ten; two bitmap blocks make eight |
| LogBounds.TruncExact | fs.c:407-435 | truncating or freeing any file of any consistent file system logs at most MAXOPBLOCKS blocks if and only if the data blocks have their bits in fewer than MAXOPBLOCKS bitmap blocks |
| FileSys.OpenFile.Read | file.c:96-113 | equals reading the flat file at the shared offset |
| FileSys.OpenFile.Write | file.c:117-156 | equals writing the flat file chunk by chunk, each chunk's transaction within the log bound; through exactly when enough blocks are free for the growth |
| FileSys.OpenFile.Lseek | sysfile.c:446-478 | equals setting the flat file's offset, in 32 bits, and rejects other whence values |
| FileSys.FileWriteMeaning | file.c:117-156 | past the end nothing is written; a write that fits is one flat write; otherwise the whole chunks that fit are written and the call fails |
| FileSys.ReadsAddUp | file.c:96-113 | reading n bytes and then m more is reading n + m at once |
| FileSys.ReadBack | sysfile.c:446-478 | what was written is read back after seeking to where it was written, from the start, the offset or the end |
| FileSys.SeekPastEndWritesNothing | sysfile.c:446-478 | after seeking past the end a write is refused and no hole appears |
| Mkfs.Image.constructor | mkfs.c:95-114 | the empty image is a consistent file system |
| Mkfs.Image.Ialloc | mkfs.c:223-235 | the next inode, cleared; all contents as before |
| Mkfs.Image.MapBlock | mkfs.c:262-280 | the file's block, taken from the first free one if it is the next to map; ownership and other files kept; full exactly when too few blocks are left |
| Mkfs.Image.Iappend | mkfs.c:255-297 | the file grows by exactly the bytes given, others are untouched, the image stays consistent; it goes through exactly when the file stays within its limit and the image has the blocks |
| Mkfs.Image.Balloc | mkfs.c:237-251 | the bitmap marks exactly the first `used` blocks, or the assertion that one bitmap block suffices fails |
| Mkfs.RootRounded | mkfs.c:158-163 | rounding the root up keeps the image consistent if and only if its size was not a multiple of the block size, and then adds only zeros |
| Mkfs.FullRootHasHole | mkfs.c:158-163 | a root of 32 entries gets a hole |
| Mkfs.Image.Finish | mkfs.c:158-168 | the finished image is a consistent file system under exactly that condition, with every other file's bytes intact |
| Session.DoRead | file.c:96-113 | an open file answers as a plain file at the shared offset; no file changes |
| Session.DoWrite | file.c:117-156 | an open file takes the bytes as a plain file does, all open files of the inode see them, no other file changes; if it panics, every block is taken and plain files would need more |
| Session.DoSeek | sysfile.c:446-478 | the offset is set as in a plain file |
| Session.DoCreate | sysfile.c:241-263 | the first free inode becomes an empty file with one link, opened; every other file as before |
| Session.DoPut | fs.c:331-352 | the inode is freed and emptied exactly when no link and no open file is left |
| Session.DoUnlink | sysfile.c:225-230 | one link less, and the inode freed exactly when that was the last and nobody has it open |
| Session.DoClose | file.c:56-78 | the open file is gone, and its inode freed exactly when no link and no other open file is left |
| Session.Run | file.c:56-156 | any sequence of opens, reads, writes, seeks, creations, unlinks and closes on a consistent file system is answered as plain byte sequences would answer, step by step, and leaves exactly their bytes in a consistent file system; it goes through exactly when plain files would never take more blocks than they have and are free, and free plus used blocks stay the same |
| Session.EnoughRoom | fs.c:56-78 | as many free blocks as the bytes of all writes reach, and an indirect block for each, are enough for any sequence of operations |
| Session.MkfsAndRun | mkfs.c:158-168 | the same from the image mkfs finishes on, whose files start as mkfs wrote them; through if mkfs left as many blocks as the operations can take |
| Format.StoredIs | fs.c:67-69 | setting or clearing one bit of a bitmap byte changes that bit of the whole bitmap and no other |
| Format.Bitmap.Balloc | fs.c:56-78 | balloc on the bytes of the bitmap blocks sets the first clear bit and no other |
| Format.Bitmap.Bfree | fs.c:81-95 | bfree on the bytes clears the bit and no other, and panics exactly when it was clear |
| Format.FirstBits | mkfs.c:237-251 | the bitmap block has exactly the first `used` bits set |
| Format.UnpackPacked | fs.h:30-37 | an inode whose fields fit comes back from its 64 bytes |
| Format.InodeBlocks.Iupdate | fs.c:220-236 | storing the fields one by one changes that inode and no other in its block or elsewhere |
| Format.InodeBlocks.Ialloc | fs.c:194-214 | on the bytes of the inode blocks, the first inode of type 0 becomes the cleared one of the new type |
| Format.BallocInStep | fs.c:56-78 | balloc on bits and on bytes takes the same block, the first free one, and leaves the same bitmap |
| Format.BfreeInStep | fs.c:81-95 | bfree on bits and on bytes panics alike, exactly on a free block, and clears the same bit |
| Format.IupdateInStep | fs.c:220-236 | iupdate on records and on bytes stores the same inode |
| Format.IallocInStep | fs.c:194-214 | ialloc on records and on bytes takes the same inode, the first free one, and clears it |
| FsOnLog.LoggedIsConfined | fs.c:481-511 | outside the blocks logged, the disk that held the old file system holds the new one |
| FsOnLog.EncodeIs | fs.h:28-52 | every bitmap, inode and data block has contents that hold what the state says |
| FsOnLog.Survives | log.c:69-202 | a disk that recovers to the home blocks before or after the transaction recovers to the old file system or to the new |
| FsOnLog.CommitState | log.c:145-202 | committing the logged blocks takes the disk from one file system to the next, and a crash after any single write recovers to one of the two; fails only for want of buffers |
| FsOnLog.FileChunk | file.c:117-156 | a chunk of filewrite, begin_op to end_op: a crash after any single disk write recovers to a consistent file system that holds the old bytes or the flat write, other files untouched; refused exactly as writei refuses, a panic only with every block taken or for want of buffers |
| Umalloc.JoinKeepsRing | umalloc.c:24-44 | inserting and coalescing on both sides keeps the ring ordered with one wrap, leaves no two adjacent free blocks, and frees exactly the new units |
| Umalloc.TakeTail | umalloc.c:63-90 | splitting off the tail keeps the ring and takes exactly those units from the free ones |
| Umalloc.Allocator.FindSlot | umalloc.c:30-32 | the search stops within one trip round the ring, at the slot the address belongs in |
| Umalloc.Allocator.Morecore | umalloc.c:46-61 | new memory joins the ring; afterwards some block is big enough, even if it merged with freep's |
| Umalloc.Allocator.Malloc | umalloc.c:63-90 | the tail of the first block after freep that is big enough; a block disjoint from every live one and from every free one; sbrk is called at most once, only when nothing fits, and only its failure makes malloc fail |
| Umalloc.Allocator.Free | umalloc.c:24-44 | the block leaves the live ones and its units join the free ones; free and live still partition the memory from sbrk |
| VmSpec.NeverShared | vm.c:35-80 | no frame is shared: two user pages in one frame are the same page, and it is no table or directory |
| VmSpec.InstallTable | vm.c:35-55 | a zeroed table in an empty entry changes no translation of any directory |
| VmSpec.InstallPage | vm.c:60-80 | mapping a page in hand keeps ownership exact |
| VmSpec.RemovePage | vm.c:255-279 | unmapping a page keeps ownership exact |
| VmSpec.NothingLost | vm.c:221-249 | if the pages worked on are absent before and after, frames moved only from the free list to page tables |
| Vm.Vm.Kalloc | kalloc.c:82-95 | pops the linked list of exactly the free frames; fails only if it is empty |
| Vm.Vm.Kfree | kalloc.c:59-77 | pushes the frame, junk-filled, on the linked list; panics exactly outside the managed frames |
| Vm.Vm.Freerange | kalloc.c:46-53 | exactly the whole pages between the two addresses become free |
| Vm.Vm.Walkpgdir | vm.c:35-55 | finds or makes the table; no translation changes; fails only if there is none and no frame for it, changing nothing |
| Vm.Vm.Mappages | vm.c:60-80 | exactly the pages of the range get their entries, no other translation changes; each missing table takes one free frame and nothing else does; it fails exactly when the free frames are fewer than the missing tables, none being left then |
| Vm.Vm.Deallocuvm | vm.c:255-279 | jumping over absent tables in 32-bit arithmetic terminates and comes to visiting every page: exactly the present pages of [newsz, oldsz) are freed and cleared |
| Vm.Vm.Allocuvm | vm.c:221-249 | success: every new page present, user-writable and zero in its own frame, nothing else changed; failure: all translations as before, no frame lost but to page tables; success exactly when there are free frames for the new pages and the tables they lack |
| Vm.Vm.Freevm | vm.c:283-298 | every user page, table and the directory go back to the free list, each once, and nothing else is touched |
| Vm.KmapShape | vm.c:105-115 | the rows of the kernel's table are disjoint, in order, above KERNBASE, and map what the layout says |
| Vm.Vm.Setupkvm | vm.c:118-136 | a new directory with the kernel's mappings and nothing else, or every frame back where it was; success exactly when 65 frames are free, a directory and 64 tables |
| Vm.Vm.Copyuvm | vm.c:315-345 | success: equal contents and flags in frames of its own, the parent and all others untouched; failure: every frame has its old owner; success exactly when there are free frames for a directory with the kernel's tables, the pages and a table for every 1024 of them |
| SleepWakeup.RunKeepsInv | proc.c:621-669 | the protocol invariant over every run of any number of processes, locks and channels, with locks shared between channels and ptable.lock among them |
| SleepWakeup.NoLostWakeup | proc.c:621-678 | nobody sleeps on a channel whose condition holds unless a process that set it still owes the wakeup; also for channels that share a lock, as a pipe's do, and for those under ptable.lock, as in wait and exit, where the wakeup may come before the condition is set |
| SleepWakeup.WakeupCanProceed | proc.c:661-669 | the owed wakeup is never stuck: its owner or the holder of ptable.lock can take a step |
| SleepWakeup.SleepLockExcludes | sleeplock.c:22-53 | at most one holder, and holdingsleep answers exactly whether I am it |
| SleepWakeup.SpinLocksExclude | proc.c:621-656 | the condition lock and ptable.lock each have at most one holder |
| SleepWakeup.Wakeup1 | proc.c:661-669 | a process changes exactly if it sleeps on that channel, and then only to runnable, with its lock and channel |
| SleepWakeup.WakeupIs | proc.c:661-678 | the wakeup step of the protocol rouses exactly the sleepers on its channel and leaves conditions and locks alone |
| SleepWakeup.SleeperStep | proc.c:661-703 | a step changes a sleeper exactly if it is a wakeup on its channel or a kill of it |
| SleepWakeup.OnlyWakeupsWake | proc.c:661-703 | over any run a process asleep on a channel stays asleep, unchanged, unless a step is a wakeup on that channel or kills it |
| Sched.Ptable.Boost | proc.c:548-560 | every used slot goes to priority 0 with no slices used, unused slots are left |
| Sched.Ptable.Find | proc.c:505-542 | the RUNNABLE process of least priority number, the lowest slot among equals, or there is none |
| Sched.Ptable.Pass | proc.c:482-546 | one turn of the loop is the dispatch step: the tick counted, all boosted when it is time, and the best RUNNABLE process, if any, on the CPU with a fresh slice |
| Sched.Ptable.Yield | proc.c:589-596 | the process becomes RUNNABLE and leaves its CPU |
| Sched.Ptable.TimerTick | trap.c:59-82 | one slice more; the last one moves the process down a level and off the CPU |
| Sched.Ptable.TrapEnd | trap.c:128-132 | the yield at the end of a timer trap: RUNNABLE and off the CPU |
| Sched.StepKeepsCpus | proc.c:482-596 | every step keeps "RUNNING iff exactly one CPU points to it" |
| Sched.WhoRuns | proc.c:482-669 | a process starts running exactly when a turn of the loop chooses it, wakes exactly by a wakeup, and stops exactly by the yield that ends a timer trap, sleep or exit |
| Sched.RunKeepsInv | proc.c:482-560 | the invariant in every state of every run |
| Sched.SchedulerSafety | proc.c:482-560 | in every run of any number of CPUs: RUNNING iff exactly one CPU points to it, global_ticks below the interval, at most one slice, priority 0 |
| Sched.DispatchTakesFirstSlot | proc.c:505-542 | in every run a turn of the loop dispatches a slot if and only if it is RUNNABLE and no lower one is, and none if and only if none is RUNNABLE |
| Sched.Starves | proc.c:482-546 | for every n a run of one CPU and two processes in which slot 1 is RUNNABLE throughout and n dispatches all take slot 0 |
| Pipe.Fifo | pipe.c:78-121 | in every run of the ring with its two counters, whatever the order of reads, writes and closes, the bytes given out are the first of those taken in, at most PIPESIZE are on the way, and the ring holds exactly those |
| Pipe.PourKeeps | pipe.c:78-98 | the write loop takes as many bytes as there is room for, in order |
| Pipe.DrainKeeps | pipe.c:100-121 | the read loop gives out the oldest bytes, in order, up to the number asked for |
| Pipe.CountersTell | pipe.c:78-121 | across 32-bit wraparound the counters tell empty and full exactly |
| Pipe.SlotOfCounter | pipe.c:95-116 | wraparound does not disturb the slots |
| Pipe.PipeRing.WriteStep | pipe.c:78-98 | the loop on the array is the one of the ring model; it returns, fails or sleeps exactly when the source does |
| Pipe.PipeRing.ReadStep | pipe.c:100-121 | the loop on the array is the one of the ring model; an empty result for a nonzero request means drained and write end closed |
| Pipe.PipeRing.Close | pipe.c:59-75 | closes one end and keeps the bytes; the pipe is freed exactly when both are closed |
| Grep.DenotesCons | grep.c:85-96 | the language of an item and the rest is the pieces put together |
| Grep.MatchHere | grep.c:85-96 | true iff a prefix of the text is in the language of the pattern |
| Grep.MatchStar | grep.c:99-106 | true iff some run of the character followed by a match of the rest |
| Grep.Match | grep.c:72-82 | true iff some substring is in the language, at the start after ^ and at the end before $ |
| Grep.Grep | grep.c:10-36 | what the loop prints for any sequence of reads, newlines being looked for only up to a NUL |
| Grep.PrintsAllLines | grep.c:10-36 | without a gap and without a NUL before the last newline, exactly the matching lines of the whole input, in order |
| Grep.GapsLose | grep.c:10-36 | with a gap or such a NUL even the empty pattern, which matches every line, prints less than all lines |
| Grep.NulLosesLine | grep.c:20-30 | a line with a NUL, read whole, is not printed even for the empty pattern, which matches it |
| Grep.GrepExact | grep.c:10-36 | grep prints exactly the matching lines for every pattern if and only if no read without a newline comes before one with a newline and no NUL comes before the last newline |
| ShellSpec.LineBack | sh.c:384-399 | the grammar reads a printed line back, whatever closing parenthesis follows |
| ShellSpec.ExecBack | sh.c:455-486 | the same for commands with redirections in any number and blocks |
| ShellSpec.LexShown | sh.c:305-348 | the lexer reads shown tokens back |
| ShellSpec.ParsePrint | sh.c:367-382 | parsing undoes printing, for every tree with legal words and at most nine arguments to a command |
| ShellSpec.AppendIsTruncate | sh.c:414-437 | no command line can append: two lines that differ only in >> for > parse to the same command, or both fail |
| Shell.Parser.Peek | sh.c:350-360 | skips blanks and tells whether the next token starts so |
| Shell.Parser.Gettoken | sh.c:305-348 | takes one token off the input, with its extent, or reports the end |
| Shell.Parser.Parseredirs | sh.c:414-437 | agrees with the grammar on tokens, failure included |
| Shell.Parser.Parseexec | sh.c:455-486 | agrees with the grammar, too many arguments included |
| Shell.Parser.Parseblock | sh.c:439-453 | agrees with the grammar, a missing parenthesis included |
| Shell.Parser.Parsepipe | sh.c:401-412 | agrees with the grammar |
| Shell.Parser.Parseline | sh.c:384-399 | agrees with the grammar |
| Shell.Nulterminate | sh.c:489-533 | a NUL goes where each word ends and nowhere else |
| Shell.EndsOutside | sh.c:489-533 | no word ends inside a word |
| Shell.Parsecmd | sh.c:367-382 | succeeds exactly on the lines of the grammar with the command they stand for, and leaves each word in the buffer as a C string, no byte of it changed |

## Left out

- Port I/O, APIC, UART, console, keyboard and boot code: hardware effects. The disk is atomic single-block reads and writes without errors.
- Spinlock internals: acquire and release are atomic steps.
- clone and join: they share page directories, and wait also frees a shared one, so frames there have no single owner.
- Directories and path names (dirlookup, dirlink, namex): a session opens, creates and unlinks inodes by number.
- Device inodes in readi and writei, the inode cache (iget, ilock) and file table reference counts.
- exec, system call argument handling, inituvm, loaduvm, clearpteu, uva2ka and copyout: plumbing over what is modelled.
- Liveness: that a sleeping process is scheduled, that a killed pipe writer's reader wakes.
- User programs other than sh and grep, and the shell's command execution and history.
- Umalloc.Allocator.Malloc: does not model 32-bit overflow of huge requests, because units are unbounded numbers.
- Vm.Vm.Deallocuvm: sizes up to KERNBASE only, because above it the loop would reach the kernel's pages; all callers stay below.
- Vm.Vm.Mappages: one user page or any range of kernel pages per call, because those are the only calls the kernel makes.
- Mkfs.Image.Ialloc: needs a free inode, because mkfs has no check and would write past the inode blocks.
- BufferCache.Cache.Bread: while it waits, other processes read, lock and release buffers but change none; Interleaved.Kernel.Run takes its steps apart and lets others change and log blocks in between.
- BufferCache.Cache.Brelse: others only read between its two halves; Interleaved.Kernel.Run lets them do anything.
- Log.Logger.LogWrite: nothing is logged between the test and the rest; Log.Logger.Test and Log.Logger.LogBlock are the two, and Reservation.OverflowExact says when what comes between does no harm.
- FileSys.Fs.Balloc: works on the bits of the bitmap; Format.Bitmap.Balloc is the same loop on its bytes and Format.BallocInStep relates the two.
- FileSys.Fs.Bfree: works on the bits of the bitmap; Format.Bitmap.Bfree works on its bytes and Format.BfreeInStep relates the two.
- FileSys.Fs.Iupdate: works on inode records; Format.InodeBlocks.Iupdate works on their bytes and Format.IupdateInStep relates the two.
- FileSys.Fs.Bmap: a mapped block or the next one to map, because readi and writei, its only callers, refuse offsets past the size and so never ask beyond it.
- Vm.Vm.Copyuvm: the parent's pages below sz are present, because the source panics otherwise and every process has them.
- Transaction.UpdateBlock: one operation at a time on the log; Interleaved.Kernel.Run is about any number at once.
- Transaction.RunTransaction: likewise.
- Transaction.BootAndRun: likewise.
- FsOnLog.FileChunk: alone on the log, because two file-system operations share inodes and bitmap only through buffer locks, which Interleaved.Kernel.Run covers block by block.
- Session.DoCreate: without directory entries and device numbers, because names are not modelled.
- Session.Run: every inode is a plain file, because devices are not modelled.
