# Verified models of an xv6 kernel

This project models nine parts of the x86 teaching kernel xv6, in the variant with a lottery scheduler and a
memory disk, and proves what each of them is for. The files are plain Dafny 4.11; `dafny verify dfyconfig.toml`
checks all of them.

| part | files |
|---|---|
| write-ahead log over the buffer cache over the disk | `Blocks`, `CrashRecovery`, `CrashRuns`, `BufferCache`, `Log`, `LogRuns`, `Reservation` |
| block allocator, inode contents, transactions of one write | `Ownership`, `Space`, `FileWrites`, `Inodes`, `FileRuns`, `Mkfs` |
| directories, link counts, and what directories cost | `LinkCounts`, `Rooms`, `Directories`, `Compactness`, `LinkRuns`, `DirRuns`, `Removed`, `Filled` |
| user heap | `UserHeap`, `Umalloc`, `HeapRuns` |
| sleep and wakeup, pipes, sleeping locks | `Ring`, `SleepWakeup`, `SleepLocks` |
| page tables over the page allocator, address spaces | `Paging`, `Vm`, `VmRuns` |
| lottery draw | `Lottery` |
| shell parser | `ShellGrammar`, `ShellParse`, `Shell` |
| pattern matcher of grep | `Grep` |

`Prelude` holds a few shared types.

Each part follows the same plan. The state that the C code updates in place is a class, or a process-by-process
state machine where several processes take part; its methods are the C functions, with their loops. What a method
does is stated in terms of a value (a volume, a heap, a token list, a set of page tables), and the promises are
proved about that value.

**Crash safety.** `CrashRuns` lets the machine stop between any two block writes of a commit or of a recovery, any
number of times. The reference is a store whose transactions take effect at one instant, the write of the non-empty
log header. `Log` and `BufferCache` are the code. A commit is taken write by write and waits where a reader holds the
block that it has come to. `LogRuns.Run` is any sequence of moves of any number of processes, in operations or only
reading, and of the committer beside them: every block that a process gets has what was last put there, the disk
writes are those of a run of `CrashRuns`, and what a commit needs of the cache follows from where the processes are.

**Files.** `Ownership` says who owns which block, and `Space` what a range of bytes costs: every slot that the range
wants and the inode lacks is one block, paid for once. `FileRuns.Run` carries out any sequence of reads, writes and
truncations and is proved against a list of byte sequences with a count of free blocks: it gives the replies of that
reference and stops exactly where the reference runs out of blocks, or where a read outside an operation meets a hole.
`readi` is called inside an operation for directories and by `exec`, and outside of one for `read`; `writei` and
`itrunc` are always called inside. Every block that an operation changes is among those it logs, so that a commit
cannot miss one. In a file that has no holes each transaction of `filewrite` logs at
most ten blocks, whatever the offset and however the new blocks are spread over the bitmap.

**Link counts.** A link that is counted before its entry is made, or after it is gone, is pending; the invariant of
`LinkCounts` is that nlink covers the names, the ".." entries that lead back, and the pending links. `LinkRuns` gives
every process its own place in its call, its own references and its own pending links, and lets the steps of all
processes interleave. A step is guarded by the tests and the locks of the code only; that a call still has what it
counted on when it reaches `dirlink` follows from the invariant.

**Directories as files.** An entry is sixteen bytes, so a directory holds 4480 entries at most, and reading or writing
one may take blocks. `Rooms` counts them, every method of `Directories` says what it takes and when it stops for want
of a block, and `DirRuns` adds blocks to the runs of `LinkRuns`: no block is lost and no directory gets a hole, so that
link and create stop exactly when no entry is vacant and the directory is at its largest size or lacks a block.

**The heap.** `HeapRuns.Run` is any client that stays inside its own blocks: whatever is allocated and freed in
between, every unit reads back what was last written to it.

**Address spaces.** `VmRuns.Run` lets processes come, grow and shrink, fork, write and read their pages and go, over
one page allocator. The reference gives every process pages of its own; the code gives the same answers, refuses a
call exactly when there are too few free pages for it, and never loses a page.

**Promises that the code does not keep as they stand**, with the exact condition:

- The log reserves room for every open operation, but `log_write` tests the size of the log area one block too
  early. `Reservation.ReservationSufficient`: no operation within its budget is refused if and only if the area has
  more than LOGSIZE blocks. `mkfs` makes it exactly LOGSIZE. `Reservation.AbsorptionRefused`: when the list is full, a
  block that is already in it is refused as well.
- A larger log area is no way out, because the listed blocks stay in the cache until the commit and the cache has no
  more than LOGSIZE buffers. `Log.Log.Commit`: a commit panics if and only if no buffer can be recycled, which with no
  reader about means that the list is as long as the cache (`Log.FullListPanics`). `Log.NoSizeServesBoth`: some run
  fills the list to the size of the cache if and only if the area has more than LOGSIZE blocks, so the two conditions
  exclude each other.
- The inode on disk is said to follow the one in memory. `Inodes.FileSys.Writei`: it does if and only if the file
  grew or no entry of addrs had to be filled, which is always so for a file without holes; `Inodes.FileSys.Readi` has
  the same condition for reading. `Mkfs.RoundingHole`: the root directory that mkfs leaves has a hole if and only if its
  entries filled whole blocks; `Mkfs.WriteLeavesInodeBehind` and `Mkfs.ReadLeavesInodeBehind` are that case.
- Reading is said to need no transaction. `FileRuns.OutsideRead`: outside an operation a read is carried out if and
  only if every slot that it wants is filled, and then it changes nothing; at a hole bmap calls log_write, which
  panics. `Mkfs.ReadStopsKernel` is a read of the root directory that mkfs leaves.
- A name that is found leads to an inode in use, except for the ".." of a directory whose parent is gone.
  `Directories.Dirs.Existing`: create panics there if and only if the name is ".." and leads to a free inode.
  `Removed.RemovedParent` is a run to that case.
- `dirlink` is said to fail only for a name that is there. `Directories.Dirs.Dirlink`: it panics if and only if the
  entry has no place. `Directories.CompactLinkStops`: in a directory without holes that is, no entry is vacant and there
  are 4480 of them or the next one lacks a block. `Directories.FullDirectory` is the full directory, and
  `Filled.FillRoot` a run that fills the root of mkfs by link.
- A process is said to have exactly the pages below its size. `VmRuns.Growproc`: after sbrk it has, if and only if it
  did not shrink to nothing; then deallocuvm returns the size 0, which growproc takes for a failure and leaves the size
  as it was. `VmRuns.BackToNothing` is sbrk of one page and back.

## Model

| member | source | states |
|---|---|---|
| CrashRecovery.HeaderRoundTrip | src/log.c:84-112 | What write_head puts into the header block is what read_head gets out of it, for every list that fits |
| CrashRecovery.EmptyRecovers | src/log.c:115-122 | Recovery of a disk with an empty log changes no home block |
| CrashRecovery.CommittedRecovers | src/log.c:68-82 | Recovery of a disk with a committed log gives the old home blocks overlaid with the logged ones, even when some of them are installed already |
| CrashRecovery.CrashBeforeHeader | src/log.c:177-202 | A crash after any number of log blocks but before the header write loses the whole transaction and nothing else |
| CrashRecovery.CrashAfterHeader | src/log.c:192-202 | A crash at any point from the header write on keeps the whole transaction |
| CrashRecovery.AfterCommit | src/log.c:192-202 | A commit that runs to its end leaves the transaction installed and an empty log |
| CrashRecovery.CrashInRecovery | src/log.c:115-122 | Cutting recovery short after any of its writes and recovering again gives what the first recovery would have given |
| CrashRecovery.RecoveredIsEmpty | src/log.c:115-122 | After recovery the log is empty |
| CrashRuns.InvKept | src/log.c:177-202 | Every step of every process, of commit, of a crash and of recovery keeps the disk equal to a prefix of the writes in progress |
| CrashRuns.AlwaysRecoverable | src/log.c:115-122 | In every state that can be reached the disk can be recovered |
| CrashRuns.RecoverableStep | src/log.c:177-202 | No single block write, of commit or of recovery, leaves a disk that cannot be recovered |
| CrashRuns.DurableStep | src/log.c:192-202 | What a crash would leave changes in one step only, the non-empty header write, and then to the whole open transaction |
| CrashRuns.CrashAtomicity | src/log.c:68-122 | Over every run with any number of crashes, also inside recovery, the recovered home blocks are those of the reference store |
| CrashRuns.RestartReadsReference | src/log.c:115-122 | After a restart the processes read exactly the reference store |
| CrashRuns.RunsExtend | src/log.c:192-202 | A run can go on with exactly the events that are enabled where it stands |
| BufferCache.UnlinkKeepsRing | src/bio.c:131-132 | Unlinking a buffer leaves next and prev two directions of one ring over the others |
| BufferCache.PushFrontKeepsRing | src/bio.c:133-136 | Linking it in behind the head gives the ring with the buffer in front |
| BufferCache.WithoutListed | src/bio.c:119-141 | Taking a buffer out and putting it in front leaves a permutation of all buffers |
| BufferCache.CleanOnDisk | src/bio.c:61-92 | A block that is neither pinned nor locked in a buffer is on disk as last released |
| BufferCache.RecycleSound | src/bio.c:78-92 | Recycling a buffer that is neither referenced nor dirty loses nothing and leaves no two buffers for one block |
| BufferCache.SpareBuffer | src/bio.c:78-92 | With fewer pinned blocks than buffers and an idle cache there is a buffer to recycle |
| BufferCache.SpareIff | src/bio.c:78-92 | In an idle cache a buffer can be recycled exactly if there are fewer pinned blocks than buffers |
| BufferCache.WrittenMore | src/memide.c:35-60 | The disk is always the image the cache was started on with the issued writes applied in order |
| BufferCache.FindCached | src/bio.c:68-76 | The walk from the head finds the one buffer of a block, or comes back to the head when there is none |
| BufferCache.FindVictim | src/bio.c:81-92 | The walk from the tail finds the least recently used buffer that can be recycled, if there is one |
| BufferCache.Bcache.constructor | src/bio.c:38-56 | All buffers start in the ring, unused, and the view is the disk |
| BufferCache.Bcache.Bget | src/bio.c:61-92 | A cached block gains a reference; otherwise the least recently used spare buffer is given to it; the panic comes exactly if there is none |
| BufferCache.Bcache.Lock | src/bio.c:73 | The buffer is locked; view, disk and ring stay |
| BufferCache.Bcache.Iderw | src/memide.c:35-60 | A dirty buffer goes to disk and is clean, an invalid one is filled from disk |
| BufferCache.Bcache.Bread | src/bio.c:95-105 | It returns the buffer with the last content released for the block, or sleeps exactly if another process has it locked, or panics exactly if there is no buffer; no other observer sees a change |
| BufferCache.Bcache.LockAndFill | src/bio.c:95-105 | A buffer found by bget is locked and holds the current content of its block |
| BufferCache.Bcache.Store | src/log.c:207-211 | Changing a held buffer changes the view of that block and no other |
| BufferCache.Bcache.Pin | src/log.c:231 | A pinned buffer cannot be recycled |
| BufferCache.Bcache.Bwrite | src/bio.c:108-115 | Exactly one block write is issued, and the block is no longer pinned |
| BufferCache.Bcache.Brelse | src/bio.c:118-141 | The reference goes; with the last one the buffer moves to the front of the order; the cache stays sound exactly if a changed buffer was listed or written before |
| BufferCache.Bcache.MoveToFront | src/bio.c:129-137 | The six pointer updates move the buffer to the front of the ring and keep the rest in order |
| Log.EncodeHeader | src/log.c:101-109 | The loop writes n and the block numbers into the header block and leaves its other bytes |
| Log.DecodeHeader | src/log.c:85-94 | The loop reads back exactly the listed blocks |
| Log.Log.constructor | src/log.c:53-67 | The log starts with an empty list and no operation |
| Log.Log.Absorb | src/log.c:224-230 | A block enters the list once, at the end |
| Log.Log.LogWrite | src/log.c:213-233 | It panics exactly when the list or the area is full or no operation is open; otherwise the block is listed once and pinned |
| Log.Log.WriteHead | src/log.c:100-112 | One write is issued: the header with the current list; beside any readers, and failing exactly if no buffer can be had |
| Log.Log.ReadHead | src/log.c:84-96 | The list becomes the one in the header on disk |
| Log.Log.InstallTrans | src/log.c:68-82 | In a recovery the logged blocks go to their homes in order, and nothing is pinned |
| Log.Log.RecoverFromLog | src/log.c:114-122 | Exactly the recovery writes are issued, and cache and disk show the recovered disk |
| Log.Log.StartCommit | src/log.c:192-195 | None of its writes has been issued, and the disk differs from the view in listed blocks only |
| Log.Log.WriteLogBlock | src/log.c:182-189 | The next write of the commit is issued: the current contents of a listed block to its log block; or it waits for a reader of that block, or there is no buffer, and nothing is written |
| Log.Log.MarkCommitted | src/log.c:197 | The next write of the commit is issued: the header with the list |
| Log.Log.InstallBlock | src/log.c:74-81 | The next write of the commit is issued: a logged block to its home, which is no longer pinned; or it waits for a reader of that block, or there is no buffer |
| Log.Log.ClearHead | src/log.c:199-200 | The last write of the commit is issued; then the log is empty, disk and view agree, and no home block of the view has changed |
| Log.Log.Step | src/log.c:192-202 | One write further, in the order of the commit writes |
| Log.Log.Commit | src/log.c:192-202 | Begun or taken up again, it issues the rest of exactly the commit writes; the view of the processes does not change and the disk catches up with it; it waits only for a reader of the block it has come to, and panics, before it issues a write, exactly if no buffer can be recycled |
| Log.Log.BeginOp | src/log.c:124-141 | An operation is let in exactly when the reservation for it fits |
| Log.Log.Leave | src/log.c:146-163 | An operation less; a commit begins exactly if it was the last one and something is listed |
| Log.Log.CommitStep | src/log.c:165-173 | One write further; after the last one operations are let in again |
| Log.Log.EndOp | src/log.c:143-174 | The last operation commits for all, the others change nothing; it stops exactly if its commit finds no buffer, and waits only for a reader in its way |
| Log.CommittedView | src/log.c:192-202 | The commit writes, applied to what the processes see, change no home block of it |
| Log.CommitSource | src/log.c:177-202 | Each write of a commit is found where the code looks for it: in the cached home block, in the log block, in the header on disk |
| Log.CopyBlock | src/log.c:72-81 | One block is copied into or out of the log and written; every other user of the cache keeps its buffers; it waits exactly if somebody holds the home block, and the panic of bread comes exactly if no buffer can be had |
| Log.FullListPanics | src/bio.c:78-92 | With no reader about, a commit has a buffer exactly if the list is shorter than the cache |
| Log.SmallAreaFits | src/param.h:11-13 | A log area no larger than the cache keeps the list shorter than the cache |
| Log.NoSizeServesBoth | src/param.h:11-13 | Whatever the size of the area, some run refuses a block within the budget or fills the list to the size of the cache, the latter exactly if the area has more than LOGSIZE blocks |
| Log.ListWithinArea | src/log.c:218-219 | Over every run the list is shorter than the log area |
| Log.OpenTransaction | src/log.c:192-202 | The state of log and cache between two calls, also beside readers, is a state of the crash runs with an open transaction |
| LogRuns.UpdateUsed | src/bio.c:60-141 | When one process gains, takes, changes or gives back one block, reference counts, locks and the buffers of all others stay right |
| LogRuns.CommitUsed | src/log.c:192-202 | A step of the commit leaves reference counts, locks and buffers of all processes right |
| LogRuns.ReadBlock | src/bio.c:96-106 | bread gives the process the block with what was last put there, or lets it wait exactly if another process holds the block; it panics exactly if the block is not cached and no buffer can be recycled |
| LogRuns.WakeUser | src/bio.c:73-74 | A sleeper gets the block, with what was last put there, exactly when nobody holds it |
| LogRuns.ReleaseBlock | src/bio.c:121-141 | The block is given back, and everybody else keeps what they have |
| LogRuns.UnderwayClean | src/log.c:192-202 | At every point of a commit the disk has what the processes see, except for listed blocks that are not yet at home |
| LogRuns.HomeKept | src/log.c:192-202 | At every point of a commit the processes see of home blocks what they saw when it began |
| LogRuns.CalmNow | src/log.c:146-174 | When no operation is open, or the last one has recorded its changes, every clean buffer agrees with the disk and nobody has a log block, whoever is reading |
| LogRuns.WayBlocked | src/log.c:75-76 | The commit has to wait exactly if a process holds the home block that it has come to |
| LogRuns.DoChange | src/log.c:205-212 | A change inside an operation is seen by whoever gets the block next |
| LogRuns.DoRecord | src/log.c:213-233 | log_write makes the change part of the open transaction; it panics exactly if the list or the area is full |
| LogRuns.DoEnd | src/log.c:146-174 | The last end_op begins a commit with exactly the recorded changes |
| LogRuns.DoCommit | src/log.c:192-202 | A step of the commit is one disk write of the crash run, a wait for a reader, or the panic exactly if no buffer can be recycled |
| LogRuns.Do | src/log.c:124-233 | Every move of every process does what the reference does, and panics exactly where no buffer can be recycled or the list or the area is full |
| LogRuns.TraceRuns | src/log.c:124-233 | The worlds that the reference goes through are a run of the crash model |
| LogRuns.Run | src/log.c:124-233 | Over every sequence of moves of any number of processes and of the committer the answers and the disk are those of the reference, up to the first panic, and wherever the machine stops, recovery finds the reference store |
| Reservation.InvKept | src/log.c:124-174 | Beginning, recording, ending and committing keep the list within LOGSIZE less the unused allowances |
| Reservation.ReservationInvariant | src/log.c:124-174 | Over every interleaving the list has no repeats, and its length plus all unused allowance is at most LOGSIZE |
| Reservation.RoomForNewBlock | src/log.c:213-229 | An operation within its budget finds room in the list |
| Reservation.ReservationSufficient | src/log.c:218-219 | No operation within its budget is refused if and only if the log area has more than LOGSIZE blocks |
| Reservation.AbsorptionRefused | src/log.c:218-229 | However large the area, some run refuses a block that is already listed |
| Ownership.GivenInv | src/fs.c:372-400 | Giving a free block to an empty slot keeps every block with exactly one owner |
| Ownership.GiveTopGiven | src/fs.c:378-389 | Filling an entry of addrs changes no other slot, of any inode |
| Ownership.GiveEntryGiven | src/fs.c:390-396 | Filling a word of the indirect block changes no other slot, of any inode |
| Ownership.FreeBlock | src/fs.c:56-78 | A block that the bitmap shows free belongs to nobody and is no metadata |
| Ownership.GivenBytes | src/fs.c:372-400 | Allocating a block changes no byte of any file |
| Ownership.PutBytes | src/fs.c:500-503 | Writing a file block changes bytes of that block of that file only |
| Ownership.ClearTopInv | src/fs.c:414-419 | A direct block that is freed was marked in use, and ownership stays exact |
| Ownership.DropIndirectInv | src/fs.c:421-431 | The blocks behind the indirect block become orphans without disturbing other owners |
| Ownership.FreeOrphanInv | src/fs.c:424-427 | An orphan is marked in use until it is freed, and ownership stays exact |
| Ownership.HoleFreeStep | src/fs.c:498-504 | Writing at or before the end of a file without holes makes no hole |
| Ownership.PatchWrote | src/fs.c:498-504 | Mapping and patching one block changes exactly the given bytes |
| Space.WantedSplit | src/fs.c:498-504 | The slots that a range wants are those of its parts together |
| Space.MissingIsNeeded | src/fs.c:372-402 | What bmap has to allocate for one pass is the number of wanted slots that are empty |
| Space.HoleFreeSlots | src/fs.c:372-402 | A file has no holes exactly if its inode holds the slots that its bytes want and no others |
| Space.HoleFreeNeeds | src/fs.c:450-511 | Inside a file without holes no block is missing |
| Space.ChargedTrans | src/fs.c:498-504 | The passes together fill exactly the wanted slots and take exactly the missing blocks, each once |
| Space.CannotPay | src/fs.c:77-78 | When one pass lacks a block, the whole call lacked blocks from the start |
| Space.StillLacking | src/fs.c:469-474 | A block that a later pass lacks was lacking from the start |
| Space.HeldCount | src/fs.c:407-435 | An inode holds as many blocks as it has filled slots |
| Space.Refunded | src/fs.c:407-435 | Truncation gives back exactly as many blocks as there were filled slots |
| FileWrites.WrittenNext | src/fs.c:498-504 | One more pass keeps the account of bytes, filled slots, logged blocks and blocks used up |
| FileWrites.ChunkLogged | src/file.c:133-152 | A chunk of at most 1536 bytes into a file without holes logs at most nine blocks besides the inode's |
| FileWrites.ChunkBlocks | src/file.c:127-133 | However it lies, such a chunk touches at most four blocks and needs at most three new ones |
| FileWrites.TopsUnchanged | src/fs.c:481-511 | addrs is unchanged exactly if every block of the range could be reached before |
| FileWrites.HoleFreeFilled | src/fs.c:481-511 | Inside a file without holes every block can be reached |
| FileWrites.OthersHoleFree | src/fs.c:481-511 | Files that are not written stay free of holes |
| FileWrites.WriteRefines | src/fs.c:481-511 | The content becomes the old one with the bytes laid over it, longer if need be |
| FileWrites.WriteFrames | src/fs.c:481-511 | The contents of all other files stay |
| FileWrites.ReadRefines | src/fs.c:452-477 | What was read is the slice of the content |
| FileWrites.PassFails | src/fs.c:469-504 | A pass of readi or writei that gets no block shows that the whole call could not be paid for: blocks were short from the start, or one was missing and no operation was open |
| FileWrites.ReadNext | src/fs.c:469-474 | One more pass of readi keeps the account of bytes read, filled slots and blocks used up |
| Inodes.FileSys.constructor | src/fs.c:171-187 | A volume with exact ownership is taken over with inodes in memory and on disk alike |
| Inodes.FileSys.Balloc | src/fs.c:54-78 | The first free block, marked and zeroed, with its two blocks logged; the panic comes exactly if none is free or no operation is open |
| Inodes.FileSys.Bfree | src/fs.c:80-95 | The bit is cleared; the panic comes exactly if it was clear |
| Inodes.FileSys.AllocTop | src/fs.c:378-389 | An empty entry of addrs gets an unowned, zeroed block |
| Inodes.FileSys.AllocEntry | src/fs.c:390-396 | An empty word of the indirect block gets an unowned, zeroed block |
| Inodes.FileSys.Bmap | src/fs.c:372-402 | The block of a file position; it fails exactly if blocks are missing and fewer are free or no operation is open; all file contents stay, and every changed block is logged |
| Inodes.FileSys.BmapIndirect | src/fs.c:383-399 | The same behind the direct blocks, with at most the indirect block and one more allocated |
| Inodes.FileSys.Iupdate | src/fs.c:217-236 | The inode on disk is the one in memory, and its block is logged |
| Inodes.FileSys.WriteOne | src/fs.c:498-504 | One pass of the loop writes its bytes and logs at most its own, its bitmap and its indirect block |
| Inodes.FileSys.ReadOne | src/fs.c:469-474 | One pass of the loop returns the bytes of the mapped block; it fails exactly if bmap fails |
| Inodes.FileSys.WriteAll | src/fs.c:498-504 | The whole loop writes exactly the bytes; it fails exactly if fewer blocks are free than the range lacks |
| Inodes.FileSys.Writei | src/fs.c:480-511 | Refused exactly beyond the end or the maximum, and then nothing changes; it panics exactly if fewer blocks are free than the range lacks; otherwise exactly the range changes and exactly the missing blocks are taken, no holes appear, every changed block is logged and at most ten are for a chunk, and the inode on disk follows exactly if the file grew or no entry of addrs was missing |
| Inodes.FileSys.Readi | src/fs.c:450-477 | The clipped slice of the content; no byte of any file changes, and without holes nothing changes at all and nothing can fail; it panics exactly if the range lacks blocks and fewer are free or no operation is open, outside an operation it changes nothing, and the inode on disk stays in step exactly if no entry of addrs was missing |
| Inodes.FileSys.TruncDirect | src/fs.c:414-419 | Exactly the direct blocks are freed, without the panic for a free block |
| Inodes.FileSys.TruncIndirect | src/fs.c:421-431 | Exactly the indirect block and the blocks behind it are freed, without the panic |
| Inodes.FileSys.Itrunc | src/fs.c:407-435 | The bitmap loses exactly the blocks of this inode, as many as it had filled slots; the file is empty, disk and memory agree, and every changed block is logged |
| Inodes.FileSys.Filewrite | src/file.c:117-156 | The number of bytes that get in is known in advance, and it panics exactly if fewer blocks are free than they lack; there is one transaction for each 1536 bytes, each begins where the last ended, writes its piece and changes only blocks it logged, and for a file without holes none logs more than MAXOPBLOCKS |
| Inodes.FileSys.WriteChunk | src/file.c:140-145 | One transaction: its bytes are written, whatever it changed is in the blocks it logged, and these are at most MAXOPBLOCKS for a file without holes |
| Inodes.TxnsNext | src/file.c:134-152 | Another chunk extends the chain of transactions by one |
| Inodes.Refusal | src/file.c:134-152 | The first chunk that writei refuses shows how many bytes got in |
| Inodes.AcceptedMore | src/file.c:134-152 | A chunk that writei takes is among the accepted bytes |
| FileRuns.Do | src/fs.c:450-511 | One operation is carried out exactly if the reference can pay for it, which outside an operation means that nothing is lacking; then reply, contents, filled slots and free blocks are those of the reference |
| FileRuns.Run | src/fs.c:450-511 | Every sequence of reads, inside and outside operations, writes and truncations gives the replies of the reference and stops exactly where it stops; contents, filled slots and free blocks are those of the reference; hole-freedom and agreement with the disk are kept throughout |
| FileRuns.DoWrite | src/fs.c:480-511 | The same for a write |
| FileRuns.DoRead | src/fs.c:450-477 | The same for a read, inside or outside an operation |
| FileRuns.DoTrunc | src/fs.c:407-435 | The same for a truncation, which is always carried out |
| FileRuns.StopsAtFirst | src/fs.c:77-78 | A run that stops does so at its first operation that lacks blocks, with all before it answered |
| FileRuns.RunConserves | src/fs.c:54-95 | Over every run, free blocks and filled slots add up to the same number |
| FileRuns.SolidFits | src/fs.c:450-511 | Where there are no holes, truncating, reading and overwriting never lack blocks |
| FileRuns.SolidCost | src/fs.c:480-511 | Where there are no holes, a write costs what the longer file wants beyond the shorter one |
| FileRuns.OutsideRead | src/file.c:95-113 | Outside an operation a read is carried out exactly if every slot that it wants is filled, and then it changes nothing |
| FileRuns.RunSolid | src/fs.c:450-511 | No run makes a hole |
| FileRuns.WholeSolid | src/fs.c:372-402 | A volume without holes is a reference without holes |
| Mkfs.FreshInv | src/mkfs.c:94-115 | The volume begins with every block owned exactly once and no holes |
| Mkfs.RoundingHole | src/mkfs.c:158-163 | Rounding up the size of the root directory leaves a hole exactly if its entries filled whole blocks |
| Mkfs.FullRootHole | src/mkfs.c:158-163 | With 32 entries in the root, the second block is inside the size and missing |
| Mkfs.WriteLeavesInodeBehind | src/fs.c:498-510 | A byte written there leaves the inode on disk without the new block |
| Mkfs.ReadLeavesInodeBehind | src/fs.c:469-474 | So does a byte read there inside an operation |
| Mkfs.ReadStopsKernel | src/file.c:95-113 | A byte read there outside an operation stops the kernel |
| Mkfs.EntriesRead | src/mkfs.c:120-156 | The first block of that root holds the two dots and the thirty names with their inode numbers |
| LinkCounts.BumpInv | src/sysfile.c:140-141 | Counting a link before its entry exists keeps the counts safe |
| LinkCounts.DropInv | src/sysfile.c:227-228 | Counting it down after the entry is gone keeps them safe |
| LinkCounts.AllocInv | src/sysfile.c:260-274 | A new inode has no stale name |
| LinkCounts.EnterInv | src/fs.c:550-576 | An entry uses up the links counted for it, and a directory gets one name only, where its ".." leads |
| LinkCounts.ClearInv | src/sysfile.c:217-219 | Clearing an entry sets free exactly the links it stood for |
| LinkCounts.FreeInv | src/fs.c:331-352 | Freeing an inode without links leaves no entry for it, also when it was a directory with names in it |
| LinkCounts.LinkCountSafety | src/sysfile.c:118-165 | nlink is at least the number of entries other than "." in directories that can be found from the root |
| LinkCounts.ReachableKept | src/fs.c:331-352 | What can be found from the root has a positive count |
| LinkCounts.FreeOnlyUnreachable | src/fs.c:331-352 | An inode without links cannot be found from the root |
| LinkCounts.MkfsInv | src/mkfs.c:117-163 | The volume that mkfs leaves, with any files in the root, satisfies the invariant |
| Directories.Dirs.constructor | src/mkfs.c:117-163 | The volume that mkfs leaves, with these files in the root and these blocks |
| Directories.Dirs.Iget | src/fs.c:241-284 | One more reference and nothing else |
| Directories.Dirs.Dirlookup | src/fs.c:524-548 | The first entry in use with the name, or none has it; it panics exactly if the entries up to there lack more blocks than are free, and otherwise takes exactly those |
| Directories.Dirs.Dirlink | src/fs.c:550-576 | Refused exactly if the name is there; otherwise the first empty place gets the entry; it panics exactly if the entries lack more blocks than are free, or none is vacant and there are 4480 |
| Directories.Dirs.Write | src/fs.c:572-575 | writei of the entry: refused at the largest size, and short of blocks exactly if the entry lacks more than are free |
| Directories.Dirs.Isdirempty | src/sysfile.c:167-181 | True exactly if nothing is behind the two dots; it panics exactly if the entries it reads lack more blocks than are free |
| Directories.Dirs.FindFree | src/fs.c:191-212 | The first free inode from 1 on, or none is free |
| Directories.Dirs.Iput | src/fs.c:331-352 | With the last reference an inode without links is freed with all its blocks, and it could not be found from the root |
| Directories.Dirs.Link | src/sysfile.c:117-165 | Succeeds exactly for a non-directory and a new name with room for its entry; without room it panics; refused, it leaves the count as it was; the blocks taken and given back are known |
| Directories.Dirs.LinkIn | src/sysfile.c:146-152 | The entry in the parent is made exactly if the name is new and has room; the parent is given back |
| Directories.Dirs.Unlink | src/sysfile.c:183-239 | Refused exactly for a dot, a missing name or a directory in use; otherwise the entry and its links go, and the panic for a low count is never reached; it panics exactly if the entries it reads lack blocks |
| Directories.Dirs.UnlinkAt | src/sysfile.c:209-229 | The entry that was found goes, unless it is a directory with names in it |
| Directories.Dirs.Remove | src/sysfile.c:217-229 | The entry goes with one link of the inode and, for a directory, one of its parent |
| Directories.Dirs.ClearEntry | src/sysfile.c:217-219 | The entry no longer names anything |
| Directories.Dirs.Create | src/sysfile.c:241-283 | A new inode with one name, or the plain file that has the name; it panics exactly if the name is new and there is no free inode, no block for the dots of a directory or no room for the entry, or the entries cannot be read, or the name is ".." and leads to a free inode; the blocks taken are known |
| Directories.Dirs.New | src/sysfile.c:260-283 | A new name: the first free inode gets it, unless there is none or no room |
| Directories.Dirs.Existing | src/sysfile.c:251-258 | An existing name gives the file only if both are plain files; the panic in ilock comes exactly if the name is ".." and leads to a free inode |
| Directories.Dirs.Begin | src/sysfile.c:260-274 | The new inode is in use with one link to come, and a directory has its two dots in a block of its own, or there is none |
| Directories.Dirs.MoreLinks | src/sysfile.c:140-141 | One link more, pending |
| Directories.Dirs.FewerLinks | src/sysfile.c:227-228 | One pending link less |
| Directories.EntryInUse | src/fs.c:286-313 | Every name but ".." leads to an inode in use |
| Directories.CompactLinkStops | src/fs.c:550-578 | In a directory without holes dirlink panics exactly if the name is new, no entry is vacant, and there are 4480 of them or the next one lacks a block |
| Directories.FullDirectory | src/fs.c:572-575 | A directory of the largest size without a vacant entry takes no name, however much is free |
| Rooms.ReachedMore | src/fs.c:565-570 | Reading some entries and then the next ones takes exactly the blocks that reading all of them takes |
| Rooms.ReachedAgain | src/fs.c:565-570 | What has been read once can be read again for nothing |
| Rooms.CompactReads | src/fs.c:450-477 | Without holes reading costs nothing |
| Rooms.NextEntryCost | src/fs.c:372-402 | Without holes a new last entry costs one block at every 32nd, two at the 384th, and leaves no hole |
| Rooms.WholeBlocks | src/mkfs.c:158-163 | Rounding up to the end of a block adds a block exactly if the entries filled whole blocks |
| Compactness.LinkedCompact | src/sysfile.c:117-165 | link makes no hole |
| Compactness.CreateLeaves | src/sysfile.c:241-283 | create makes no hole and costs exactly the block of the dots and what the entry costs where none is vacant |
| Compactness.UnnamedCompact | src/sysfile.c:183-239 | unlink makes no hole |
| Compactness.ReleasedCompact | src/fs.c:331-352 | iput makes no hole |
| Compactness.UnlinkCostsNothing | src/sysfile.c:183-239 | Without holes unlink never stops for want of blocks, and takes none |
| Compactness.CreateNeeds | src/sysfile.c:241-283 | Without holes create of a new name stops exactly if there is no free inode, the directory is full, or fewer blocks are free than the dots and the entry cost |
| Compactness.MkfsCompact | src/mkfs.c:158-163 | The root of mkfs has no hole exactly if its names do not fill whole blocks |
| Compactness.ScanFills | src/fs.c:524-548 | A search that reads everything fills the holes |
| Removed.RemovedParent | src/sysfile.c:241-258 | mkdir a, mkdir a/b, rmdir a/b by a process that stays in it, rmdir a: then create of ".." in b panics |
| Filled.More | src/sysfile.c:117-165 | link gives the file one more name in the root, exactly if the root has not its largest size |
| Filled.FillRoot | src/sysfile.c:117-165 | On the volume of mkfs with one file and 140 free blocks or more, link fills the root, and the next one panics |
| LinkRuns.SameDebts | src/sysfile.c:118-283 | What a step does to the pending links is what it does to the debts of its own process |
| LinkRuns.StillMayEnter | src/sysfile.c:146-150 | A call that has come to dirlink still has the links that its entry stands for, and a new directory has no name yet |
| LinkRuns.EffectInv | src/sysfile.c:118-283 | Every step keeps the counts safe |
| LinkRuns.OthersOk | src/sysfile.c:118-283 | No step disturbs what another process relies on between its steps |
| LinkRuns.NextInv | src/sysfile.c:118-283 | Every step of any process keeps the invariant of all processes |
| LinkRuns.RunSafety | src/sysfile.c:118-283 | Over every interleaving of any number of processes the counts are safe, only inodes that cannot be found are freed, and the panics for a low count in unlink and for dirlink in create are not reached |
| LinkRuns.Start | src/mkfs.c:117-163 | Processes that have done nothing yet, on the volume of mkfs, satisfy the invariant |
| DirRuns.StepFitting | src/sysfile.c:118-283 | No step of any process makes a hole in a directory or one that is too large |
| DirRuns.StepTotal | src/fs.c:54-95 | Every step takes and gives back exactly the blocks that it counts |
| DirRuns.RunCompact | src/sysfile.c:118-283 | Over every interleaving of the calls and of files that grow and shrink, no block is lost and no directory gets a hole |
| DirRuns.StepNeeds | src/sysfile.c:118-283 | In every state that can be reached a step stops for want of blocks exactly if it enters a name where none is vacant and the next entry costs more than is free, or makes a directory and nothing is free |
| DirRuns.Start | src/mkfs.c:117-163 | On the volume of mkfs this begins exactly if the names of its root do not fill whole blocks |
| UserHeap.InsertInv | src/umalloc.c:33-42 | Putting a block into its gap keeps the list in address order and the memory exactly tiled |
| UserHeap.MergeInv | src/umalloc.c:33-41 | Joining two touching blocks keeps the tiling |
| UserHeap.TakeInv | src/umalloc.c:76-77 | Handing out a whole block keeps list and tiling |
| UserHeap.SplitInv | src/umalloc.c:78-82 | Handing out the tail of a block keeps list and tiling |
| UserHeap.GrowInv | src/umalloc.c:52-57 | New memory enters as one live block beside the others |
| UserHeap.FreedInv | src/umalloc.c:24-44 | After free no two free blocks touch, the list is one ordered cycle, and the block is free memory |
| UserHeap.FreedWhere | src/umalloc.c:33-43 | freep, or the block behind it, is at least as large as what was freed |
| UserHeap.StoreInv | src/umalloc.c:12-22 | A store into a live block behind its header leaves list, tiling and coalescing as they are |
| Umalloc.FindGap | src/umalloc.c:30-32 | From any freep the search ends, at the one gap where the block belongs |
| Umalloc.FreedMem | src/umalloc.c:33-42 | The two tests and their pointer updates are insertion followed by joining on both sides |
| Umalloc.ExactlyOneBlock | src/umalloc.c:24-90 | Every unit got from sbrk lies in exactly one block, live or free, also between the stores of a client into its own blocks |
| Umalloc.Allocator.constructor | src/umalloc.c:21-22 | Nothing is granted and nothing is live |
| Umalloc.Allocator.Sbrk | src/umalloc.c:54 | Fails and changes nothing, or grants fresh units above all earlier ones |
| Umalloc.Allocator.Free | src/umalloc.c:24-44 | Exactly this block stops being live; all other live blocks keep their headers and units; touching free blocks are joined |
| Umalloc.Allocator.Morecore | src/umalloc.c:46-60 | A block of the asked size is on the list next to freep, or sbrk refused and nothing changed |
| Umalloc.Allocator.Serve | src/umalloc.c:75-84 | A new live block of exactly the asked size, disjoint from all others |
| Umalloc.Allocator.Scan | src/umalloc.c:74-89 | Once around the list, the first block that is large enough; none exactly if none fits |
| Umalloc.Allocator.Store | src/umalloc.c:12-22 | A client writes a unit of its block; every header, every other unit and every block stay |
| Umalloc.Allocator.Malloc | src/umalloc.c:62-90 | Terminates; a new live block of the right size, or sbrk was asked once and refused and nothing fits; memory is got at most once and only if nothing fitted |
| Umalloc.Allocator.Start | src/umalloc.c:70-73 | The list begins with base alone |
| HeapRuns.KeptHeld | src/umalloc.c:24-90 | What leaves live blocks alone leaves the data of every client block alone |
| HeapRuns.OtherHeld | src/umalloc.c:12-22 | Blocks of different names share no unit |
| HeapRuns.Do | src/umalloc.c:24-90 | One operation of a client gives the answer of the reference, and every block still holds what was written |
| HeapRuns.Run | src/umalloc.c:24-90 | Over every sequence of allocations, releases, writes and reads of a client that stays inside its blocks, every read gives what was last written, the live blocks are exactly the client's, and allocations fail only where sbrk refused |
| Ring.Occupancy | src/pipe.c:85-114 | The tests on the wrapped counters mean full and empty |
| Ring.WrapPlace | src/pipe.c:93-116 | Wrapping does not move the place in the ring, because 512 divides 2^32 |
| Ring.StoreOk | src/pipe.c:93 | Storing a byte overwrites none that is still to be read |
| Ring.TakeOk | src/pipe.c:116 | The byte taken is the oldest one not yet taken |
| Ring.Pipe.constructor | src/pipe.c:32-35 | A new pipe is empty |
| Ring.Pipe.Fill | src/pipe.c:84-94 | All bytes up to the return are stored in order, and it returns early only when the pipe is full |
| Ring.Pipe.Drain | src/pipe.c:113-117 | Exactly the next bytes written, as many as asked for or as there are |
| SleepWakeup.Wakeup1 | src/proc.c:627-635 | Exactly the sleepers of the channel become runnable |
| SleepWakeup.StepInv | src/pipe.c:59-121 | Every step of a reader, a writer or a closing process keeps locks, debts and sleepers in order |
| SleepWakeup.StepRelease | src/proc.c:598-612 | Giving up the pipe's lock while holding the table lock loses no wakeup |
| SleepWakeup.StepWriter | src/pipe.c:83-98 | A writer that gives up because the read end is closed leaves no reader behind |
| SleepWakeup.NextInv | src/pipe.c:59-121 | The same for the start of calls and for other users of the table lock |
| SleepWakeup.EveryRun | src/pipe.c:59-121 | In every interleaving of any number of processes, while the lock is free nobody sleeps on nread unless the pipe is empty and open for writing, nor on nwrite unless it is full and open for reading; and what piperead has returned is a prefix of what was written |
| SleepWakeup.InitialInv | src/pipe.c:32-36 | A new pipe satisfies the invariant |
| SleepWakeup.NoDeadlock | src/proc.c:587-644 | While somebody is in a call and not asleep, somebody can take a step |
| SleepLocks.StepInv | src/sleeplock.c:22-42 | Every step keeps the two locks, the owner and the sleepers in order |
| SleepLocks.EveryRun | src/sleeplock.c:22-54 | In every interleaving at most one process is inside, it is the recorded owner, and nobody sleeps on a lock that is free |
| SleepLocks.NoDeadlock | src/sleeplock.c:22-42 | Whoever is on the way in or out can take a step, or waits for a holder of one of the locks who can |
| Paging.PopInv | src/kalloc.c:82-95 | Taking a page from the free list keeps every page in exactly one use |
| Paging.PushInv | src/kalloc.c:59-77 | So does giving one back |
| Paging.AddTableInv | src/vm.c:41-53 | An empty table changes no mapping of any address space |
| Paging.SetPteAt | src/vm.c:73 | Writing an entry changes one page of one address space, since no two directory entries share a table |
| Paging.MapFrameInv | src/vm.c:73 | A frame is mapped in one place |
| Paging.UnmapFrameInv | src/vm.c:266-276 | A frame that is unmapped was in use by exactly this page |
| Paging.DropDirInv | src/vm.c:283-298 | With no user page left, directory and tables can go without touching another address space |
| Paging.OnlyDirView | src/vm.c:221-345 | Work on one address space leaves the mappings of all others |
| Paging.NothingLeft | src/vm.c:342-344 | When everything of a new address space is given back, all pages are in the use they had |
| Paging.FramesByView | src/vm.c:221-248 | Which pages are user frames follows from the mappings |
| Vm.Vm.constructor | src/kalloc.c:26-43 | No page is free yet |
| Vm.Vm.Freerange | src/kalloc.c:46-52 | Exactly the whole pages between the addresses become free |
| Vm.Vm.Kalloc | src/kalloc.c:82-95 | The first free page, or none is free |
| Vm.Vm.Kfree | src/kalloc.c:59-77 | The page is free again |
| Vm.Vm.Walkpgdir | src/vm.c:35-55 | The table for a page; with alloc it is missing only if no page is free, and a page is taken exactly if the table was missing; no mapping changes |
| Vm.Vm.MapOne | src/vm.c:69-73 | One page is mapped; the panic for a remap comes exactly if it was mapped, and the refusal exactly if the table is missing and no page is free |
| Vm.Vm.Mappages | src/vm.c:60-79 | The range is mapped page by page, exactly if none of its pages was mapped and there are pages for the missing tables, and exactly these are taken; or a first part of it when tables run out; no mapped page is mapped again |
| Vm.Vm.ClearOne | src/vm.c:269-276 | The page is unmapped and its frame is free; the null check never fires |
| Vm.Vm.Deallocuvm | src/vm.c:255-279 | Exactly the user pages between the sizes are unmapped and freed, with whole missing tables skipped; the pages left are exactly those below the new size |
| Vm.Vm.Allocuvm | src/vm.c:221-248 | User pages are exactly those below the new size, the new ones zeroed; on failure all mappings and frames are as before; it fails exactly beyond KERNBASE or with fewer free pages than new pages and missing tables; no remap |
| Vm.Vm.GrowOne | src/vm.c:233-246 | One more page, taking it and the table if missing, or the page in hand is given back |
| Vm.Vm.Freevm | src/vm.c:281-298 | Nothing of the address space is left, and all its pages are free |
| Vm.Vm.TakeOut | src/vm.c:288-297 | Directory and tables are out of use |
| Vm.Vm.FreeTables | src/vm.c:290-296 | Every table of the directory is freed once |
| Vm.Vm.Setupkvm | src/vm.c:116-136 | Exactly the kernel's mappings, or everything as before; it fails exactly with fewer than 65 free pages and takes exactly 65; no remap |
| Vm.Vm.Copyuvm | src/vm.c:313-345 | A new address space with the same pages, flags and contents, or everything as before; it fails exactly with fewer free pages than the kernel's part, the copied pages and their tables; its panics are not reached |
| Vm.Vm.CopyOne | src/vm.c:324-339 | One more page is copied, taking it and the table if missing; the parent keeps its own |
| Vm.ChargedTrans | src/vm.c:35-55 | Two ranges one after the other take exactly the tables that are missing for both together |
| Vm.CannotPay | src/vm.c:45-46 | When a table cannot be had, there were too few pages from the start |
| Vm.KernelTablesSize | src/vm.c:105-115 | The kernel's mappings go through 64 tables, all in the upper half |
| Vm.UserMissing | src/vm.c:313-345 | A new address space lacks one table for each 1024 pages of its user half |
| VmRuns.OtherSpace | src/vm.c:35-79 | What happens to one address space changes no mapping and no page of another |
| VmRuns.GrownHolds | src/vm.c:221-248 | A process that has grown finds its old pages and zeroed new ones |
| VmRuns.ShrunkHolds | src/vm.c:255-279 | A process that has shrunk finds the pages that are left as they were |
| VmRuns.CopiedHolds | src/vm.c:313-345 | The child finds the pages of its parent |
| VmRuns.WrittenHolds | src/vm.c:35-55 | What a process writes to one of its pages changes no other page |
| VmRuns.Growproc | src/proc.c:185-201 | After sbrk the process has exactly the pages below its size, if and only if it did not shrink to nothing; it fails exactly with too few pages, beyond KERNBASE, or with nothing to give back |
| VmRuns.BackToNothing | src/proc.c:194-196 | sbrk of one page and back fails, and leaves the size without the page |
| VmRuns.Do | src/vm.c:116-345 | Each operation does what the reference does, and is refused exactly when there are too few free pages for it |
| VmRuns.Run | src/vm.c:116-345 | Over every sequence of operations on any number of address spaces the answers and the pages are those of the reference, an operation is refused exactly when there are too few free pages, and free pages and those of all address spaces add up to what was free at first |
| VmRuns.Balance | src/kalloc.c:59-95 | Free pages, pages of all address spaces and pages not yet in use are all pages, each counted once |
| VmRuns.SpacePages | src/vm.c:221-248 | An address space has one directory, its tables, and one frame for each page of its size |
| Lottery.RandomAtMost | src/rand.c:101-120 | The value of the first accepted output, in range |
| Lottery.FairBins | src/rand.c:104-119 | Any m neighbouring values come from exactly m times bin_size outputs |
| Lottery.FairValue | src/rand.c:104-119 | Each value comes from exactly bin_size outputs |
| Lottery.SchedLottery | src/proc.c:397-432 | The first eligible process at which the running sum reaches the draw; none only if none is eligible |
| Lottery.ChosenRange | src/proc.c:418-428 | A process is chosen exactly by the draws among its own tickets, the first also by zero |
| Lottery.FairShares | src/proc.c:397-432 | Of the sum + 1 draws, exactly its tickets choose a process, one more for the first |
| Lottery.FairOutputs | src/proc.c:397-432 | Of the generator's outputs, exactly bin_size times that number |
| ShellGrammar.SkipBlank | src/sh.c:272-273 | Skips blanks only, up to something else |
| ShellGrammar.WordEnd | src/sh.c:299-301 | Takes word characters only, up to something else |
| ShellGrammar.NextToken | src/sh.c:265-308 | A token and the blanks around it are what is taken from the front of the token list |
| ShellGrammar.TokenWords | src/sh.c:297-302 | Every word token is a whole word of the line |
| ShellGrammar.LineSpans | src/sh.c:344-446 | All words of a tree are words of its line |
| ShellParse.RedirsFound | src/sh.c:374-397 | Every sequence of redirections is taken up to its end |
| ShellParse.SimpleFound | src/sh.c:426-445 | Words and redirections in any order, with fewer than ten words, are taken as one command |
| ShellParse.SimpleSound | src/sh.c:426-445 | Nothing else is |
| ShellParse.LineFound | src/sh.c:344-359 | Whatever the grammar derives as a line is found, with the tree of the derivation |
| ShellParse.LineSound | src/sh.c:344-359 | Whatever is found is derived by the grammar |
| ShellParse.ParseExact | src/sh.c:327-342 | A line is accepted exactly if the grammar derives it, and there is one tree |
| Shell.Parser.constructor | src/sh.c:327-334 | The cursor starts at the front |
| Shell.Parser.Peek | src/sh.c:310-320 | Blanks are skipped, and the answer is whether one of the characters follows |
| Shell.Parser.Gettoken | src/sh.c:265-308 | The next token of the line |
| Shell.Parser.Parseredirs | src/sh.c:374-397 | Takes the redirections that follow, or fails for a missing file |
| Shell.Parser.Parsesimple | src/sh.c:426-445 | Takes a simple command, or fails for a stray symbol or too many arguments |
| Shell.Parser.Parseblock | src/sh.c:399-412 | Takes a parenthesised line with its redirections |
| Shell.Parser.Parseexec | src/sh.c:415-445 | Takes a block or a simple command |
| Shell.Parser.Parsepipe | src/sh.c:361-371 | Takes a pipeline |
| Shell.Parser.Parseline | src/sh.c:344-358 | Takes a line; all parsers terminate on every input |
| Shell.Nulterminate | src/sh.c:448-493 | A NUL stands behind every word of the tree, and no other byte has changed |
| Shell.WordsRead | src/sh.c:448-493 | Every word of the tree reads as its token, since no NUL lands inside a word |
| Shell.Parsecmd | src/sh.c:327-342 | Accepts exactly the lines that the grammar derives; then every argument and file name reads as its word; otherwise the buffer is untouched |
| Grep.FirstItem | src/grep.c:84-95 | A pattern holds exactly if its first item covers some stretch and the rest holds behind it |
| Grep.OneMeans | src/grep.c:92-93 | A single character or '.' |
| Grep.EndMeans | src/grep.c:90-91 | A final '$' |
| Grep.StarStops | src/grep.c:99-106 | Once a character does not fit, no longer stretch can be covered |
| Grep.Match | src/grep.c:72-82 | True exactly if the pattern holds somewhere, or at the start after '^' |
| Grep.Matchhere | src/grep.c:84-96 | True exactly if the items of the pattern cover neighbouring stretches from the start of the text |
| Grep.Matchstar | src/grep.c:98-107 | True exactly if some number of fitting characters is followed by the rest |

## Left out

- The interrupt-driven disk driver, boot code, traps, system call dispatch, the console and the small user programs: the disk is the memory disk's contract, and a context switch is one step.
- Log.CopyBlock, Log.Log.WriteLogBlock and Log.Log.InstallBlock: while the committer waits for a reader it gives back the log block, which the source keeps; each of their steps is atomic.
- Log.Log.WriteHead, Log.Log.Commit and Log.Log.EndOp: that clean buffers agree with the disk and nobody has a log block is a precondition of the methods; `LogRuns` derives it for every run.
- LogRuns.Run: callers keep to the rules of the cache and the log (a changed block is recorded before it is released, log blocks are not read, nothing unrecorded at end_op); a move that breaks them is skipped. A sleeper may try again at any time.
- Log.Log.RecoverFromLog: runs before any other process uses the cache, as in the source.
- BufferCache: one device; the buffer's sleeping lock is a flag here, its protocol is in `SleepLocks`.
- BufferCache.Bcache.Bread: ends where it would sleep on a locked buffer; the waiting itself is the protocol in `SleepLocks`.
- Log.Log.BeginOp: one pass of its loop; sleeping and trying again is the sleep and wakeup protocol.
- Inodes.FileSys.Writei and Inodes.FileSys.Itrunc: inside an operation, as all their callers are; the panic of log_write for a full list is the subject of `Reservation` and `LogRuns`.
- The layers do not call each other across the cache boundary: `Inodes` works on what a transaction sees and collects the blocks that log_write would list; bits of the bitmap and fields of an inode are values, not bytes in blocks.
- Inodes.FileSys.Readi, Inodes.FileSys.Writei and Inodes.FileSys.Filewrite: device inodes are excluded, and a panic promises nothing about the state behind it.
- Inodes.FileSys.Filewrite: the dispatch to pipes and the check for a writable file are left out; a negative length, for which the source returns -1 at once, is not an input here.
- The inode cache (iget, ilock, the valid flag), skipelem and namex: calls get the inode or the directory that path lookup gave them, with its reference. Iput stands for the case that the inode had been locked and was valid.
- Directories.Dirs.Create and LinkRuns.RunSafety: the new inode gets its two dots in the same step in which it is marked in use; a process that reaches it through a stale ".." in between is not modelled.
- Directories: the blocks of an inode are the slots they fill and a count of free ones; which block fills a slot is the subject of `Inodes`. The references to inodes and the blocks that path lookup reads are not part of it.
- DirRuns.RunCompact: files grow and shrink by any slots, each paid for with a free block.
- LinkRuns: what path lookup does is a reference to some inode, taken at any time; iput frees the inode and drops the reference in one step.
- LinkCounts: nlink is unbounded; the 16-bit counter could wrap only with more than 32767 entries for one inode, which the 1000 blocks that mkfs lays out cannot hold. Names are compared as whole strings; cutting them to 14 bytes is left out.
- Umalloc.Allocator.Sbrk: taken as an assumption on the system call: fresh space above everything granted before and not touching base; size arithmetic does not wrap.
- HeapRuns.Run: a client that writes outside its blocks is not modelled; a unit is one header wide.
- SleepWakeup: killed processes are excluded, since piperead and pipewrite then return without the wakeup; an end of the pipe is closed when no call on it is in progress, as the reference counts of file.c ensure; pipealloc and the final kfree are left out.
- The memory model: acquire and release are atomic steps.
- Vm: the permission bits are numbers, PTE_PS is not used, junk filling in kfree is left out, inituvm, loaduvm, clearpteu, uva2ka and copyout are left out; in `VmRuns` a process writes within one page at a time. The free list is a sequence of page numbers.
- Vm.Vm.Kfree: takes a page, so the panics for an address that is not aligned or outside memory are left out.
- Vm.Vm.Mappages: a range of several user pages at once is left out; the source maps user pages one at a time.
- Vm.Vm.Allocuvm and Vm.Vm.Copyuvm: stated for an address space that has exactly the pages below the size that the process keeps; setupkvm, allocuvm and deallocuvm are proved to leave it so.
- VmRuns.Run: a process that shrinks itself to nothing, and one that writes outside its pages, are skipped.
- Vm.Vm.Setupkvm: the kernel's data begins on a page between KERNLINK and the end of physical memory, as the linker script places it.
- Vm.Vm.ClearOne: the entry is cleared before the frame is freed; the source does it in the other order under the same lock.
- Vm.Vm.Freevm: the directory and its tables are taken out of use first and then freed one by one; the source reads the directory while it frees the tables.
- Lottery.RandomAtMost: works on a given sequence of generator outputs, since the loop ends only with probability one; genrand itself is left out. Tickets are not negative and their sum is at most RAND_MAX.
- Shell.Parser.Parsesimple: the redirections around a command are collected and put around it at the end, where the source fills in the argument array of a node that is already wrapped.
- runcmd, getcmd and everything that executes a command; grep's line buffering; round robin and HRRN scheduling; the system call history.
