# Verified models of the storage, memory, pipe, shell and log-structured code

Dafny models of the hard parts of this repository, with proofs about them. `dafny verify dfyconfig.toml`
checks everything. Line numbers refer to the copies of xv6 under `p5/xv6-public` and to `p7`.

**Crash-safe storage** (`bio.c`, `log.c`, `fs.c`, `file.c`, with the synchronous disk of `memide.c`). The disk is an
array of 512-byte blocks that are written whole; a crash keeps the disk and drops all memory.

- `Bio.dfy`: the buffer cache with its prev/next ring, recycling and pinning, as a cache that always shows the latest
  content of every block.
- `LogSpec.dfy`: the block writes of commit and recovery as lists, and what any prefix of them leaves behind.
- `Log.dfy`: the code of `log.c` over the cache. Its methods are shown to perform exactly those lists of writes, and
  bread, stores, log_write and brelse by clients, in any order, to keep what end_op needs.
- `GroupCommit.dfy`: a state machine whose events are the critical sections of `log.c`, single block writes, crashes
  and recoveries. Crash safety, atomicity and durability of operations and the reservation bound hold over all its
  runs. The log admits operations at ten blocks each but panics at 29 logged blocks: the size panic is unreachable
  exactly if operations are held to nine distinct blocks.
- `FsLayout.dfy`, `FsState.dfy`, `Fs.dfy`: bitmap and inode formats, the ownership relation between bitmap bits,
  inodes and indirect entries, and the code of `fs.c` and `filewrite` over it. Contents refine one flat byte sequence
  per file. The contracts on contents start from an image in which every block below a size is allocated. `mkfs.c`
  lines 158-163 round up the size of the root directory, and leave such an image exactly if the entries do not fill
  whole blocks (`FsState.MkfsRoot`); bmap, and with it the first read of the missing block, then allocates one
  (`FileSystem.Fs.BMap`, which does not assume it there).
- `FsRecovery.dfy`: if operations leave a sound file system sound, every crash leaves one to recover.
- `DurableWrite.dfy`: one writei or itrunc through `fs.c`, `log.c`, `bio.c` and the disk, and mounting after a crash.

**Heap allocator** (`umalloc.c`): `Malloc.dfy`. Addresses are in header units. The ring of headers in memory stays the
address-ordered, fully coalesced free list, and free and live units together are the units obtained from sbrk.

**Pipes and sleep/wakeup** (`pipe.c`, `proc.c`): `PipeRing.dfy` has the ring with its wrapping counters and the copy
loops; `PipeProtocol.dfy` the protocol of any number of readers, writers and closers over the two locks, one critical
step at a time; `PipeCalls.dfy` what calls put in, take out and return in every run of it. pipewrite returns -1 without a wakeup when it finds the pipe full and the process killed or the read
end closed, and readers that sleep then stay asleep on a full pipe. "No lost wakeup" therefore fails of the code; it
holds of a moment exactly if no such return is still unrepaired, and of all runs exactly if nobody is killed and the
read end stays open. A kill does not always end a sleep either: piperead and pipewrite test killed before they take
ptable.lock in sleep, and a kill between the two finds no sleeper to wake (`PipeCalls.KilledSleepers`). (A process inside piperead normally keeps that end open by its descriptor; the protocol does not
rely on it.)

**Address spaces** (`kalloc.c`, `vm.c`, and mmap in `proc.c`): `PageTables.dfy` has physical frames, the role each
frame plays, and two-level tables as a flat map; `AddressSpace.dfy` what single operations do to these; `Vm.dfy` the
code, from freerange at boot on. Success of allocuvm, setupkvm, copyuvm and mmap is characterised exactly by the number
of free frames. mmap with MAP_FIXED does not test that the address is page-aligned, and mappages then maps one page
more, to the frame after the one allocated: where its range does not end past 2^32, a successful mmap adds exactly its
pages if and only if the address is aligned.

**Shell** (`sh.c`): `ShellGrammar.dfy` has tokens, the grammar with the tree of each derivation, and the parser on
token lists, sound and complete for the grammar; `ShellTree.dfy` what trees and lines say about each other without the
grammar, and a printer that the parser inverts; `Shell.dfy` the cursor-based code and nulterminate.

**Pattern matching** (`grep.c`): `Grep.dfy`, against a declarative meaning of `^ . * $`.

**Log-structured file system** (`p7/mount.wfs.c`, `p7/mkfs.wfs.c`): `WfsLog.dfy` has the log as entries parsed from
bytes, newest versions, directories and paths; `Wfs.dfy` the operations on the byte array. After an unlink the next
inode number can be one already in the log; when exactly is `WfsLog.NumberReused`.

`Bytes.dfy` and `Common.dfy` hold what several of these share. Where the code disagrees with its comments the code is
followed: begin_op reserves MAXOPBLOCKS blocks for an operation (`p5/xv6-public/log.c` line 132), while log_write
stops at 29 logged blocks, one less than three such reservations (line 218).

A kernel panic is either a precondition, where the source makes it the caller's duty, or a result value, where a
resource has run out. Lock acquisition, clocks, user ids and the answers of sbrk appear as parameters or as the
granularity of steps.

## Model

| member | source | states |
|---|---|---|
| `BufferCache.Cache.constructor` | p5/xv6-public/bio.c:39-56 | binit leaves every buffer idle and once in the prev/next ring, and the cache shows exactly the disk although all buffers start as device 0, block 0 |
| `BufferCache.Cache.FindNamed` | p5/xv6-public/bio.c:68-76 | the first loop of bget follows next from the head and returns the one buffer that names the block, or the list head if there is none |
| `BufferCache.Cache.FindRecyclable` | p5/xv6-public/bio.c:78-91 | the second loop follows prev and returns the least recently used buffer that is neither held nor dirty |
| `BufferCache.Cache.BGet` | p5/xv6-public/bio.c:61-93 | succeeds exactly if the block is cached or some buffer is recyclable; a hit adds one holder, a miss recycles the least recently used buffer; no block gets two buffers |
| `BufferCache.Cache.IdeRw` | p5/xv6-public/memide.c:38-60 | writes a dirty buffer to its block and leaves it clean and valid, or fills an invalid one from its block; no other buffer or block changes |
| `BufferCache.Cache.BRead` | p5/xv6-public/bio.c:95-106 | returns a valid buffer with the block's latest logical content, and changes the content of no block |
| `BufferCache.Cache.BWrite` | p5/xv6-public/bio.c:108-116 | puts the buffer's data on the disk as one block write and leaves the contents as they were |
| `BufferCache.Cache.BRelse` | p5/xv6-public/bio.c:118-141 | drops one holder; the last one moves the buffer to the most recent end, links and ring in step, and no content changes |
| `BufferCache.MoveFrontLinked` | p5/xv6-public/bio.c:130-138 | unlinking a buffer and inserting it after the head turns the linked ring into the ring with that buffer moved to the front, every buffer still in it once |
| `BufferCache.AcquiredLogical` | p5/xv6-public/bio.c:61-106 | acquiring a buffer, recycled or not, leaves the content of every block as it was |
| `LogSpec.HeadOfEncode` | p5/xv6-public/log.c:86-113 | a header block written by write_head is read back by read_head as the same list of blocks |
| `LogSpec.ZeroDiskGood` | p5/xv6-public/mkfs.c:110-115 | a zeroed disk has an empty log and recovers to itself |
| `LogSpec.CommitCrash` | p5/xv6-public/log.c:177-202 | after any number of commit's block writes the disk recovers to the old home blocks up to the header write, and to the new ones from it on |
| `LogSpec.CommitDone` | p5/xv6-public/log.c:192-202 | a finished commit leaves an empty log and all logged blocks at home |
| `LogSpec.RecoverCrash` | p5/xv6-public/log.c:115-122 | a recovery that crashes after any of its writes still recovers to the same home blocks; a finished one leaves them in place with an empty log |
| `LogSpec.CrashAtomic` | p5/xv6-public/log.c:69-122 | a crash after any write of commit, then any number of recoveries crashing at any write: the first that finishes leaves exactly the old or exactly the new home blocks, decided by the header write alone |
| `LogSpec.InstalledAt` | p5/xv6-public/log.c:69-82 | the new image has each logged block's data at its home and every other block as before |
| `RedoLog.Log.CopyOver` | p5/xv6-public/log.c:185-188 | the shared end of both copy loops: memmove, bwrite and the two brelse make one block write, and release both buffers |
| `RedoLog.Log.LogBlock` | p5/xv6-public/log.c:182-189 | one round of write_log writes the cached content of a logged block to its log slot, and the logged blocks stay pinned |
| `RedoLog.Log.WriteLog` | p5/xv6-public/log.c:176-190 | write_log performs exactly the writes that copy the logged contents into the log, in order |
| `RedoLog.Log.WriteHead` | p5/xv6-public/log.c:98-113 | write_head is one block write of the in-memory list to the header block |
| `RedoLog.Log.InstallBlock` | p5/xv6-public/log.c:74-81 | one round of install_trans writes a log block home, and unpins just that block |
| `RedoLog.Log.InstallTrans` | p5/xv6-public/log.c:68-82 | install_trans performs exactly the home writes of the log, and unpins exactly the installed blocks |
| `RedoLog.Log.Commit` | p5/xv6-public/log.c:192-202 | commit performs exactly the writes whose every prefix the crash theorems treat, and leaves nothing pinned, an empty log and cache and disk equal |
| `RedoLog.Log.ReadHead` | p5/xv6-public/log.c:84-96 | read_head loads the header's list and disturbs neither cache contents nor pins |
| `RedoLog.Log.Recover` | p5/xv6-public/log.c:115-122 | recover_from_log performs exactly the recovery writes and leaves the recovered disk with an empty log |
| `RedoLog.Boot` | p5/xv6-public/log.c:53-66 | boot over whatever disk a crash left recovers it: fresh cache, then initlog |
| `RedoLog.Log.LogWrite` | p5/xv6-public/log.c:213-233 | log_write panics exactly at the size or transaction test; else the block is in the list once, list and pins still agree, and the buffer no longer counts as changed and unlogged |
| `RedoLog.Log.TryBeginOp` | p5/xv6-public/log.c:129-140 | begin_op admits an operation exactly if no commit runs and, whatever up to MAXOPBLOCKS blocks each admitted operation logs, all of them fit the log |
| `RedoLog.RoomExact` | p5/xv6-public/log.c:132 | the test in begin_op holds exactly if every choice of up to MAXOPBLOCKS blocks by each operation fits the log |
| `RedoLog.Log.EndOp` | p5/xv6-public/log.c:145-174 | the last end_op commits everything logged, provided every change is logged; an earlier one writes nothing; both leave the state that clients rely on |
| `RedoLog.AbsorbState` | p5/xv6-public/log.c:224-231 | absorbing a block keeps the list without repetitions and the dirty buffers exactly the logged blocks |
| `RedoLog.AcquiredBut` | p5/xv6-public/bio.c:61-106 | whatever clients have changed and not logged, an acquire keeps exactly the logged blocks pinned, and a logged block is read from its pinned buffer |
| `RedoLog.StoredBut` | p5/xv6-public/bio.c:108-116 | a store adds just its block to the changed and unlogged ones, and unpins nothing |
| `RedoLog.LoggedBut` | p5/xv6-public/log.c:228-231 | log_write takes just its block out of the changed and unlogged ones |
| `RedoLog.ReleasedBut` | p5/xv6-public/bio.c:118-141 | a release keeps exactly the logged blocks pinned |
| `RedoLog.Log.Read` | p5/xv6-public/bio.c:95-106 | bread between commits returns the latest content, in a pinned buffer exactly for a logged block, and keeps the state that end_op needs |
| `RedoLog.Log.Release` | p5/xv6-public/bio.c:118-141 | brelse of a buffer without unlogged changes keeps the state that end_op needs and every content |
| `RedoLog.Log.Transaction` | p5/xv6-public/log.c:15-29 | an operation alone from begin_op to end_op: its updates are on the disk in order and nothing else changed; a crash after any of its block writes recovers all of them or none |
| `RedoLog.BufferLeft` | p5/xv6-public/log.c:218-219 | fewer than NBUF buffers held or logged leave one to recycle, so commit never meets the panic "bget: no buffers" |
| `GroupCommit.CrashSafety` | p5/xv6-public/log.c:125-202 | for every interleaving of begin_op, log_write, end_op, single commit writes, crashes and recoveries, the disk recovers to the committed groups applied in order; commit runs with no operation outstanding |
| `GroupCommit.OperationAtomic` | p5/xv6-public/log.c:143-174 | each operation's updates are all in one committed group, in order, or in none |
| `GroupCommit.Durability` | p5/xv6-public/log.c:145-202 | once none is outstanding, every operation that no crash cut off is in a committed group with all its updates, at every later moment and through every later crash |
| `GroupCommit.Reservation` | p5/xv6-public/log.c:132-137 | logged blocks plus unused reservations never exceed LOGSIZE and logged block numbers are distinct |
| `GroupCommit.NoPanic` | p5/xv6-public/log.c:218-219 | operations of at most MAXOPBLOCKS-1 distinct blocks never reach a panic of the log |
| `GroupCommit.PanicReachable` | p5/xv6-public/log.c:132-137 | with MAXOPBLOCKS distinct blocks the size panic is reached: three admitted operations, thirtieth block |
| `GroupCommit.NoPanicIff` | p5/xv6-public/log.c:213-221 | the size panic is unreachable if and only if operations are held to MAXOPBLOCKS-1 distinct blocks |
| `FsLayout.FlipOfAt` | p5/xv6-public/fs.c:66-68 | setting or clearing one bitmap bit changes that bit and no other |
| `FsLayout.FlipBitValue` | p5/xv6-public/fs.c:88-92 | the bit change is addition or subtraction of 1 << k |
| `FsLayout.DecodeOfEncode` | p5/xv6-public/fs.c:220-236 | an inode stored by iupdate reads back, and the other inodes of its block stay |
| `FsLayout.InodeFormat` | p5/xv6-public/fs.h:29-36 | the fields of an inode lie at their places in struct dinode: type at byte 0, nlink at 6, size at 8, addresses from 12 on, 64 bytes an inode |
| `FsLayout.LayoutDense` | p5/xv6-public/fs.h:38-48 | inodes and bitmap bits lie one behind the other from their first block on, and the last bit is in the last bitmap block |
| `FsState.EmptyVolume` | p5/xv6-public/mkfs.c:237-251 | a volume with no file and only its metadata marked satisfies the ownership invariant |
| `FsState.MkfsRoot` | p5/xv6-public/mkfs.c:158-163 | rounding the size of the root directory leaves every block below it allocated if and only if its entries did not fill whole blocks |
| `FsState.LinkDirectKeeps` | p5/xv6-public/fs.c:378-388 | allocating a free block for an empty direct slot gives it that one owner and keeps the invariant: a bit is set exactly for metadata and for blocks referenced from exactly one slot |
| `FsState.LinkEntryKeeps` | p5/xv6-public/fs.c:389-394 | the same for an entry of the indirect block |
| `FsState.DropDirectKeeps` | p5/xv6-public/fs.c:414-419 | the block of a direct slot has its bit set before bfree; freeing it and clearing the slot keeps the invariant |
| `FsState.DropEntryKeeps` | p5/xv6-public/fs.c:424-427 | the same for each entry of the indirect block, whose stale words no longer count |
| `FsState.StoreBytes` | p5/xv6-public/fs.c:498-504 | storing into a file block changes those bytes of that file and no byte of another |
| `FsState.UpdatedKeeps` | p5/xv6-public/fs.c:220-236 | after iupdate the on-disk inode equals the in-core one and ownership and contents are unchanged |
| `FsRecovery.HomeSound` | p5/xv6-public/fs.h:8-12 | the file system invariant does not depend on the blocks of the log |
| `FsRecovery.Survives` | p5/xv6-public/log.c:53-122 | if operations leave a sound file system sound, the disk recovers to a sound file system at every moment of every run, wherever crashes fell |
| `DurableWrite.WriteDurably` | p5/xv6-public/file.c:129-151 | a writei between begin_op and end_op, with no other operation: it is rejected exactly for a bad offset or size and stops for want of blocks exactly if fewer are free than it has to allocate; else the disk has all the bytes at their place in the file and everything else as before; a crash after any block write recovers all of the call or nothing, and a sound file system |
| `DurableWrite.Commit` | p5/xv6-public/log.c:145-169 | end_op of a lone call: the disk gets all the blocks that the call changed, and a crash after any block write recovers all or none of them |
| `DurableWrite.TruncDurably` | p5/xv6-public/fs.c:407-435 | a truncation as one transaction: afterwards the disk has the inode without its blocks and the bitmap without theirs; a crash after any block write recovers both or neither |
| `DurableWrite.Replayed` | p5/xv6-public/log.c:204-212 | writing the logged blocks in any order gives what the file system sees |
| `DurableWrite.Mount` | p5/xv6-public/log.c:53-66 | whatever a crash left, if it recovers to a sound file system, then after boot calls can go on from that file system |
| `FileSystem.SpaceIsFree` | p5/xv6-public/fs.c:55-78 | the data blocks without an owner are as many as the clear bits of the bitmap |
| `FileSystem.Fs.BAlloc` | p5/xv6-public/fs.c:55-78 | returns the lowest free block, marked and zeroed, and logs two blocks; fails exactly if no block is free |
| `FileSystem.Fs.BFree` | p5/xv6-public/fs.c:80-95 | clears the one bit; callers show the bit is set, so "freeing free block" is unreachable |
| `FileSystem.Fs.IUpdate` | p5/xv6-public/fs.c:220-236 | stores the in-core inode into its place on disk |
| `FileSystem.Fs.BMap` | p5/xv6-public/fs.c:370-400 | returns the slot's block, allocating direct, indirect and data blocks only where the slot is empty, keeping ownership, all allocated bytes and the list of blocks it logs; fails exactly if fewer blocks are free than the slot needs |
| `FileSystem.Fs.ReadI` | p5/xv6-public/fs.c:453-476 | returns exactly the slice of the file from off, cut at the size, across the direct/indirect boundary, and allocates nothing; fails exactly for offsets past the end or sums that wrap |
| `FileSystem.Fs.WriteBlock` | p5/xv6-public/fs.c:499-503 | one round of writei replaces exactly the given bytes of one file; it fails exactly for want of the blocks it has to allocate |
| `FileSystem.Fs.WriteLoop` | p5/xv6-public/fs.c:498-504 | the loop writes all bytes and logs at most the bound of distinct blocks, if and only if as many blocks are free as the range lacks |
| `FileSystem.Fs.WriteI` | p5/xv6-public/fs.c:481-511 | the file is overwritten or extended at off and no other file changes, on-disk inodes again equal in-core ones, every changed block is logged, and the distinct blocks logged stay within the bound; rejects exactly bad offsets or sizes, and runs out of blocks exactly if fewer are free than the range lacks, with an indirect block if it needs one |
| `FileSystem.FillingNext` | p5/xv6-public/fs.c:498-504 | round by round, blocks were there for all rounds so far exactly as long as the free blocks cover what the whole range needs |
| `FileSystem.Fs.TruncDirect` | p5/xv6-public/fs.c:414-419 | frees the block of one slot, if any, and logs the bitmap block it changes |
| `FileSystem.Fs.TruncEntries` | p5/xv6-public/fs.c:424-427 | frees each block of the indirect block once and logs the bitmap blocks it changes |
| `FileSystem.Fs.ITrunc` | p5/xv6-public/fs.c:407-435 | frees exactly the inode's blocks, each once; all other bits, owners and files stay; every changed block is logged, at most all bitmap blocks and the inode's |
| `FileSystem.Fs.FileWrite` | p5/xv6-public/file.c:136-157 | writes the bytes in chunks as one write, returns short exactly at the first chunk that writei rejects, panics exactly in the first chunk that the free blocks do not cover; every changed block was logged by one of the transactions, one a chunk, and none logs more than MAXOPBLOCKS distinct blocks |
| `FileSystem.WriteThenRead` | p5/xv6-public/fs.c:481-511 | after a write the file holds the new bytes at off and its old bytes elsewhere |
| `FileSystem.WroteTwice` | p5/xv6-public/file.c:138-156 | consecutive chunk writes are one write of the concatenation |
| `FileSystem.ChunkBound` | p5/xv6-public/file.c:130-136 | a chunk of 1536 bytes logs at most ten distinct blocks for any number of bitmap blocks, and at most nine with up to three |
| `FileSystem.LoggedEnd` | p5/xv6-public/file.c:130-136 | data, indirect, bitmap and inode blocks logged by all rounds together stay within the bound |
| `FreeList.UnitsEnough` | p5/xv6-public/umalloc.c:69 | the computed units hold the requested bytes if and only if the 32-bit sum does not wrap |
| `FreeList.UnitsExact` | p5/xv6-public/umalloc.c:69 | the computed units are the least that hold a header and the requested bytes; if the sum wraps they are one |
| `FreeList.FreeLinked` | p5/xv6-public/umalloc.c:33-42 | the header stores of free turn the ring of the old list into the ring of the coalesced list |
| `FreeList.CoalesceOrdered` | p5/xv6-public/umalloc.c:33-42 | the list stays strictly address-ordered, disjoint and fully coalesced |
| `FreeList.FreeConserves` | p5/xv6-public/umalloc.c:24-44 | after free every unit from sbrk is in exactly one free or one live block |
| `FreeList.TakeConserves` | p5/xv6-public/umalloc.c:75-84 | cutting or unlinking a block for malloc keeps that, and the new block overlaps no live one |
| `FreeList.GrowConserves` | p5/xv6-public/umalloc.c:54-59 | fresh memory above all earlier memory adds exactly its units |
| `FreeList.FullCircle` | p5/xv6-public/umalloc.c:86 | returning to freep means every free block is too small |
| `FreeList.Heap.FindGap` | p5/xv6-public/umalloc.c:30-32 | the search of free terminates on every reachable ring at the node before the block, wrap point included |
| `FreeList.Heap.Free` | p5/xv6-public/umalloc.c:24-44 | the block joins the list, merged with the neighbours it touches, and leaves the live blocks; freep ends at the node before it |
| `FreeList.Heap.MoreCore` | p5/xv6-public/umalloc.c:46-61 | asks sbrk once for at least 4096 units; on success they are freed into the list, with a block that is large enough; on failure nothing changes |
| `FreeList.Heap.TakeBlock` | p5/xv6-public/umalloc.c:75-84 | hands out the whole block or its tail and keeps ring, order and conservation |
| `FreeList.Heap.Malloc` | p5/xv6-public/umalloc.c:63-90 | terminates with at most one sbrk; the result is a new live block with room for the bytes and less than one unit more than they need; NULL only if sbrk failed and no free block has a header and room for them; the block is the first large enough after freep on the ring, of the list before or of that with the new memory, and freep ends at the node before it |
| `PipeRing.TestsRight` | p5/xv6-public/pipe.c:85 | the empty and full tests on 32-bit counters are right after any number of wraps |
| `PipeRing.PutCarries` | p5/xv6-public/pipe.c:93 | storing a byte extends what the ring carries |
| `PipeRing.GetCarries` | p5/xv6-public/pipe.c:113-117 | taking a byte yields the oldest one not yet read |
| `PipeRing.Pipe.CopyIn` | p5/xv6-public/pipe.c:84-94 | the write loop stores bytes in order until done or full |
| `PipeRing.Pipe.CopyOut` | p5/xv6-public/pipe.c:113-117 | the read loop takes the oldest bytes in order, as many as asked for or there |
| `PipeProtocol.EventKeeps` | p5/xv6-public/pipe.c:60-121 | every step of any process keeps the locks, what the ring carries and, for each sleeper, that its condition holds or a waker is on the way |
| `PipeProtocol.NoLostWakeup` | p5/xv6-public/proc.c:791-848 | whenever neither lock is held, a writer asleep means a full pipe with a reader; a reader asleep means an empty pipe with a writer if and only if no pipewrite has returned early over unannounced bytes while a reader slept, or the readers were woken or the pipe emptied since |
| `PipeProtocol.EarlyReturnStrands` | p5/xv6-public/pipe.c:86-89 | a pipewrite that returns -1 on a full pipe, killed or without a read end, leaves every sleeping reader asleep on it with nobody about to wake it |
| `PipeProtocol.LostWakeup` | p5/xv6-public/pipe.c:86-89 | runs in which a killed writer, or one that finds the read end closed, leaves a reader asleep on a full pipe |
| `PipeProtocol.NeverLostIff` | p5/xv6-public/pipe.c:78-121 | over all runs no reader sleeps on a pipe with bytes or without a writer while both locks are free, if and only if nobody is killed and the read end stays open |
| `PipeProtocol.Fifo` | p5/xv6-public/pipe.c:78-121 | the bytes that readers have taken are a prefix of the bytes that writers have put in, at most 512 behind |
| `PipeCalls.DeliveredInOrder` | p5/xv6-public/pipe.c:101-121 | in every run the bytes taken are those that the pipereads returned, one call after the other in the order of their returns, and those that the reader which holds the lock is about to return |
| `PipeCalls.Served` | p5/xv6-public/pipe.c:78-121 | in every run what a process has put into the pipe since its call is the first i bytes of the caller's buffer in order, and what it has taken is what its piperead holds for its caller |
| `PipeCalls.Returned` | p5/xv6-public/pipe.c:60-121 | at every return: pipewrite returns n with the whole buffer accepted, or -1 with the pipe full and the read end closed or the process killed; piperead returns the number of bytes it took, the last ones read, which is 0 only for n = 0 or an empty pipe without a writer, or -1 with an empty pipe, a writer and the process killed; pipeclose has closed its end |
| `PipeCalls.EndsClosed` | p5/xv6-public/pipe.c:60-76 | in every run an end of the pipe is open until, and only until, a pipeclose of that end |
| `PipeCalls.KilledSleepers` | p5/xv6-public/pipe.c:107-112 | in every run a process on its way to sleep or asleep in the pipe is killed if and only if the kill came after its test of killed |
| `PipeCalls.KilledReaderSleeps` | p5/xv6-public/proc.c:853-873 | and such a run exists: a killed reader sleeps on an empty pipe with nobody about to wake it |
| `PageTables.MapUserKeeps` | p5/xv6-public/vm.c:73 | storing an entry for a loose frame gives that frame this one use |
| `PageTables.UnmapKeeps` | p5/xv6-public/vm.c:269-276 | freeing a mapped frame and clearing its entry removes that page from the flat map and no other |
| `PageTables.WithTableEntries` | p5/xv6-public/vm.c:44-53 | a new zeroed page table leaves the flat map as it was |
| `PageTables.PushKeeps` | p5/xv6-public/kalloc.c:59-77 | kfree links the frame before the list, which stays without repetition and apart from all frames in use |
| `PageTables.PopKeeps` | p5/xv6-public/kalloc.c:82-95 | kalloc takes the first frame and leaves the rest of the list |
| `VirtualMemory.Vm.KAlloc` | p5/xv6-public/kalloc.c:82-95 | fails exactly if no frame is free, and else returns a frame that nobody uses |
| `VirtualMemory.Vm.KFree` | p5/xv6-public/kalloc.c:59-77 | the frame is free again; free and used frames together stay the same set |
| `VirtualMemory.Vm.FreeRange` | p5/xv6-public/kalloc.c:46-53 | freerange makes exactly the whole pages between two addresses free, each once |
| `VirtualMemory.Vm.WalkPgdir` | p5/xv6-public/vm.c:32-55 | finds the page table of a page, or allocates one without changing any flat map; 0 exactly without a table and, when allocating, without memory |
| `VirtualMemory.Vm.MapPage` | p5/xv6-public/vm.c:68-78 | one round of mappages changes the flat map at that page only, and fails exactly if a page table is missing and no frame is free |
| `VirtualMemory.Vm.MapPages` | p5/xv6-public/vm.c:57-80 | maps a kernel range to consecutive frames; succeeds exactly if there are frames for the missing page tables |
| `VirtualMemory.Vm.DeallocUvm` | p5/xv6-public/vm.c:251-279 | with its jumps to the next directory entry removes and frees exactly the mapped pages from PGROUNDUP(newsz) up to oldsz, of this address space only |
| `VirtualMemory.Vm.AllocUvm` | p5/xv6-public/vm.c:219-249 | succeeds exactly if there are frames for the pages and the missing tables, and maps zeroed pages there and nowhere else; on failure the flat maps and all contents are as before |
| `VirtualMemory.Vm.FreeVm` | p5/xv6-public/vm.c:281-298 | returns every page, table and directory of one address space to the free list, each once, and nothing of another |
| `VirtualMemory.Vm.SetupKvm` | p5/xv6-public/vm.c:117-136 | a new address space with exactly the kernel's mappings if 65 frames are free; else everything is given back |
| `AddressSpaces.KernelProtected` | p5/xv6-public/vm.c:105-115 | in the kernel part of every address space no page is open to user code, every present page but those of the text can be written, and no two are one frame |
| `AddressSpaces.UserFlags` | p5/xv6-public/vm.c:241 | the entry of a user page names its frame and is present, writable and open to user code |
| `VirtualMemory.KInit` | p5/xv6-public/main.c:18-36 | after kinit1, kvmalloc and kinit2 every page after the kernel is free or part of the kernel address space, and the memory invariant holds |
| `VirtualMemory.Vm.CopyPage` | p5/xv6-public/vm.c:326-339 | one round of copyuvm: a fresh frame with the parent's contents and flags, or no change but page tables |
| `VirtualMemory.Vm.CopyUvm` | p5/xv6-public/vm.c:313-345 | the child has fresh frames with equal contents and flags and the parent is unchanged; it succeeds exactly if 65 + n + ceil(n/1024) frames are free for n pages, and a failure leaks nothing |
| `VirtualMemory.Boot` | p5/xv6-public/main.c:18-37 | booting and forking the first process reach a state with three address spaces and the same set of frames, in which mmap and fork can be called |
| `AddressSpaces.NeedsNext` | p5/xv6-public/vm.c:232-247 | mapping pages in order allocates one page table for each directory entry that had none |
| `AddressSpaces.BuildUndo` | p5/xv6-public/vm.c:342-344 | freevm of a half-built child gives back exactly what it was made of |
| `AddressSpaces.FixedInRange` | p5/xv6-public/proc.c:189-192 | the MAP_FIXED test on 32-bit sums accepts exactly the ranges inside the mmap area and those whose end wraps |
| `VirtualMemory.Vm.IsRegionFree` | p5/xv6-public/proc.c:44-61 | true exactly if no page of the region, counted from the address's page, is present, or its end goes past 2^32 |
| `VirtualMemory.Vm.Place` | p5/xv6-public/proc.c:161-193 | without MAP_FIXED finds the lowest free region from VMA_START, never past VMA_END because KERNBASE is mapped, and fails exactly if there is none; with it accepts exactly the free ranges of the mmap area and those that wrap |
| `VirtualMemory.Vm.MapRegion` | p5/xv6-public/proc.c:210-246 | maps exactly the region's pages to zeroed frames, or restores the flat maps; succeeds exactly if there are enough frames |
| `VirtualMemory.Vm.Mmap` | p5/xv6-public/proc.c:149-260 | unless MAP_FIXED gives a range past 2^32: a successful call adds exactly its pages, and keeps the memory invariant, if and only if MAP_FIXED gives no address inside a page; without such an address it succeeds exactly if the length is positive and a VMA slot, a region and enough frames exist; the first free slot records it; a failure of an aligned call changes no flat map |
| `VirtualMemory.Vm.MapUnaligned` | p5/xv6-public/vm.c:57-80 | at an address inside a page the loop ends in success, failure or a panic exactly as the free frames, the next page and the length decide; a success also maps the next page, to a frame that nobody allocated for it; what a failure leaves behind is stated case by case |
| `VirtualMemory.MmapSpills` | p5/xv6-public/proc.c:186-246 | right after boot, mmap of one page at VMA_START + 1 with MAP_FIXED succeeds and breaks the memory invariant |
| `GrepMatcher.MatchHere` | p5/xv6-public/grep.c:84-96 | true exactly if the text begins with pieces that fit the pattern's items, up to its end for $ |
| `GrepMatcher.MatchStar` | p5/xv6-public/grep.c:98-106 | true exactly if the text begins with any number of c and then a match of the rest |
| `GrepMatcher.Match` | p5/xv6-public/grep.c:72-82 | true exactly if some suffix of the text, or the text itself for ^, begins with a match |
| `GrepMatcher.MatchesThen` | p5/xv6-public/grep.c:84-106 | a pattern with a first item matches exactly if that item takes some first part and the rest matches what is left |
| `ShellGrammar.LexWhole` | p5/xv6-public/sh.c:266-308 | every word token is a maximal run of word characters |
| `ShellTree.LexKeeps` | p5/xv6-public/sh.c:266-308 | the tokens of a line spell it out without its white space: no character is lost, repeated or moved |
| `ShellGrammar.LineSound` | p5/xv6-public/sh.c:344-359 | an accepted line is derived by the grammar, and the parser's tree is the derivation's |
| `ShellGrammar.LineComplete` | p5/xv6-public/sh.c:344-359 | a line that the grammar derives is accepted with that tree if no command has ten arguments |
| `ShellGrammar.ParsesGrammar` | p5/xv6-public/sh.c:327-342 | a whole line is parsed to a tree if and only if the grammar derives it with that tree and its commands fit |
| `ShellGrammar.Unambiguous` | p5/xv6-public/sh.c:327-342 | no line has two such trees |
| `ShellTree.LineAgrees` | p5/xv6-public/sh.c:374-397 | the redirections of an accepted line are in its tree in their order, the outer ones later, each with its file and < as (O_RDONLY, 0), > and >> as (O_WRONLY/O_CREATE, 1); all other words are its arguments, in their order |
| `ShellTree.RoundTrip` | p5/xv6-public/sh.c:327-372 | printing a tree, with parentheses only where its shape needs them, and parsing the line gives the tree back |
| `ShellTree.AcceptedTrees` | p5/xv6-public/sh.c:327-446 | the trees of accepted lines are exactly those with words at the leaves, at most nine arguments a command, and descriptor 0 for reading and 1 for writing |
| `Shell.Parser.GetToken` | p5/xv6-public/sh.c:265-308 | returns the next token and where its word begins and ends, and moves past it and the blanks after it |
| `Shell.Parser.Peek` | p5/xv6-public/sh.c:310-320 | tells whether the next token begins with one of the characters, and reads none |
| `Shell.Parser.ParseRedirs` | p5/xv6-public/sh.c:374-397 | follows the redirection part of the grammar, error for error, and terminates; it adds the redirections it reads, in order, around the command and changes no argument |
| `Shell.Parser.ParseExec` | p5/xv6-public/sh.c:415-446 | follows the command part of the grammar, with at most nine arguments |
| `Shell.Parser.ParseBlock` | p5/xv6-public/sh.c:399-413 | follows the block part of the grammar |
| `Shell.Parser.ParsePipe` | p5/xv6-public/sh.c:361-372 | follows the pipe part of the grammar |
| `Shell.Parser.ParseLine` | p5/xv6-public/sh.c:344-359 | follows the line part of the grammar; the mutual recursion terminates on every line by remaining characters, then grammar level |
| `Shell.Parser.NulTerminate` | p5/xv6-public/sh.c:448-493 | writes NUL exactly at the word ends of the tree |
| `Shell.Parser.ParseCmd` | p5/xv6-public/sh.c:327-342 | accepts exactly the lines of the grammar; the tree has the redirections and arguments of the line in order; afterwards every argument and file name in the tree is a NUL-terminated string equal to its token |
| `Shell.WordKept` | p5/xv6-public/sh.c:448-493 | no word's end lies inside another word, so no NUL destroys one |
| `WfsLog.ParseAppend` | p7/mount.wfs.c:19-32 | a log of whole entries followed by whole entries parses to both lists |
| `WfsLog.FreshNumber` | p7/mount.wfs.c:34-50 | the largest number in use plus one is in use by no live entry, and by none at all while nothing is deleted |
| `WfsLog.CreateNewest` | p7/mount.wfs.c:172-200 | after a create only the parent and the new inode have a new newest version, and the parent's names are the old ones and the new one |
| `WfsLog.CreateWalk` | p7/mount.wfs.c:66-97 | in unlink-free logs, after a create every path leads where it led before, and the new path to the new inode, and no other path appears |
| `WfsLog.CreateLinked` | p7/mount.wfs.c:172-200 | a create keeps the log unlink-free with every name leading to an inode |
| `WfsLog.WriteNewest` | p7/mount.wfs.c:295-306 | a write gives a new version to one inode only |
| `WfsLog.WriteWalk` | p7/mount.wfs.c:66-97 | a write changes no path |
| `WfsLog.UnlinkShows` | p7/mount.wfs.c:362-377 | unlink uncovers the version before the newest; the inode is gone if and only if there was no other |
| `WfsLog.NumberReused` | p7/mount.wfs.c:34-50 | through all creates, writes and unlinks since mkfs, the next number is one already in the log if and only if every entry with the largest number ever handed out is deleted |
| `WfsLog.RunContiguous` | p7/mount.wfs.c:34-50 | no number up to the largest is skipped, and the root stays |
| `WfsLog.NumberTaken` | p7/mount.wfs.c:362-377 | a create and an unlink after which the next number is one already in the log |
| `Wfs.FileSystem.Mkfs` | p7/mkfs.wfs.c:46-64 | a new disk holds one entry, the empty root directory, with every inode field set |
| `Wfs.FileSystem.GetLogEntry` | p7/mount.wfs.c:19-32 | returns the newest entry of the inode that is not deleted, or 0 exactly if there is none |
| `Wfs.FileSystem.MaxInodeNum` | p7/mount.wfs.c:34-50 | returns the largest number in use |
| `Wfs.FileSystem.GetInodeNumber` | p7/mount.wfs.c:52-64 | returns the number under the first equal name of the directory, or -1 exactly if there is none |
| `Wfs.FileSystem.PathToLogEntry` | p7/mount.wfs.c:66-97 | resolves the path name by name through newest versions |
| `Wfs.FileSystem.MyMknod` | p7/mount.wfs.c:146-202 | fails exactly for a name that exists; else the log gains the parent's new version, which has one entry more and is otherwise as it was, and an empty regular file with every inode field set; it still parses to whole entries up to the head, and no byte below the old head changes |
| `Wfs.FileSystem.MyMkdir` | p7/mount.wfs.c:204-260 | the same for an empty directory |
| `Wfs.FileSystem.MyWrite` | p7/mount.wfs.c:282-309 | the log gains one version of the file with the bytes at the offset and its other bytes kept, and no byte below the old head changes |

## Left out

- FreeList.Heap.Malloc: requests of 2^31 bytes or more are not modelled, because sbrk would then get a negative count.
- FreeList.Heap.MoreCore: sbrk is a parameter that returns memory above all earlier memory; a caller that moves the
  break itself is not modelled.
- FileSystem.Fs.ReadI: files of type T_DEV call a device driver and are not modelled; the same holds for
  FileSystem.Fs.WriteI.
- FileSystem.Fs.FileWrite: only the inode case; the pipe case is PipeRing and PipeProtocol. filewriteoff has the same
  loop at a given offset.
- FileSystem.Fs.WriteI: where balloc panics for want of blocks, the state that is left is not described, but for the
  bitmap being full.
- PipeProtocol.NoLostWakeup: the unconditional claim fails of the code, see PipeProtocol.LostWakeup; both the condition
  on a moment and the one on all runs are exact.
- PipeRing.Pipe.CopyIn: stops where the source goes to sleep; PipeProtocol models the sleep.
- VirtualMemory.Vm.Mmap: anonymous memory only; file pages come from readi, which is modelled apart. MAP_FIXED with a
  range that ends past 2^32 is accepted by the source's test (AddressSpaces.FixedInRange); that mmap goes on is shown,
  what it then does to pages above KERNBASE is not followed.
- VirtualMemory.Vm.MapUnaligned: after a panic the state is not described.
- VirtualMemory.Vm.DeallocUvm: only up to KERNBASE, as all callers pass.
- VirtualMemory.Vm.KFree: the panics for addresses below the kernel's end or above PHYSTOP are not modelled; frames are
  those that kinit put on the list. VirtualMemory.Vm.MapUnaligned, which frees another, has the test for PHYSTOP.
- VirtualMemory.Vm.SetupKvm: the symbol data is a page between the kernel's text and PHYSTOP, as the linker script
  places it.
- Shell.Parser.ParseExec: the exec node that redirections already point to is extended by rebuilding the tree, so the
  aliasing of that node is not modelled.
- Wfs.FileSystem.MyMknod: assumes an existing parent directory, a name shorter than 32 bytes and room on the disk, none
  of which the source tests; the same holds for Wfs.FileSystem.MyMkdir and, for room, Wfs.FileSystem.MyWrite. The head
  is a field of its own instead of bytes 4 to 8 of the disk.
- Wfs.FileSystem.PathToLogEntry: a path whose names lead through a regular file is excluded, because the source then
  reads the file's bytes as directory entries, past the end of the entry if they do not divide evenly; the same holds
  for the parent paths of Wfs.FileSystem.MyMknod and Wfs.FileSystem.MyMkdir.
- Wfs.FileSystem.MyWrite: a path through a regular file is excluded likewise, and one that leads to a directory, whose
  bytes the source would overwrite as those of a file. Bytes between the old end of the file and a larger offset are
  whatever the disk held, as in the source.
- WfsLog.CreateWalk: holds for unlink-free logs only; WfsLog.UnlinkShows and WfsLog.NumberReused say what unlink does.
- FsRecovery.Survives: that operations leave a sound file system is a hypothesis about the run; DurableWrite discharges
  it for a writei or an itrunc that runs alone.
- DurableWrite.WriteDurably: the blocks that writei logged go through the log once each, with their last contents, in
  some order; the source calls log_write as it goes, and absorption leaves the same contents and set of blocks. Of
  filewrite's chunks it is one.
- DurableWrite.TruncDurably: for at most nine bitmap blocks; with more, a file spread over all of them would log more
  blocks than an operation reserves. The same holds for it as for DurableWrite.WriteDurably.
- PipeCalls.KilledReaderSleeps: whether a later write or close wakes the process is not followed.
- PipeProtocol.EventKeeps: pipeclose by both ends frees the pipe, which is not modelled, nor is pipealloc.
- GrepMatcher.Match: the buffer loop of grep() around it, which drops a buffer without a newline, is not modelled.
- Sleep-locks and spin-locks inside single operations of bio.c, fs.c and vm.c: each operation is one step there.
- ialloc, iget, ilock, iput, directories, namex and the system calls above fs.c.
- exec, fork outside copyuvm, loaduvm, clearpteu, munmap, the page-fault path and clean_vma.
- runcmd and the rest of the shell after parsing.
- my_read, my_readdir, my_getattr, wfs_unlink on bytes, FUSE glue and fsck of p7.
- Liveness: which sleeper runs next, and whether a waiting process is ever admitted.
- Interrupts, device drivers, boot code, the scheduler changes of p4, and p1, p3 and p6.
