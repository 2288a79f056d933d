# Verified models of the xv6 course kernels

This project models the cores of the repository's xv6 variants and proves what they are for. Each core is
modelled twice where the source changes things in place: as a specification on values, about which the theorems
are proved, and as a class with the source's fields and loops, whose methods are proved to compute that
specification.

* **Redo log** (`Blocks`, `Log`, `LogRuns`, `LogDevice`, `LogCache`). A disk is a sequence of blocks, commit and
  recovery are the lists of block writes they issue, and a crash keeps a prefix of such a list. `LogRuns` is the state machine
  of calls, commits, power losses and recoveries; `LogDevice` is the code, loop by loop; `LogCache` puts the log
  beside the buffer cache. `log.size` is a parameter.
* **User-level allocator** (`Lists`, `Heap`, `Umalloc`). Memory is two arrays of header fields indexed by unit
  address; the free list, the live blocks and the owner of every unit are kept beside them for the proof.
* **File system blocks** (`Volume`, `PageRun`, `Fs`, `File`). Free map, inodes and indirect blocks are read from the
  disk blocks themselves; a map from used blocks to owners gives each block one owner; a file is a byte sequence.
* **Buffer cache** (`Ring`, `Bcache`, `Bio`). The circular list in arrays of links, and every section that runs under
  the cache lock or a buffer's sleep lock as one step. A client's duties are the preconditions of its steps.
* **Process table** (`Proc`, `ProcTable`, `Families`) and **pipe** (`PipeQueue`, `PipeRing`). Each critical section
  under the lock is one step, and runs are arbitrary interleavings of steps on any number of CPUs.
* **Page tables and swapping** (`Memory`, `Spaces`, `Vm`, `Swapping`, `Pager`). Two-level tables are words in physical
  pages; an address space is read from them as a partial map; a map from pages to owners gives each page one use.
  `Vm` is Part_A's vm.c; `Pager` adds Part_B's swapping on top of `Vm` and `Fs`.
* **Shell parser** (`Shell`, `ShellPrint`, `ShellSyntax`, `ShellTokens`, `ShellParser`) and **hybrid scheduler**
  (`Hybrid`). `Numbers` holds the constants of all modules against those of the headers.

Panics are results, or are proved unreachable. `kalloc` hands out any free page, `sbrk` answers as its parameter
says, and the disk is the in-memory disk of memide.c. What the documentation or the names promise and the code does
not do is stated as such: `log_write` can panic within a call's budget (`LogRuns.AbsorbedWriteCanPanic`,
`LogRuns.ShippedLogCanPanic`), its test is made before the lock is taken, so that a log of at most LOGSIZE blocks
can overflow (`LogRuns.OverflowsExactly`): into a home block (`LogRuns.OverflowHitsHome`) or, at the size mkfs
makes, into a commit that finds no buffer (`LogCache.OverflowedCommit`), which a full larger log leads to as well
(`LogCache.LargeLogStarves`); a killed writer can leave a reader asleep in front of a full pipe
(`PipeQueue.KilledWriterStrandsReader`), the victim of swapping is chosen by address and not by use
(`Pager.PresentIsAccessible`), and the hybrid scheduler can dereference null (`Hybrid.Scheduler.Select`,
`Hybrid.BurstOfIntMaxCrashes`) and never ends the quantum of a process that moves its own tick count past the check
(`Hybrid.CountEscapes`).

## Model

| member | source | states |
|---|---|---|
| `Log.HeaderRoundTrip` | Assignment 3/G17/Part_B/log.c:84-113 | the header block written by write_head has the count in word 0 and the block numbers in the words behind it, and read by read_head gives the same numbers back, whatever the block held before |
| `Blocks.WordBytes` | Assignment 3/G17/Part_B/mkfs.c:55-65 | word i of a block is bytes 4i to 4i+3, least significant first, the layout that mkfs writes |
| `Log.RecoveredAt` | Assignment 3/G17/Part_B/log.c:69-122 | what recovery does to every block: a logged block gets its log copy, every other home block stays, the header is empty afterwards |
| `Log.LogDecidesRecovery` | Assignment 3/G17/Part_B/log.c:69-122 | two disks with the same log that differ only in logged home blocks recover to the same home blocks |
| `Log.CrashInRecovery` | Assignment 3/G17/Part_B/log.c:115-122 | a crash after any number of the block writes of recovery loses nothing: recovering again reaches the same home blocks |
| `Log.AnyCrashesInRecovery` | Assignment 3/G17/Part_B/log.c:115-122 | any number of crashes, each after any block write of the recovery it interrupts: the recovery that completes leaves the home blocks an uninterrupted one would have left |
| `Log.RecoveryIdempotent` | Assignment 3/G17/Part_B/log.c:115-122 | recovering a recovered disk changes no block, the header included |
| `Log.CommitIsRecovery` | Assignment 3/G17/Part_B/log.c:192-202 | a commit that reaches its header write goes on exactly as a recovery of that disk would |
| `Log.CrashInCommit` | Assignment 3/G17/Part_B/log.c:177-202 | cut a commit after any number of its block writes and recover: all home blocks are old if the header was not yet written, and all are new otherwise |
| `Log.CrashAtomicity` | Assignment 3/G17/Part_B/log.c:69-122 | a crash anywhere in commit and any number of crashes anywhere in the recoveries after it: the home blocks are wholly those before the transaction or wholly those after it, decided by the header write |
| `Log.FreshLogCommits` | Assignment 3/G17/Part_B/mkfs.c:110-111 | on a disk whose header block is zeroed, as mkfs leaves it, a transaction of any one home block can be committed, so the theorems above speak of runs that exist |
| `Log.CommitCompletes` | Assignment 3/G17/Part_B/log.c:192-202 | an uninterrupted commit leaves every home block as the transaction wants it and an empty header, so that the next transaction can start |
| `LogRuns.Do` | Assignment 3/G17/Part_B/log.c:126-233 | every action (begin, the unlocked test of a logged write, its append, end, commit, power loss anywhere, recovery) takes a good state to a good state, in which reservations fit, logged blocks are distinct and pinned and a commit runs alone, if and only if it is not the append of a new block to a log with no block left |
| `LogRuns.RoomyNeverOverflows` | Assignment 3/G17/Part_B/log.c:213-233 | with log.size over LOGSIZE no append of a call within its budget overflows, whatever the log held when the test was made |
| `LogRuns.RunInvExactly` | Assignment 3/G17/Part_B/log.c:126-233 | a run stays good throughout if and only if none of its appends overflows; with log.size over LOGSIZE none does |
| `LogRuns.ReservationsFit` | Assignment 3/G17/Part_B/log.c:126-233 | in every interleaving, with log.size over LOGSIZE or without an overflow, the logged blocks plus the unused reservations of outstanding calls are at most LOGSIZE, logged blocks are distinct, and committing means nothing is outstanding |
| `LogRuns.RunsRefineStore` | Assignment 3/G17/Part_B/log.c:126-233 | over whole runs with power losses, all of them if log.size exceeds LOGSIZE and else those without an overflow, the home blocks that a recovery would show change only by installing every block of the open transaction in one step |
| `LogRuns.UpIsDurable` | Assignment 3/G17/Part_B/log.c:192-202 | while the machine is up its disk already shows the durable home blocks |
| `LogRuns.BeginAdmits` | Assignment 3/G17/Part_B/log.c:126-142 | every good state with nobody committing in which the logged blocks and ten for each outstanding call and one more make at most 30 has a run of one step to the state with one call more |
| `LogRuns.BeginRefuses` | Assignment 3/G17/Part_B/log.c:130-137 | no other state has one |
| `LogRuns.WriteLands` | Assignment 3/G17/Part_B/log.c:213-233 | a call within its budget that finds a block of the log free gets its block, with these bytes, into the open transaction |
| `LogRuns.LastEndCommits` | Assignment 3/G17/Part_B/log.c:146-174 | the end of the only outstanding call leads to a state in which all pending changes are durable, the log is empty and no call is outstanding |
| `LogRuns.CommitAbs` | Assignment 3/G17/Part_B/log.c:192-202 | a commit makes exactly the pending changes durable |
| `LogRuns.CrashAbs` | Assignment 3/G17/Part_B/log.c:192-202 | a power loss after k block writes of a commit makes all pending changes durable if k is past the header write, and none otherwise |
| `LogRuns.NoCommitUnderCall` | Assignment 3/G17/Part_B/log.c:146-163 | end_op never finds a commit under way, and log_write never finds itself outside a call: those two panics are unreachable |
| `LogRuns.PanicsExactlyWhenFull` | Assignment 3/G17/Part_B/log.c:218-221 | for a call within its budget, the test of log_write panics exactly when the log is full; if log.size exceeds LOGSIZE, that needs every outstanding call to have used its whole reservation, and then it hits only a block that needs no space |
| `LogRuns.AbsorbedWriteCanPanic` | Assignment 3/G17/Part_B/log.c:218-230 | the claim that log_write never panics within budget is false: a run of three calls that log ten blocks each, after which logging one of those blocks again panics |
| `LogRuns.FreshIsFillable` | Assignment 3/G17/Part_B/mkfs.c:110-111 | a machine that has just recovered with an empty header block and LOGSIZE home blocks behind the log is a state from which the runs of the two panics exist |
| `LogRuns.ShippedLogCanPanic` | Assignment 3/G17/Part_B/mkfs.c:25 | with the log size that mkfs writes, a call within its budget panics on a block that is new |
| `LogRuns.OverflowRun` | Assignment 3/G17/Part_B/log.c:218-223 | a run in which reservations fit and every call passes the test, and two calls that test before either appends put one block more into the log than it has, for every log.size from 2 to LOGSIZE, the size mkfs makes included |
| `LogRuns.OverflowsExactly` | Assignment 3/G17/Part_B/log.c:218-223 | from an idle machine with LOGSIZE home blocks an overflow can be reached if and only if log.size is from 2 to LOGSIZE |
| `LogRuns.OverflowHitsHome` | Assignment 3/G17/Part_B/log.c:178-189 | after an overflow write_log, if it finds its buffers, writes the home block behind the log: a power loss there and recovery leave that block with the bytes of another, though no call logged it |
| `LogCache.PanicsExactly` | Assignment 3/G17/Part_B/bio.c:65-96 | with the logged blocks pinned, bread of a block without a buffer panics if and only if the logged blocks and the other buffers in use number NBUF |
| `LogCache.CommitStarvesExactly` | Assignment 3/G17/Part_B/log.c:178-189 | in the commit of any transaction, with no other buffer in use, bread of a log block finds no buffer if and only if LOGSIZE blocks are logged; with a log of at most LOGSIZE blocks, like that of mkfs, it always finds one |
| `LogCache.LargeLogStarves` | Assignment 3/G17/Part_B/log.c:178-189 | with log.size over LOGSIZE a run fills the log, and then the first bread of its commit panics in every cache that has those blocks pinned |
| `LogCache.OverflowedCommit` | Assignment 3/G17/Part_B/log.c:178-189 | after an overflow, with no other buffer in use, the commit finds a buffer if and only if log.size is under LOGSIZE; with the size mkfs makes its first bread panics, before anything is written |
| `LogCache.PinnedCache` | Assignment 3/G17/Part_B/bio.c:25-35 | there are such caches: for any logged blocks that fit, a coherent one with exactly their buffers pinned and no other in use |
| `LogDevice.LogDevice.constructor` | Assignment 3/G17/Part_B/log.c:40-49 | the log structure of a machine that has just been switched on: blank, beside whatever the disk holds |
| `LogDevice.LogDevice.Initlog` | Assignment 3/G17/Part_B/log.c:53-66 | mounting a log issues exactly the writes of recovery and leaves the machine in the state in which runs start: the recovered disk, nothing logged or outstanding, the invariant holding |
| `LogDevice.LogDevice.ReadHead` | Assignment 3/G17/Part_B/log.c:85-96 | the header in memory is the header on disk |
| `LogDevice.LogDevice.WriteHead` | Assignment 3/G17/Part_B/log.c:102-113 | one block write puts the header in memory on disk |
| `LogDevice.LogDevice.InstallTrans` | Assignment 3/G17/Part_B/log.c:69-82 | the loop issues exactly the home writes of a recovery, in order |
| `LogDevice.LogDevice.RecoverFromLog` | Assignment 3/G17/Part_B/log.c:115-122 | the code performs exactly the block writes of the recovery that the crash theorems are about |
| `LogDevice.LogDevice.WriteLog` | Assignment 3/G17/Part_B/log.c:177-190 | the loop issues exactly the log writes of a commit, in order |
| `LogDevice.LogDevice.Commit` | Assignment 3/G17/Part_B/log.c:192-202 | the code performs exactly the block writes of the commit that the crash theorems are about |
| `LogDevice.LogDevice.BeginOp` | Assignment 3/G17/Part_B/log.c:126-141 | one turn of the wait loop admits the call if and only if nobody commits and lh.n + (outstanding + 1) * 10 <= 30 |
| `LogDevice.LogDevice.LogTest` | Assignment 3/G17/Part_B/log.c:218-221 | the test before the lock: exactly a panic for a full log or outside of a transaction, else the call has passed; the test step of a run |
| `LogDevice.LogDevice.LogAppend` | Assignment 3/G17/Part_B/log.c:223-232 | under the lock, whatever happened since the test: the block is logged once with its newest contents; within the budget the append step of a run |
| `LogDevice.LogDevice.LogWrite` | Assignment 3/G17/Part_B/log.c:213-233 | both with nothing in between: the panic exactly for a full log or outside of a transaction, else the block is logged once, and within the budget the state stays good |
| `LogDevice.LogDevice.EndOp` | Assignment 3/G17/Part_B/log.c:146-174 | the last call to end issues exactly the writes of the commit and leaves the log empty; any other leaves disk and log as they are |
| `Umalloc.NUnitsSuffice` | Assignment 3/G17/Part_B/umalloc.c:69 | the units malloc computes hold the bytes asked for exactly when the sum in the rounding did not wrap around, and waste less than one unit |
| `Umalloc.SbrkSuffices` | Assignment 3/G17/Part_B/umalloc.c:46-60 | the int that sbrk is given is the size of the block morecore goes on to free, exactly for requests up to 2^31 - 16 bytes and those whose rounding has wrapped around |
| `Heap.BlocksDisjoint` | Assignment 3/G17/Part_B/umalloc.c:24-90 | no unit is in two blocks, free or live |
| `Heap.FreedInv` | Assignment 3/G17/Part_B/umalloc.c:25-44 | linking a block in at its place and joining it with what it touches leaves one address-ordered circle through base, disjoint blocks that tile the memory from sbrk, and no two free blocks that touch |
| `Heap.FreedFields` | Assignment 3/G17/Part_B/umalloc.c:33-43 | the header fields that the code assigns are those of the heap with the block linked in and joined |
| `Heap.FreedSizes` | Assignment 3/G17/Part_B/umalloc.c:25-44 | no other live block changes size, and some free block is at least as large as the one freed |
| `Heap.TakeInv` | Assignment 3/G17/Part_B/umalloc.c:76-84 | taking a whole free block keeps the circle, the gaps and the tiling |
| `Heap.SplitInv` | Assignment 3/G17/Part_B/umalloc.c:78-84 | cutting the tail off a free block keeps the circle, the gaps and the tiling, and makes a live block of the size asked for |
| `Heap.GrownInv` | Assignment 3/G17/Part_B/umalloc.c:47-61 | memory from sbrk enters the heap as one live block and every invariant stays |
| `Heap.AtPlace` | Assignment 3/G17/Part_B/umalloc.c:30-32 | the exit tests of the loop in free hold exactly at the one place of the circle where the block belongs |
| `Heap.SeenAll` | Assignment 3/G17/Part_B/umalloc.c:74-89 | a whole turn of the circle has looked at every free block |
| `Heap.ScribbledInv` | Assignment 3/G17/Part_B/umalloc.c:63-90 | a user storing into the units behind the header of a live block cannot break the allocator |
| `Umalloc.Allocator.constructor` | Assignment 3/G17/Part_B/umalloc.c:21-22 | before the first call there is no list and nothing is live |
| `Umalloc.Allocator.Free` | Assignment 3/G17/Part_B/umalloc.c:25-44 | the loop ends, and free gives back exactly the one block, joined with its neighbours where they touch |
| `Umalloc.Allocator.Morecore` | Assignment 3/G17/Part_B/umalloc.c:47-61 | the memory sbrk grants, at least 4096 units, is on the free list afterwards; without a grant nothing changes |
| `Umalloc.Allocator.Malloc` | Assignment 3/G17/Part_B/umalloc.c:64-90 | the loop ends; 0 is returned exactly when sbrk fails and every free block is smaller than the units needed; otherwise the block is new, holds the bytes asked for and fewer than eight more, and no live block changes; sbrk is asked at most once, and only when nothing fits |
| `Umalloc.FreedIsReused` | Assignment 3/G17/Part_B/umalloc.c:24-90 | after free, a malloc of no more than the freed size succeeds without asking sbrk |
| `Umalloc.Allocator.MallocListed` | Assignment 3/G17/Part_B/umalloc.c:74-89 | the same for the search loop, once there is a list |
| `Umalloc.Allocator.UserStore` | Assignment 3/G17/Part_B/umalloc.c:64-90 | a store of a user into its own block keeps the allocator valid |
| `Volume.UsedMark` | Assignment 3/G17/Part_B/fs.c:67-70 | setting or clearing the map bit of a block changes the bit of that block and of no other |
| `Volume.NewVolumeInv` | Assignment 3/G17/Part_B/fs.c:58-140 | a new file system, with only the blocks in front of the data in use, satisfies the invariant |
| `Volume.SlotIsSole` | Assignment 3/G17/Part_B/fs.c:418-445 | a block named by a slot is named by no other slot of any inode: every used block has one owner |
| `Volume.AssignInv` | Assignment 3/G17/Part_B/fs.c:424-439 | storing a newly allocated block in an empty slot keeps one owner for every used block |
| `Volume.AssignGrown` | Assignment 3/G17/Part_B/fs.c:424-439 | an allocation for one slot changes no other slot, no length, and no block already owned but the indirect block it is stored in |
| `Volume.GrownContent` | Assignment 3/G17/Part_B/fs.c:418-445 | allocations change the contents of no file |
| `Volume.PokeInv` | Assignment 3/G17/Part_B/fs.c:544-548 | overwriting part of a data block of a file keeps the invariant |
| `Volume.PokeByte` | Assignment 3/G17/Part_B/fs.c:544-548 | overwriting part of a data block changes exactly those bytes of that file, and no byte of any other |
| `Volume.ContentOnDisk` | Assignment 3/G17/Part_B/fs.c:417-445 | byte o of a file is byte o % 512 of the block in addrs[o / 512], and past the direct blocks of the block whose number is word o / 512 - 12 of the block in addrs[12], as the inode and the disk have them |
| `Volume.UsedOnDisk` | Assignment 3/G17/Part_B/fs.c:58-81 | block b is in use if bit b % 8 of byte b / 8 of the map on the disk is set |
| `Volume.ByteBits` | Assignment 3/G17/Part_B/mkfs.c:247 | bit k of a byte counts 2^k |
| `Volume.SpliceSplice` | Assignment 3/G17/Part_B/fs.c:543-549 | writing two pieces one behind the other is writing their concatenation |
| `Volume.WrittenContent` | Assignment 3/G17/Part_B/fs.c:543-554 | block by block writes through direct and indirect blocks, and the new length, are one splice of the flat byte sequence |
| `Volume.TruncatedInv` | Assignment 3/G17/Part_B/fs.c:453-480 | truncation keeps one owner for every used block |
| `Volume.TruncatedContent` | Assignment 3/G17/Part_B/fs.c:453-480 | truncation empties one file and leaves the bytes of the others |
| `Volume.FreedNext` | Assignment 3/G17/Part_B/fs.c:459-476 | the block of the next slot is still marked in use when itrunc reaches it, so the panic "freeing free block" is unreachable |
| `Fs.FileSys.Balloc` | Assignment 3/G17/Part_B/fs.c:59-81 | the lowest free block is marked and zeroed; the panic happens exactly when the map is full |
| `Fs.FileSys.Bfree` | Assignment 3/G17/Part_B/fs.c:126-140 | the bit is cleared, or it was clear already and the code panics |
| `Fs.FileSys.Bmap` | Assignment 3/G17/Part_B/fs.c:418-445 | the block of a file at any index, which is in addrs[bn] or is word bn - 12 of the block in addrs[12]; found if it exists (and then nothing changes), else allocated with contents zero; a block handed out had no owner, and only the slots concerned change; an index past MAXFILE is the bmap out-of-range panic and changes nothing, and the panic for lack of space comes only with a full bitmap |
| `Fs.FileSys.Readi` | Assignment 3/G17/Part_B/fs.c:498-521 | a read returns exactly the slice of the file, clipped to its length, and changes nothing; it is refused exactly when the offset is past the end or the sum wraps around |
| `Fs.FileSys.Writei` | Assignment 3/G17/Part_B/fs.c:527-556 | a write at or before the end replaces exactly its bytes and grows the file where it must; every other byte of every file, and every page of eight blocks, is as before; the number of logged blocks is within the budget of the write |
| `Fs.FileSys.Itrunc` | Assignment 3/G17/Part_B/fs.c:453-480 | exactly the blocks of the inode are freed and its addresses cleared, the panic is unreachable, the file is empty and the other files read as before |
| `Fs.ChunkFitsOperation` | Assignment 3/G17/Part_B/file.c:127-133 | a chunk of filewrite, at any alignment, has a budget of at most MAXOPBLOCKS logged blocks, counting data, map, indirect and inode blocks |
| `PageRun.SearchNext` | Assignment 3/G17/Part_B/fs.c:92-103 | each further allocation of the search is the next free block above all earlier ones |
| `PageRun.RunReaches` | Assignment 3/G17/Part_B/fs.c:92-103 | a run of eight free blocks is not passed over by the search |
| `PageRun.RunFound` | Assignment 3/G17/Part_B/fs.c:92-110 | the last eight allocations are the first run of eight free blocks there is |
| `PageRun.NoRun` | Assignment 3/G17/Part_B/fs.c:92-103 | if the search runs out of blocks, there was no run of eight |
| `PageRun.ReturnedAll` | Assignment 3/G17/Part_B/fs.c:104-110 | after the surplus allocations are freed, the map differs from the old one in exactly the eight blocks |
| `Fs.PageTakenInv` | Assignment 3/G17/Part_B/fs.c:88-111 | a page taken keeps one owner for every used block |
| `Fs.PageTakenContent` | Assignment 3/G17/Part_B/fs.c:88-111 | a page taken changes the contents of no file and of no other page |
| `Fs.PageUndone` | Assignment 3/G17/Part_B/fs.c:115-122 | taking a page and freeing it leaves the map, the owners, the inodes, the contents of every file and every other page as they were |
| `Fs.FileSys.BallocPage` | Assignment 3/G17/Part_B/fs.c:88-111 | the result is the smallest b with b..b+7 all free, whatever the fragmentation, and the net effect is to mark those eight; failure is out of blocks or an overrun of the table of NUM entries, with the exact condition of each |
| `Fs.FileSys.BfreePage` | Assignment 3/G17/Part_B/fs.c:115-122 | exactly the eight blocks of the page are freed, without panic, and files read as before |
| `File.AcceptedAll` | Assignment 3/G17/Part_B/file.c:133-153 | a write in chunks is done as a whole exactly when it fits in the largest file; otherwise a whole number of chunks is, and that prefix fits |
| `File.OpenFile.WriteChunk` | Assignment 3/G17/Part_B/file.c:140-151 | one chunk, an operation of its own that starts with nothing logged, is one splice, moves the offset, and logs at most MAXOPBLOCKS blocks |
| `File.OpenFile.FileWrite` | Assignment 3/G17/Part_B/file.c:118-156 | a write of any length is one splice of its accepted prefix, moves the offset by it, leaves other files alone, leaves at most MAXOPBLOCKS blocks in the log of its last operation (each is a WriteChunk), and fails exactly when not everything fits or the length is negative |
| `Bcache.Hit` | Assignment 3/G17/Part_B/bio.c:72-79 | the first loop of bget finds a buffer for the block, or there is none on the list |
| `Bcache.Victim` | Assignment 3/G17/Part_B/bio.c:84-94 | the second loop finds the unreferenced clean buffer furthest back, or there is none |
| `Bcache.VictimIsOldest` | Assignment 3/G17/Part_B/bio.c:84-94 | the recycled buffer is unreferenced and not B_DIRTY, and of all such buffers its last release is longest ago |
| `Bcache.GetPanicsWhen` | Assignment 3/G17/Part_B/bio.c:65-96 | the panic of bget happens exactly when no buffer is for the block and every buffer is referenced or dirty |
| `Bcache.ToFrontPermutes` | Assignment 3/G17/Part_B/bio.c:264-272 | moving a buffer to the front leaves the list a permutation of all NBUF buffers |
| `Bcache.ToFrontByRelease` | Assignment 3/G17/Part_B/bio.c:264-272 | the list stays sorted by the time of last release |
| `Bcache.StepInv` | Assignment 3/G17/Part_B/bio.c:64-275 | every step of every client, in any order, keeps at most one buffer for a block of device 1 and up, the list a permutation in order of release, and each stale disk block in a dirty or held buffer with the newer contents |
| `Bcache.BreadReadsLast` | Assignment 3/G17/Part_B/bio.c:230-240 | when bread has finished, the buffer holds what was last written to the block |
| `Bcache.OnlyStoresWrite` | Assignment 3/G17/Part_B/bio.c:64-275 | no step other than a store by a buffer's holder changes the contents of a block; the cache itself loses and invents nothing |
| `Bcache.InitialInv` | Assignment 3/G17/Part_B/bio.c:43-59 | the cache after binit is coherent, although all buffers are for block 0 of device 0 |
| `Bcache.RunReadsLast` | Assignment 3/G17/Part_B/bio.c:64-275 | over whole runs of any clients, every bread that finishes hands out the last block stored for that number since the start, or the disk's own |
| `Bcache.RecyclesLeastRecent` | Assignment 3/G17/Part_B/bio.c:65-96 | over runs: a bget that finds its block returns that buffer; one that does not takes, of the unreferenced clean buffers, the one whose last reference was given up first in the steps so far, those never used counting in the order of binit; the buffer is for the block afterwards and no other changes |
| `Ring.Unlink` | Assignment 3/G17/Part_B/bio.c:266-267 | the two assignments take a node out of the doubly linked circle and leave a circle of the others in order |
| `Ring.LinkFront` | Assignment 3/G17/Part_B/bio.c:268-271 | the four assignments put a node behind the head of the circle |
| `Bio.BufferCache.constructor` | Assignment 3/G17/Part_B/bio.c:43-59 | binit builds a circle with the last buffer at the front |
| `Bio.BufferCache.Bget` | Assignment 3/G17/Part_B/bio.c:65-96 | the two list walks choose the buffer of the specification, which is for the block and has one reference more, with no other buffer changed; the panic is exactly its panic |
| `Bio.BufferCache.Iderw` | Assignment 3/G17/Part_B/memide.c:39-60 | a dirty buffer goes to the disk, an invalid one comes from it; the panics are told apart exactly |
| `Bio.BufferCache.Bread` | Assignment 3/G17/Part_B/bio.c:230-240 | the buffer holds the last contents written, and iderw never panics here |
| `Bio.BufferCache.Bwrite` | Assignment 3/G17/Part_B/bio.c:243-250 | the buffer's data is on the disk, nothing else on the disk changes |
| `Bio.BufferCache.Pin` | Assignment 3/G17/Part_B/log.c:231 | a buffer marked dirty by log_write is kept from recycling |
| `Bio.BufferCache.Release` | Assignment 3/G17/Part_B/bio.c:254-260 | giving up the lock of a buffer keeps the cache coherent |
| `Bio.BufferCache.Unref` | Assignment 3/G17/Part_B/bio.c:262-274 | with its last reference given up the buffer is next to the head of the list, and no other buffer moves; otherwise the links stay |
| `Proc.StepInv` | Assignment 3/G17/Part_B/proc.c:100-521 | every critical section under ptable.lock, on any CPU, keeps all invariants of the table |
| `Proc.RunsKeepOrder` | Assignment 3/G17/Part_B/proc.c:100-521 | whenever the lock is free, in any run on any number of CPUs: nonzero pids are distinct; a process is RUNNING exactly if it is current on a CPU, and then on one; a non-null parent of a process in use is neither UNUSED nor ZOMBIE; nobody sleeps in wait with a ZOMBIE child; each exit is reaped at most once |
| `Proc.ExitsAreReapsAndZombies` | Assignment 3/G17/Part_B/proc.c:292-336 | the processes that exited are those reaped and the zombies, and no process is both |
| `Proc.ExitInv` | Assignment 3/G17/Part_B/proc.c:268-286 | exit keeps the invariants although it wakes, re-parents and turns into a zombie in one section |
| `Proc.NoZombieLeft` | Assignment 3/G17/Part_B/proc.c:270-281 | exit leaves no process asleep in wait in front of a zombie child, its own parent and initproc included |
| `Proc.WaitSleepInv` | Assignment 3/G17/Part_B/proc.c:300-334 | wait falls asleep only after it has seen that no child is a zombie |
| `Proc.ReapInv` | Assignment 3/G17/Part_B/proc.c:309-323 | reaping frees the slot, forgets pid and parent, and records the exit as reaped |
| `Proc.AllocInv` | Assignment 3/G17/Part_B/proc.c:106-117 | a slot taken gets a pid nobody has or had |
| `Proc.KillInv` | Assignment 3/G17/Part_B/proc.c:503-521 | kill of any pid, also of a stale pid left in an UNUSED slot, keeps the invariants |
| `Proc.WakeupInv` | Assignment 3/G17/Part_B/proc.c:481-498 | a wakeup keeps the invariants |
| `Proc.DispatchInv` | Assignment 3/G17/Part_B/proc.c:356-376 | a process switched to is current on this CPU and on no other |
| `Proc.InitialInv` | Assignment 3/G17/Part_B/proc.c:147-182 | the table after userinit satisfies the invariants |
| `Families.ParentIsMaker` | Assignment 3/G17/Part_B/proc.c:200-290 | in every run the parent of a process is the one that made it in fork, until that one exits, and initproc from then on, told from the steps of the run |
| `Families.ReapedByGuardian` | Assignment 3/G17/Part_B/proc.c:293-336 | in every run a pid that wait returns is of a process that exited, and is returned to its maker, or to initproc if the maker has exited, and to nobody else |
| `Families.ZombieIsReaped` | Assignment 3/G17/Part_B/proc.c:293-336 | a process with a zombie child in slot k gets its pid from one of its next k + 1 calls of wait |
| `Families.ForkMakesChild` | Assignment 3/G17/Part_B/proc.c:200-240 | the sections of a fork that finds a slot make one new RUNNABLE process, with a pid that nobody has and the caller as its parent, and change nothing else |
| `Families.KillMarks` | Assignment 3/G17/Part_B/proc.c:504-521 | kill marks the process with the pid and no other, and leaves it not asleep |
| `Families.NewIsUnmarked` | Assignment 3/G17/Part_B/proc.c:101-120 | a process made in a slot that wait has reaped is not marked as killed |
| `Families.WakeupWakes` | Assignment 3/G17/Part_B/proc.c:442-498 | a process that sleeps on an address is runnable after a wakeup on that address and asleep after any other |
| `ProcTable.ProcessTable.Allocproc` | Assignment 3/G17/Part_B/proc.c:100-126 | the scan takes the first UNUSED slot, if there is one, and numbers it |
| `ProcTable.ProcessTable.FinishFork` | Assignment 3/G17/Part_B/proc.c:231-241 | the child becomes RUNNABLE and its pid is returned |
| `ProcTable.ProcessTable.AbandonFork` | Assignment 3/G17/Part_B/proc.c:213-217 | a child without memory is given up, its pid staying in the UNUSED slot |
| `ProcTable.ProcessTable.LinkFork` | Assignment 3/G17/Part_B/proc.c:220 | the parent of the child is the process that runs on this CPU, before the child can run |
| `ProcTable.ProcessTable.Exit` | Assignment 3/G17/Part_B/proc.c:268-286 | the scan that re-parents and wakes initproc on the way computes the table of the specification |
| `ProcTable.ProcessTable.Wait` | Assignment 3/G17/Part_B/proc.c:293-336 | the scan reaps the first zombie child and returns its pid, which had exited and was not reaped before, exactly if there is one; else sleeps, exactly if there are children and the caller is not killed; else returns -1 and changes nothing |
| `ProcTable.ProcessTable.Schedule` | Assignment 3/G17/Part_B/proc.c:356-376 | the scan switches to the first RUNNABLE process from where it stands, if there is any |
| `ProcTable.ProcessTable.Yield` | Assignment 3/G17/Part_B/proc.c:409-416 | the process is RUNNABLE and its CPU free |
| `ProcTable.ProcessTable.Sleep` | Assignment 3/G17/Part_B/proc.c:442-478 | the process sleeps on its channel and its CPU is free |
| `ProcTable.ProcessTable.Wakeup1` | Assignment 3/G17/Part_B/proc.c:482-489 | exactly the sleepers on the channel become RUNNABLE |
| `ProcTable.ProcessTable.Kill` | Assignment 3/G17/Part_B/proc.c:504-521 | the first slot with the pid is marked, and woken if it sleeps; the result tells whether there is one |
| `PipeQueue.RunFifo` | Assignment 3/G17/Part_B/pipe.c:59-121 | in every run, with processes killed at any time, awake or asleep on the pipe, bytes delivered followed by bytes buffered are the bytes accepted, and at most PIPESIZE are buffered |
| `PipeQueue.StepInv` | Assignment 3/G17/Part_B/pipe.c:59-121 | a section loses a wakeup if and only if a killed writer brings more than PIPESIZE bytes while a reader sleeps |
| `PipeQueue.NoLostWakeup` | Assignment 3/G17/Part_B/pipe.c:59-121 | in runs without kill, with an end closed only when nobody uses it: a sleeping reader means an empty pipe with its write end open, a sleeping writer a full pipe with its read end open, and never do both sleep |
| `PipeQueue.KilledWriterStrandsReader` | Assignment 3/G17/Part_B/pipe.c:85-89 | with kill that is false: a run that ends with a reader asleep in front of a full pipe |
| `PipeQueue.KilledSleeperLeaves` | Assignment 3/G17/Part_B/proc.c:504-521 | a process killed in its sleep on a pipe wakes, with the pipe otherwise as it was, and its next section takes it out of the pipe |
| `PipeQueue.ZeroReadMeansClosed` | Assignment 3/G17/Part_B/pipe.c:101-121 | a read of positive length ends without a byte, and without sleeping, exactly when the pipe is empty and its write end closed |
| `PipeRing.CountersTell` | Assignment 3/G17/Part_B/pipe.c:85-114 | the tests on the 32-bit counters, and their difference, are about the bytes buffered however often the counters wrapped |
| `PipeRing.HoldsStored` | Assignment 3/G17/Part_B/pipe.c:93 | storing a byte in the ring appends it to the bytes buffered and overwrites none of them |
| `PipeRing.HoldsRead` | Assignment 3/G17/Part_B/pipe.c:116 | the byte read from the ring is the oldest one buffered |
| `PipeRing.RingPipe.constructor` | Assignment 3/G17/Part_B/pipe.c:33-36 | a new pipe is empty with both ends open |
| `PipeRing.RingPipe.Pipewrite` | Assignment 3/G17/Part_B/pipe.c:79-98 | the bytes, as many as fit into 512 with those buffered, are appended to the buffer in order; the call returns n, or -1, or sleeps having written as many as there was room for |
| `PipeRing.RingPipe.Piperead` | Assignment 3/G17/Part_B/pipe.c:101-121 | the bytes copied out are the oldest ones, as many as are buffered and were asked for; 0 for a positive n means empty and closed; it sleeps exactly on an empty pipe with its write end open |
| `PipeRing.RingPipe.Pipeclose` | Assignment 3/G17/Part_B/pipe.c:60-75 | the end is closed, the other side is woken, and the pipe is freed with its last end |
| `Memory.EntryParts` | Assignment 3/G17/Part_A/vm.c:52-73 | an entry made of a page and permissions gives back both |
| `Memory.EntryBits` | Assignment 3/G17/Part_B/mmu.h:135-148 | an entry has the page number from bit 12 on, the flags below, and bit 0 set |
| `Memory.ProcessorWalk` | Assignment 3/G17/Part_B/mmu.h:114-129 | the map is what the processor finds: ten bits of the address from bit 22 index the directory and ten from bit 12 the table, and an entry counts if bit 0 is set |
| `Memory.AddTablePte` | Assignment 3/G17/Part_A/vm.c:45-52 | a new page table changes the entry of no virtual page of any address space |
| `Memory.SetPteReads` | Assignment 3/G17/Part_A/vm.c:54-73 | writing one entry through the two levels changes that entry and no other, of any address space |
| `Memory.AddTableInv` | Assignment 3/G17/Part_A/vm.c:45-52 | taking a page for a table keeps every page at one use |
| `Memory.UserPagesDisjoint` | Assignment 3/G17/Part_A/vm.c:221-345 | different user pages, of one address space or of two, are different physical pages |
| `Spaces.MappingNext` | Assignment 3/G17/Part_A/vm.c:68-78 | one turn of mappages maps one page more and keeps everything mapped and owned before |
| `Spaces.ShrankSkip` | Assignment 3/G17/Part_A/vm.c:267-268 | skipping over an absent page table skips no page that is mapped |
| `Spaces.ShrankNext` | Assignment 3/G17/Part_A/vm.c:269-276 | one turn of deallocuvm unmaps one page and gives that page, and no other, back |
| `Spaces.ShrankBack` | Assignment 3/G17/Part_A/vm.c:235-245 | undoing a partial growth gives back the map as it was |
| `Spaces.OnlyTablesKept` | Assignment 3/G17/Part_A/vm.c:235-245 | what a failed growth keeps are page tables of that space only |
| `Spaces.GoneRestores` | Assignment 3/G17/Part_A/vm.c:284-298 | freeing a space that was being set up gives back every page it took, and owners, free pages and maps are as before |
| `Spaces.RoundUpIs` | Assignment 3/G17/Part_B/mmu.h:131 | the page boundary at or above an address, by less than a page |
| `Spaces.KernNumbers` | Assignment 3/G17/Part_A/vm.c:105-115 | the kernel half in numbers: which virtual pages from 0x80000 and from 0xFE000 on map where, and with which flags |
| `Spaces.KernIsKmap` | Assignment 3/G17/Part_A/vm.c:105-115 | the four records of kmap together are the kernel half, page by page |
| `Spaces.KernFresh` | Assignment 3/G17/Part_A/vm.c:105-134 | the records of kmap do not overlap, so setupkvm never meets the remap panic |
| `Spaces.CopyNext` | Assignment 3/G17/Part_A/vm.c:325-339 | one turn of copyuvm copies one page more: same bytes, same flags, new physical page |
| `Spaces.ParentPage` | Assignment 3/G17/Part_A/vm.c:316-345 | the parent's map and bytes are what they were throughout the copy |
| `Vm.Machine.Walkpgdir` | Assignment 3/G17/Part_A/vm.c:36-55 | the page table of a virtual page, taken from kalloc only if it is missing and asked for; 0 exactly if it is missing and cannot or must not be had |
| `Vm.Machine.MapFresh` | Assignment 3/G17/Part_A/vm.c:61-80 | one page mapped where nothing is mapped yet: it fails exactly when there is no page for a table, and cannot be a remap |
| `Vm.Machine.Mappages` | Assignment 3/G17/Part_A/vm.c:61-80 | exactly the requested range is added to the map; on a failure exactly a prefix of it; remap panics exactly on a page mapped already |
| `Vm.Machine.Deallocuvm` | Assignment 3/G17/Part_A/vm.c:256-279 | exactly the pages of [PGROUNDUP(newsz), oldsz) are removed and freed, although absent tables are skipped; kfree is never called on page 0 or twice |
| `Vm.Machine.Allocuvm` | Assignment 3/G17/Part_A/vm.c:222-249 | on success the growth range is mapped to zeroed pages and nothing else changes; on failure the result is 0 and the map is as it was; below KERNBASE it fails exactly when a kalloc it makes finds no free page, and remap is never reached |
| `Vm.Machine.Freevm` | Assignment 3/G17/Part_A/vm.c:284-298 | every page allocated for the address space is freed exactly once, tables and directory included, and other spaces are untouched |
| `Vm.Machine.Setupkvm` | Assignment 3/G17/Part_A/vm.c:118-136 | a new space with exactly the kernel half, or every page given back, the latter exactly when a kalloc it makes finds no free page |
| `Vm.Machine.Copyuvm` | Assignment 3/G17/Part_A/vm.c:316-345 | a child with the same bytes and flags at every user page and the kernel half, with everything else unchanged; or every page given back, exactly when a kalloc it makes finds no free page; or the panic, only for a page of the parent that is not present |
| `Swapping.SwapEntryParts` | Assignment 3/G17/Part_B/paging.c:50-52 | the block number shifted into a swapped entry is shifted out again if and only if it is below 2^20; such an entry is marked swapped and not present |
| `Swapping.PageRoundTrip` | Assignment 3/G17/Part_B/bio.c:191-227 | a page written as eight blocks and read back is the page |
| `Swapping.RunsDisjoint` | Assignment 3/G17/Part_B/paging.c:33-57 | different swapped pages own disjoint runs of eight blocks |
| `Swapping.PagePokeInv` | Assignment 3/G17/Part_B/bio.c:216-226 | writing into a page's blocks touches neither the free map nor any file |
| `Swapping.SwapOutHolds` | Assignment 3/G17/Part_B/paging.c:33-57 | swapping a page out changes the bytes of no virtual page of any space, that one included |
| `Swapping.SwapOutInv` | Assignment 3/G17/Part_B/paging.c:33-57 | and keeps one use for every physical page and one run for every swapped page |
| `Swapping.MapInHolds` | Assignment 3/G17/Part_B/paging.c:95-133 | serving a fault gives the page what it held, or zeroes the first time, and changes no other |
| `Swapping.MapInInv` | Assignment 3/G17/Part_B/paging.c:95-133 | and keeps one use for every physical page and one run for every swapped page, freeing the run read from |
| `Swapping.RunKeeps` | Assignment 3/G17/Part_B/paging.c:33-133 | over any sequence of pages going out and coming in, a virtual page that holds something holds it ever after |
| `Pager.PresentIsAccessible` | Assignment 3/G17/Part_B/vm.c:329 | the access test in select_a_victim holds for every present entry, so it chooses by address and not by use |
| `Pager.Swapper.constructor` | Assignment 3/G17/Part_B/paging.c:33-133 | a machine and a file system with nothing swapped out satisfy the invariant |
| `Pager.Swapper.WritePageToDisk` | Assignment 3/G17/Part_B/bio.c:208-227 | the eight blocks hold the page, no other block changes, and files read as before |
| `Pager.Swapper.ReadPageFromDisk` | Assignment 3/G17/Part_B/bio.c:191-205 | the physical page holds what the eight blocks hold, and no other page changes |
| `Pager.Swapper.SelectVictim` | Assignment 3/G17/Part_B/vm.c:320-341 | the first present page above page 0, or none is present; nothing changes |
| `Pager.Swapper.SwapPageFromPte` | Assignment 3/G17/Part_B/paging.c:33-57 | the page is on disk and its physical page free, every virtual page holds what it held; it fails exactly as balloc_page does |
| `Pager.Swapper.SwapPage` | Assignment 3/G17/Part_B/paging.c:61-82 | some physical page is free afterwards and every virtual page holds what it held; it fails only without a present page above page 0 or without a run |
| `Pager.Swapper.MapAddress` | Assignment 3/G17/Part_B/paging.c:95-133 | the faulting page is present and holds what its eight disk blocks held, or zeroes if it was not swapped; every other page holds what it held; it fails only when no physical page is free and none can be swapped out |
| `Shell.Gettoken` | Assignment 3/G17/Part_B/sh.c:265-308 | a token lies between the cursor and the cursor left behind, is not empty unless the line has ended, and the line has ended exactly where the result is 0 |
| `Shell.TokenIsWord` | Assignment 3/G17/Part_B/sh.c:295-302 | a word token is a whole word: none of its characters is white space or a symbol, and what follows it is |
| `Shell.LineIsWords` | Assignment 3/G17/Part_B/sh.c:344-446 | every string of whatever is parsed is one whole word of the line |
| `Shell.NulterminateIsExact` | Assignment 3/G17/Part_B/sh.c:449-493 | after any parse that succeeds, every argument and file name, read up to its NUL, is the word that was parsed: no NUL lands in another word |
| `ShellPrint.LineParses` | Assignment 3/G17/Part_B/sh.c:344-446 | a printed command is parsed as itself wherever in a line it stands |
| `ShellPrint.RoundTrip` | Assignment 3/G17/Part_B/sh.c:327-342 | for every command tree with at most nine arguments, parsing its fully parenthesised printing gives the tree back and consumes all input |
| `ShellSyntax.WrittenParses` | Assignment 3/G17/Part_B/sh.c:327-446 | for every command as users write it, with redirections `<`, `>` and `>>` before, between and after the arguments and behind blocks, pipes, lists and `&` without parentheses, parsing gives its meaning: pipes and lists group to the right, the first redirection is nearest to the command; all input is consumed |
| `ShellTokens.CommandHasLine` | Assignment 3/G17/Part_B/sh.c:327-446 | for every line that parses, the redirections of the command are exactly the redirection tokens of the line, each with its file and the mode of its sign, and its arguments are exactly the other words, in the order of the line |
| `ShellPrint.TenArgumentsPanic` | Assignment 3/G17/Part_B/sh.c:436-440 | the bound is exact: ten arguments or more panic |
| `ShellParser.Parser.constructor` | Assignment 3/G17/Part_B/sh.c:327-333 | the line with its NUL, and the cursor at its start |
| `ShellParser.Parser.Gettoken` | Assignment 3/G17/Part_B/sh.c:265-308 | the loops compute the token of the grammar |
| `ShellParser.Parser.Peek` | Assignment 3/G17/Part_B/sh.c:310-320 | white space is skipped, and the answer is about the next character |
| `ShellParser.Parser.Parseredirs` | Assignment 3/G17/Part_B/sh.c:374-397 | the loop collects the redirections of the grammar, or meets the panic of a missing file |
| `ShellParser.Parser.Parseexec` | Assignment 3/G17/Part_B/sh.c:415-446 | the code parses as the grammar does, with the same panics |
| `ShellParser.Parser.Parseblock` | Assignment 3/G17/Part_B/sh.c:399-413 | the code parses as the grammar does, with the same panics |
| `ShellParser.Parser.Parsepipe` | Assignment 3/G17/Part_B/sh.c:361-372 | the code parses as the grammar does, with the same panics |
| `ShellParser.Parser.Parseline` | Assignment 3/G17/Part_B/sh.c:344-359 | the code parses as the grammar does, with the same panics, and ends on every line |
| `ShellParser.Parser.Nulterminate` | Assignment 3/G17/Part_B/sh.c:449-493 | NULs are written at the ends of the command's strings and nowhere else |
| `ShellParser.Parser.Parsecmd` | Assignment 3/G17/Part_B/sh.c:327-342 | the command of the grammar, or a panic; afterwards each of its strings, read in place as a C string, is its word of the old line |
| `Numbers.DiskNumbers` | Assignment 3/G17/Part_B/param.h:8-12 | the sizes of blocks, log, cache, map and inode tables, and the chunk of filewrite |
| `Numbers.PageNumbers` | Assignment 3/G17/Part_B/mmu.h:123-144 | page and table sizes, the flags of entries, and the layout of memory |
| `Numbers.OtherNumbers` | Assignment 3/G17/Part_B/umalloc.c:52-53 | morecore asks for at least 4096 units; process table, pipe and argument sizes and the quantum |
| `Numbers.ShellCharacters` | Assignment 3/G17/Part_B/sh.c:262-263 | which characters are white space and which are signs |
| `Hybrid.LeastIsUnique` | Assignment 2/g17hybrid/proc.c:384-400 | there is at most one process to dispatch |
| `Hybrid.BurstCounts` | Assignment 2/g17hybrid/proc.c:687-699 | a burst time n goes down by two each quantum, turns negative after n/2 + 1 quanta, and is -1 or -2 from then on |
| `Hybrid.BurstLasts` | Assignment 2/g17hybrid/proc.c:687-699 | it is negative after k quanta if and only if k is at least n/2 + 1 |
| `Hybrid.QuantumIsTwoTicks` | Assignment 2/g17hybrid/trap.c:106-111 | a dispatched process gives up the CPU at its second clock tick, not at its first, with its burst counted down once |
| `Hybrid.StepInv` | Assignment 2/g17hybrid/proc.c:374-433 | dispatches, ticks, system calls, wakeups, forks and exits keep one running process at most, different ids and bursts between INT_MIN and INT_MAX |
| `Hybrid.RunsOn` | Assignment 2/g17hybrid/proc.c:374-419 | in every run from its dispatch on, with processes waking, being created and reaped at any time, a process dispatched with time left, whatever tick count an earlier quantum left it, that uses its quantum has its burst counted down once, and once more for each dec_burstTime of its own, and is the next to be dispatched if and only if no process that was woken meanwhile comes before it |
| `Hybrid.QuantumEnds` | Assignment 2/g17hybrid/trap.c:106-111 | a dispatched process that neither blocks nor resets its burst gives up the CPU exactly when the second increment of its count is a clock tick, so always at the second tick unless it calls inc_cpucounter itself |
| `Hybrid.QuantumRun` | Assignment 2/g17hybrid/trap.c:106-111 | from every dispatch there is a run of one whole quantum, also for a process whose tick count was left at another value |
| `Hybrid.CountEscapes` | Assignment 2/g17hybrid/proc.c:701-709 | a process that calls inc_cpucounter after its first tick keeps the CPU for as long as it neither blocks nor resets its burst, however many ticks come |
| `Hybrid.EscapeRun` | Assignment 2/g17hybrid/trap.c:106-111 | from every dispatch there is such a run, with a further tick that does not end the quantum |
| `Hybrid.BurstOfIntMaxCrashes` | Assignment 2/g17hybrid/proc.c:645-655 | the null dereference is within reach: a process dispatched from the first runnable slot that sets its burst to INT_MAX has the scheduler read through null on its yield |
| `Hybrid.Scheduler.Select` | Assignment 2/g17hybrid/proc.c:384-400 | the loop chooses the runnable process with the smallest burst time, and among equals the smallest pid; none exactly if none is runnable; and dereferences null exactly if the first runnable process has burst time INT_MAX |
| `Hybrid.Scheduler.Schedule` | Assignment 2/g17hybrid/proc.c:381-416 | exactly the dispatch step of a run: the least runnable process runs with a fresh quantum and nothing else changes; or nothing happens; or the crash |
| `Hybrid.Scheduler.TimerTick` | Assignment 2/g17hybrid/trap.c:106-111 | exactly the clock step of a run: the tick is counted, and at the end of a quantum the burst is counted down and the CPU given up |
| `Hybrid.Scheduler.IncCpucounter` | Assignment 2/g17hybrid/proc.c:701-709 | the running process's count goes up by one and is returned |
| `Hybrid.Scheduler.SetBurstTime` | Assignment 2/g17hybrid/proc.c:645-655 | the running process has the new burst; the yield that follows is a step of its own |
| `Hybrid.Scheduler.YieldCpu` | Assignment 2/g17hybrid/proc.c:446-453 | the running process is runnable and the CPU free |
| `Hybrid.Scheduler.DecBurst` | Assignment 2/g17hybrid/proc.c:687-699 | exactly the count-down step of a run: the burst time of the running process and no other |

## Left out

- Log: `bfree` writes its map block home directly; transactions that contain it are outside the crash theorems, which are about blocks changed through `log_write`.
- Log: liveness of `begin_op`. `balloc` opens a nested operation, so a caller may wait for space it holds itself; only safety is proved, and the blocks `balloc` logs are attributed to the write that needs them.
- Umalloc.Allocator.Malloc: for requests of 2^32 - 7 bytes and more the sum in the rounding wraps around and the block is too small (`Umalloc.NUnitsSuffice` says exactly when).
- Umalloc.Allocator.Morecore: `sbrk` is asked for the whole block, which the code does exactly for the requests of `Umalloc.SbrkSuffices`; what it does to the heap after a wrapped product is not modelled.
- Fs.FileSys.Readi: device inodes (the T_DEV branch), which call a driver.
- Fs.FileSys.Writei: device inodes (the T_DEV branch), which call a driver.
- Fs: directories, path lookup, the copy of an inode in its disk block (`iupdate` counts as one logged block, its bytes are not modelled), and inode reference counts.
- Fs.FileSys.BallocPage: no other allocator runs in between; the search and the return of the surplus are one step. `alloc_b` takes 400,000 bytes of a kernel stack of 4096, so that the source's stores into it land in other memory; the model gives the table memory of its own.
- Swapping.RunKeeps: what those stores into `alloc_b` overwrite; that swapping changes no other page is said of a machine whose kernel stack holds the table.
- File.OpenFile.FileWrite: pipes, which go to `pipewrite`, and other writers of the same file between two chunks.
- File: `filedup`, `fileclose` and their reference counts, which are small steps on one counter.
- Bio: who holds a buffer's lock. `holdingsleep` ignores the owner, so callers are assumed to use their own buffers. Reference counts are unbounded.
- Bio.BufferCache.Pin: only the flag that `log_write` sets; the log side of `log_write` is in `LogDevice`.
- Spinlocks, interrupts, memory ordering and context switches: a section under a lock is one atomic step, and so is the test that `log_write` makes before it takes its lock.
- LogRuns.OverflowRun: what the machine does after an overflow beyond the writes of `write_log`; runs end there.
- LogCache: the steps of the cache during a commit are not interleaved with the actions of the log; the cache at a bread of the commit is any that has the logged blocks pinned.
- Proc.StepInv: pids are ints, and a run that would create process 2^31 - 1 is outside the model, since `nextpid++` is then undefined. Kernel stacks, open files and address spaces of processes are not part of the table modelled.
- PipeQueue.NoLostWakeup: runs with kill, and ends closed while somebody still uses them; `PipeQueue.StepInv` says exactly when a killed writer does harm.
- Vm: what `kfree` does to the page it frees; contents are stated only for pages that are not free. kalloc.c, the boot page table, segment set-up, `inituvm`, `loaduvm`, `clearpteu` and `copyout` are not part of this model.
- Vm.Machine.Copyuvm: Part_A's version. Part_B's may swap out the page it is copying from.
- Vm.Machine.Mappages: physical addresses that are not page-aligned; every caller passes aligned ones, and others would put address bits among the flags.
- Vm.Machine.Deallocuvm: sizes above KERNBASE, which no caller passes.
- Pager.Swapper.WritePageToDisk: the side copy made with `createSwapFile` and `filewrite`, which is never read back.
- Pager.Swapper.MapAddress: faults where there is no page table, for which the code maps nothing and loses a page.
- Pager: page flags after swap-in, which are always W and U; Part_B's `deallocuvm` of swapped entries.
- ShellParser: command nodes are values and not heap records that `parseexec` goes on filling in after redirections were wrapped around them; memory for them is not modelled. `runcmd` and `getcmd` are left out.
- Hybrid: more than one CPU, where a runnable process can also be taken by another scheduler. On one CPU the steps of the timer interrupt are one step, since interrupts are off.
- Hybrid: a tick count of 2^31 and pids that run out, which are undefined in the source; `get_burst_time`, `process_state` and context switch counts.
- Boot code, devices, drivers, user programs, Assignment 1, Assignment 4 and the plain `g17` variant, which `g17hybrid` repeats.
