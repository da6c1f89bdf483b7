# xv6: log, buffer cache, files, scheduler, allocators and grep

A Dafny model of the hard core of an xv6 kernel with three additions: a scheduler that puts stride
scheduling over a three-level feedback queue (`project_01`), files with doubly and triply indirect
blocks, and group commit that is deferred over many operations (both `project_03`).

| files | what they model |
|---|---|
| `Blocks`, `Bio` | disk blocks as bytes, words and bits; the cache of `bio.c`, a doubly linked list of buffer objects, refining a plain map from block number to contents |
| `Commit`, `Runs`, `RedoLog` | the five phases of `commit` as sequences of atomic disk writes, crashes between any two of them, runs of operations, commits and crashes, and the methods of `log.c` that refine those runs |
| `BlockTree`, `Capacity`, `FileData`, `Durability`, `Files`, `Truncate` | the block tree under an inode, the bitmap, how many allocations the disk and the log have room for, which changed blocks the next commit saves, and `bmap`, `readi`, `writei`, `iupdate` and `itrunc` of `project_03/fs.c` |
| `Recycling`, `Examples` | what the cache makes of a changed block that was not logged, and files, on disks as mkfs lays them out, on which `fs.c` goes wrong |
| `FileWrite`, `FileCrash` | `filewrite` over the fully logged `fs.c` of `project_01`, the number of blocks one transaction logs, and what a power failure between or inside its transactions leaves |
| `SchedSpec`, `Sched`, `SchedRuns`, `Fairness` | the tables of `sched.c` as values, the methods that update them, invariants, bounded waiting and proportional share over whole runs |
| `Heap` | the free list of `umalloc.c`, over the `sbrk` of the kernel |
| `Vm` | the frame pool of `kalloc.c` and the page tables of `vm.c`, as words in physical frames |
| `Grep` | the matcher of `grep.c` against the language of a pattern, and its line buffer |

Code that updates objects or arrays is a class, or a method with `modifies`, proved against functions on
values; the properties that span operations are lemmas about those functions. A boolean result `ok`
(or a null or 0 result where the original returns one) stands for a panic or an error return. What remains
as a precondition is an invariant or what every caller arranges; the latter is listed at the end. Where the
kernel holds a lock for a whole function, the function is one atomic step.

## Where the code and its promises part

The model follows the code. In each case the exact condition under which the promise holds is proved, and an
input at which it does not.

- `project_03` `bmap` gives the doubly and triply indirect index blocks it has changed to no
  `log_write`. The next commit saves every changed block if and only if the index blocks in
  `BlockTree.Unlogged` (the existing block in which the first empty slot on the way is filled) had been
  logged before (`Files.Fs.Bmap`, and `Files.Fs.Writei` for a whole write; input:
  `Examples.UnloggedIndexBlock`). The harm does not wait for a crash: such a block is clean in the cache, and
  once its buffer is recycled readers find the slot empty again (`Recycling.Forgotten`), whereas recycling
  shows in no file while every change is logged (`Recycling.Recycled`). What `Files` proves across calls holds
  for as long as no such buffer is recycled.
- The same `bmap` calls `log_write` for a doubly or triply indirect block even when it only looks it up, so
  `readi` logs each data block it reads from block 138 on (`Files.DeepCount`), and `log_write` panics outside a
  transaction or when 29 blocks are logged. `readi` succeeds exactly when at each of those blocks an operation is
  outstanding and fewer than 29 blocks are logged, those that it has just read included (`Files.Fs.Readi`;
  inputs: `Examples.UnreadableBlock` without a transaction, which is how `fileread` runs, and `Examples.FullLog`
  with thirty blocks inside one, which is how `exec` reads).
- An operation is to log at most MAXOPBLOCKS = 10 new blocks. Every transaction of `filewrite` in `project_01` does
  so (`FileWrite.WriteOp`; ten are reached in `Examples.FullTransaction`), and such an operation meets no panic
  (`RedoLog.Log.WriteBlock`). In `project_03` a read logs all it reads from block 138 on (`Files.DeepCount`), a
  write what `Files.WriteLogSize` counts, and `itrunc` up to 11 blocks of a disk of 40000 (`Truncate.LoggedSize`).
- `itrunc` frees the leaves of the triple tree without testing for 0. Inside a transaction, with fewer than 27
  blocks logged when it is through, it gives back exactly the blocks of the file if and only if no lowest index
  block of that tree has an empty slot; it panics or frees block 0 otherwise (`Truncate.Itrunc`). `writei`
  fills no slot beyond the size of the file (`Files.Fs.Writei`), and of such a file that is a condition on its size:
  it has at most 16522 blocks, or a multiple of 128 more (`Truncate.TripleFullIff`; input:
  `Examples.BrokenTruncation`).
- `sync` commits without a look at `log.outstanding`. A call in the middle of an operation puts what readers see
  into the history of the run, and every crash, between the writes of that commit too, leads back to an entry of
  the history (`Runs.PrefixConsistency`); this is the result of a completed operation if and only if what readers
  saw at the call was one (`Runs.SyncExactly`, `RedoLog.Log.Sync`; input: `Runs.TornOperation`).
- `pick_stride` looks for passes below 1000000000, and the first client of `set_cpu_share` starts at that
  very pass. The process it picks can run if and only if something under the feedback queue can or a
  runnable client has a smaller pass (`SchedSpec.WorkConserving`; input, a run from `userinit` on:
  `SchedRuns.PassedOver`).
- `malloc` rounds up in 32 bits, and `sbrk` takes the number of bytes as a signed number: it returns the break as
  if it had succeeded when that is 0, or negative unless it is minus the whole size. The block returned is memory of the process and holds the bytes
  asked for if and only if they are at most 2^31 - 16, or at most 2^32 - 8 and a free block was big enough
  (`Heap.Allocator.Malloc`; inputs: 2^31 in `Heap.StrayBlock`, more than 2^32 - 8 in `Heap.NoPayload`).
- `grep` empties its buffer when a read leaves no newline in it. It looks at exactly the finished lines
  of its input if and only if no read without a newline comes before a read with one (`Grep.SeesAllLines`;
  input: `Grep.HalfLine`).

## Model

| member | source | states |
|---|---|---|
| Blocks.SetWord | project_03/fs.c:391-394 | Storing a word of an index block is read back, and no other of its 128 words changes |
| Blocks.WordExactly | project_03/fs.c:391-394 | A word lies in four bytes, the low one first, and storing it changes no other byte |
| Blocks.PutBit | project_03/fs.c:66-68 | Setting or clearing one bit of a bitmap block by mask changes that bit and none of the other 4095 |
| Blocks.BitExactly | project_03/fs.c:66-68 | Bit i of a block is bit i % 8, from the low end, of byte i / 8 |
| Bio.EmptyPool | project_03/bio.c:38-56 | Buffers that all start as device 0, block 0 hold nothing: readers see the disk, nothing is dirty or in use |
| Bio.RecycleKeeps | project_03/bio.c:78-91 | Recycling an unused clean buffer keeps every block in at most one buffer; the only contents that can be lost are what the victim held and the disk does not |
| Bio.RecycleCoherence | project_03/bio.c:78-91 | With every unpinned change on the disk, recycling loses nothing a reader sees |
| Bio.UpdateKeeps | project_03/bio.c:62-141 | Any change of a buffer that keeps its identity changes what readers see of that block only, and the pinned and held sets accordingly |
| Bio.UnusedCount | project_03/log.c:217-238 | Held, pinned and available buffers together are at least all buffers |
| Bio.ToFrontByRelease | project_03/bio.c:130-137 | Moving the released buffer to the front keeps the list sorted by time of last release |
| Bio.Cache.constructor | project_03/bio.c:38-56 | binit builds a cyclic list of all NBUF buffers; the cache shows the disk |
| Bio.Cache.Lookup | project_03/bio.c:69-76 | The first loop of bget finds the one buffer that holds the block, if there is one |
| Bio.Cache.Victim | project_03/bio.c:81-91 | The second loop finds the least recently released buffer that is neither in use nor dirty, or there is none |
| Bio.Cache.Recycle | project_03/bio.c:83-89 | The victim becomes the only buffer of the new block; pinned blocks and the other buffers stay |
| Bio.Cache.Bget | project_03/bio.c:61-93 | The buffer of the block with one more reference; the panic happens exactly when the block is not cached and every buffer is in use or dirty; the contents seen stay, nobody else's buffer is touched |
| Bio.Cache.Bread | project_03/bio.c:96-107 | The buffer returned holds the logical contents of the block; it panics exactly when the block is not cached and no buffer can be recycled, so never while fewer than NBUF buffers are in use or pinned |
| Bio.Cache.Modify | project_03/log.c:196-197 | The holder's store changes the logical contents of that one block |
| Bio.Cache.Pin | project_03/log.c:287-290 | B_DIRTY pins the block and changes nothing a reader sees |
| Bio.Cache.Bwrite | project_03/bio.c:109-117 | Exactly one disk write, of the buffer's contents; the buffer is clean and the contents seen are the same |
| Bio.Cache.Brelse | project_03/bio.c:119-141 | One reference less; the last release moves the buffer to the front of the list, the others keeping their order; contents and pins stay |
| Bio.Cache.Spare | project_03/bio.c:78-92 | Fewer than NBUF buffers in use or pinned leave one for bget to recycle |
| Bio.Cache.CountFree | project_03/log.c:221-230 | The counting loop counts the buffers that are neither in use nor dirty |
| Commit.HeadRoundTrip | project_03/log.c:93-122 | A header block that write_head fills in is read by read_head as the same list of blocks |
| Commit.HeadExactly | project_03/log.c:110-122 | Word 0 of the header is the count, word i + 1 the i-th block number, and the words behind keep what they held |
| Commit.InstallEffect | project_03/log.c:78-91 | After any number of its writes install_trans has brought exactly that many logged blocks home from the log and moved nothing else |
| Commit.InstallPrefix | project_03/log.c:78-91 | Installing any prefix of the log keeps the promise of the header |
| Commit.RecoverPrefix | project_03/log.c:123-131 | A recovery cut short at any write keeps the promise of the header; a complete one redeems it and leaves an empty header |
| Commit.LogEffect | project_03/log.c:188-202 | After any number of its writes write_log has put that many copies into the log area and touched nothing outside it |
| Commit.CommitPoint | project_03/log.c:203-214 | Writing the non-empty header makes the disk promise the new contents of every logged block |
| Commit.CommitMiddle | project_03/log.c:203-214 | Between the header write and the end of the installation the disk promises the new contents |
| Commit.CommitEnd | project_03/log.c:203-214 | A complete commit leaves the new home blocks and an empty header |
| Commit.CommitExactly | project_03/log.c:188-214 | The writes of commit one by one: the new contents of block i of the list into block start + 1 + i, the header with the count and the list, the new contents home, the header with count 0 |
| Commit.RecoverExactly | project_03/log.c:78-131 | The writes of recovery one by one: from block start + 1 + i to the block that word i + 1 of the header names, then the header with count 0 |
| Commit.CommitPrefix | project_03/log.c:203-214 | At every crash point the disk promises all old home blocks before the header write and all new ones after it |
| Commit.RecoveryRedeems | project_03/log.c:123-131 | However many recoveries are cut short, each after any of its writes, the one that completes redeems the promise |
| Commit.CrashAtomicity | project_03/log.c:78-214 | Stop commit after any write, then any number of recoveries after any of theirs: a completed recovery leaves every block outside the 30 of the log new exactly when the header write happened, all old otherwise, and the count 0 |
| Runs.InvStep | project_03/log.c:134-292 | Begin, write, end, sync in the middle of an operation, commit, crash and crash inside commit keep the invariant that ties disk, cache and log to the history |
| Runs.RunInv | project_03/log.c:134-292 | The invariant holds at every point of every run |
| Runs.CommitStep | project_03/log.c:203-214 | A commit makes the home blocks those of the last entry of the history |
| Runs.RebootStep | project_03/log.c:123-131 | However often power fails during recovery, the system comes up on the home blocks that the disk promised, with an empty log |
| Runs.CrashInCommitStep | project_03/log.c:203-214 | A crash inside commit gives the state of the last finished commit before the header write, that of the last entry of the history after it |
| Runs.WritesThrough | project_03/log.c:203-214 | The writes of commit make the disk and the cached contents the same without changing any home block a reader sees |
| Runs.FlushStep | project_03/log.c:203-214 | Whenever the writes of commit are made, running operation or not, the home blocks on disk are then those readers see, with an empty log |
| Runs.SyncExactly | project_03/log.c:241-253 | Let the power fail after any of the writes of a sync called at any moment, the last included: recovery shows what was durable before or, once the header is written, what readers saw at the call; that is the result of a completed operation exactly when it was one then, as it is with no operation running |
| Runs.NoneTorn | project_03/log.c:241-253 | A run in which no sync is called in the middle of an operation has only completed operations in its history |
| Runs.TornOperation | project_03/log.c:241-253 | A run in which sync makes half an operation durable: the crash after it shows no completed operation |
| Runs.PrefixConsistency | project_03/log.c:134-214 | In every run, a crash at any step, inside a commit too, recovers every block outside the 30 of the log to its contents in one entry of the history, no older than what the last finished commit covers, and the last one exactly when the header of a commit under way had been written; without a sync in the middle of an operation that is the state after a prefix of the completed operations |
| Runs.NoEarlyHomeWrite | project_03/log.c:134-214 | In every run the home blocks on disk are those of the last finished commit until the header of the next one has been written |
| RedoLog.CopyBlock | project_03/log.c:82-90 | One round of the copying loops: block `to` becomes a copy of block `from` in cache and on disk, in one write, and is no longer pinned |
| RedoLog.HeadBytes | project_03/log.c:115-119 | The loop over the header block writes the count into word 0, the block numbers behind it, and leaves the other words |
| RedoLog.WriteHead | project_03/log.c:110-122 | One disk write, of the header |
| RedoLog.ReadHead | project_03/log.c:94-105 | As many block numbers as word 0 of the header says, from the words behind it, with nothing changed |
| RedoLog.WriteLog | project_03/log.c:188-202 | The disk writes made are exactly the log phase of the commit model, on the disk and on the cached contents alike |
| RedoLog.InstallTrans | project_03/log.c:78-91 | The disk writes made are exactly the install phase; each installed block is unpinned |
| RedoLog.CommitAll | project_03/log.c:203-214 | The writes commit makes are, in order, those of the commit model, and no dirty buffer remains |
| RedoLog.Recover | project_03/log.c:123-131 | The writes made are those of the recovery model; the header is empty afterwards and the cache agrees with the disk |
| RedoLog.Log.constructor | project_03/log.c:62-75 | Boot replays the log left on the disk and starts a run from the recovered state |
| RedoLog.Log.IsBufFull | project_03/log.c:217-238 | True exactly when at most 11 buffers are neither in use nor dirty |
| RedoLog.Log.BeginOp | project_03/log.c:134-151 | The guard is open exactly when no operation is outstanding and more than 11 buffers are free; an idle log always lets the next operation in while at most 8 buffers are held |
| RedoLog.Log.LogWrite | project_03/log.c:272-292 | A block is logged once and pinned; the panics happen exactly when the log is full or no operation is outstanding; the dirty buffers are exactly the logged blocks |
| RedoLog.Log.Change | project_03/log.c:272-292 | A holder's change of a block is seen by readers, logged once and pinned, and one reference is given back |
| RedoLog.Log.WriteBlock | project_03/log.c:272-292 | bread, modify, log_write and brelse change what readers see of that block and nothing else, list it once, and are one write step of the run; they panic exactly when 29 blocks are logged, or the block is not cached and every buffer is in use or dirty, neither of which happens while the operation stays within MAXOPBLOCKS = 10 new blocks and at most 9 buffers are held |
| RedoLog.Log.CommitLog | project_03/log.c:203-214 | Whoever holds buffers meanwhile, commit makes the writes of the commit model and empties the log; with an empty log it writes nothing |
| RedoLog.Log.Complete | project_03/log.c:159-175 | The part of end_op under the lock: the operation is complete, and the test for a commit is exact |
| RedoLog.Log.EndOp | project_03/log.c:153-186 | The operation joins the history; a commit follows exactly when at most 11 buffers are available or more than 10 blocks are logged, the first of which needs more than 8 buffers held; it empties the log, and at most 10 blocks stay logged when idle |
| RedoLog.Log.Sync | project_03/log.c:241-253 | It empties the log, brings to the disk what readers see of every block outside the log, a running operation's changes included, and keeps the invariant: it is a commit step of the run, preceded by a note in the history when an operation is running |
| BlockTree.LeafPathBijective | project_03/fs.c:373-473 | The direct, single, double and triple index arithmetic of bmap is a bijection between [0, MAXFILE) and the leaf slots |
| BlockTree.AddrExactly | project_03/fs.c:373-473 | The address of file block bn is one of the ten in the inode, or a word of the block that address 10 names, or from block 138 on a word behind two index blocks, from block 16522 on behind three, each found by its base-128 digit of what is left of bn |
| BlockTree.UsedExactly | project_03/fs.c:63-68 | Block b is in use when bit b % 8 of byte b % 4096 / 8 of bitmap block b / 4096 is set |
| BlockTree.TakenTree | project_03/fs.c:56-78 | Taking and zeroing a free block changes no slot of the tree and no other bit or data block |
| BlockTree.LinkedTree | project_03/fs.c:373-473 | Storing a taken, zeroed block into an empty slot fills that slot, changes no other and keeps the tree free of sharing |
| BlockTree.SlotStep | project_03/fs.c:373-473 | One allocation of bmap: exactly one empty slot gets a block that was free and is zero |
| BlockTree.GrewStep | project_03/fs.c:373-473 | Along the way down, only slots on the path are filled, only with blocks that were free, and every block taken is owned by a slot |
| BlockTree.Ancestors | project_03/fs.c:373-473 | A slot that holds a block lies below slots that do |
| Durability.GapChanged | project_03/fs.c:401-469 | An index block in which bmap fills a slot differs afterwards from what it was |
| Durability.SlotTraced | project_03/fs.c:378-422 | One step of bmap changes nothing but the blocks it logs and the index block the slot lies in, and logs no doubly or triply indirect index block that existed before |
| Durability.SavedIff | project_03/fs.c:401-469 | After mapping any set of slots the next commit saves every changed block if and only if the forgotten index blocks had been logged before |
| Durability.GapBefore | project_03/fs.c:628-634 | In a run of mappings, an index block that a later one forgets was forgotten by the first tree too or was taken, and logged, on the way |
| Durability.WrittenIff | project_03/fs.c:611-641 | The same exact condition for all blocks of one write, told from the tree before it |
| Recycling.SavedIsCoherent | project_03/bio.c:78-91 | Every change being logged is the coherence of the cache: no modification outside both the disk and the dirty buffers |
| Recycling.Recycled | project_03/bio.c:78-91 | Recycling a buffer drops the change of at most one block, one that is not logged, and changes nothing in any file when every change is logged |
| Recycling.DroppedSlot | project_03/bio.c:78-91 | Dropping the change that bmap made to an index block empties the slot filled there and those below, and no other |
| Recycling.Forgotten | project_03/fs.c:401-469 | When the buffer of a forgotten index block is recycled the new mapping is gone: the file has a hole, and the block taken for it is marked used but in no slot |
| FileData.WriteChunk | project_03/fs.c:628-634 | One round of writei turns the bytes of the file into their splice with the chunk, without holes or sharing |
| FileData.Chunk | project_03/fs.c:599-604 | Part of one block is the corresponding part of the file |
| FileData.ContentExactly | project_03/fs.c:599-604 | Byte i of a file is byte i % 512 of the block at the address for file block i / 512, told in words of the inode and of the index blocks |
| FileData.OtherFile | project_03/fs.c:611-641 | What one file writes changes no byte, slot or block of another, and they stay apart |
| FileData.SnugTight | project_03/fs.c:611-641 | A file without holes and without slots beyond its size has filled exactly the slots that lead to one of its blocks |
| Files.WriteThenRead | project_03/fs.c:582-641 | A writei and then a readi of the same range returns the bytes written; the content is their splice into the old one |
| FileData.MetaWrite | project_03/fs.c:220-236 | Writing an inode block changes no bit of the bitmap, no slot and no data block |
| Files.Fs.LogWrite | project_03/log.c:272-291 | Adds the block to those logged; panics exactly when 29 blocks are logged or outside a transaction |
| Files.Fs.Balloc | project_03/fs.c:56-78 | The first free block in order, all before it being in use, marked used and zeroed, both blocks logged; panics exactly without a free block, outside a transaction or without room in the log for its two entries |
| Files.Fs.ScanMap | project_03/fs.c:65-67 | The loop over one bitmap block stops at its first clear bit |
| Files.Fs.Bfree | project_03/fs.c:80-95 | Clears the bit of the block and no other; panics exactly on a free block, outside a transaction or on a full log |
| Capacity.AllLogged | project_03/fs.c:56-78 | A number of allocations in a row take free blocks and log just those and their bitmap blocks |
| Files.Fs.RootSlot | project_03/fs.c:378-390 | A slot of the inode is found without change or filled with a block that was free; it fails exactly when it is empty and no block can be taken |
| Files.Fs.IndexSlot | project_03/fs.c:411-422 | A slot of an index block is found without change or filled with a block that was free; it fails exactly when it is empty and no block can be taken |
| Files.Fs.BmapDirect | project_03/fs.c:378-382 | The direct part of bmap; it succeeds exactly when the slot is filled, or a block is free and the log of a transaction has room for it and its bitmap block |
| Files.Fs.BmapSingle | project_03/fs.c:385-398 | The singly indirect part of bmap, which logs the index block it changes; it succeeds exactly when there is a free block for each empty slot on the way, in a transaction with room in the log for all of it |
| Files.Fs.TopSlot | project_03/fs.c:378-444 | The first step of each indirection: the slot found or filled, everything changed logged, what was free and logged before having become what one allocation makes of it |
| Files.Fs.UpperSlots | project_03/fs.c:401-444 | The first two levels of the doubly and triply indirect parts: the slots found or filled, everything changed but the forgotten index block logged; it succeeds exactly when there are free blocks and room in the log for as many allocations as slots are empty |
| Files.Fs.LowerSlots | project_03/fs.c:432-457 | The same for the first three levels of the triply indirect part |
| Files.Fs.BmapDouble | project_03/fs.c:401-429 | The doubly indirect part, with the exact conditions for success, log room included, and for every changed block to be saved |
| Files.Fs.BmapTriple | project_03/fs.c:432-469 | The triply indirect part, with the same exact conditions |
| Files.Fs.Bmap | project_03/fs.c:372-473 | The address returned is the one that the inode and the index blocks hold for that file block, word by word. bmap extends a partial injective map: a mapped block is found again without change, an unmapped one gets a zeroed block that was free, every other mapping and every block in use stays; what it logs is known exactly, and every changed block is saved by the next commit exactly when the forgotten index blocks had been logged; it succeeds exactly when there is a free block for each empty slot, in a transaction with room in the log for those blocks, their bitmap blocks and the block that it logs last |
| Files.Fs.Readi | project_03/fs.c:582-606 | The slice of the file, cut at its size, with nothing allocated or changed; the blocks read from block 138 on are logged and no others; it panics exactly when one of them meets a full log or there is no transaction |
| Files.Fs.ReadBlocks | project_03/fs.c:599-604 | The loop of readi, with the same exact condition round by round |
| Files.DeepCount | project_03/fs.c:401-469 | A read of blocks from block 138 on logs as many blocks as it reads |
| Files.Fs.ReadBlock | project_03/fs.c:599-604 | One round of readi: a piece of one block; it panics exactly from block 138 on, outside a transaction or on a full log, and logs the block then |
| Files.Fs.Iupdate | project_03/fs.c:220-236 | Word 2 of the 16 of the on-disk inode is its size and words 3 to 15 its addresses afterwards, the other inodes of the block stay, and the block is logged; it panics exactly outside a transaction or on a full log |
| Files.Fs.Writei | project_03/fs.c:611-641 | The bytes become their splice with the source, the size the larger of old size and end; -1 exactly when the offset is past the end or the write past MAXFILE; other files untouched; no slot beyond the size is filled; the on-disk inode keeps agreeing; what is logged are the blocks taken, their bitmap blocks, the data blocks written, the singly indirect block and the inode; the next commit saves all of it exactly when the index blocks forgotten on the way had been logged before; a panic means no transaction, no free block or a full log |
| Files.Fs.WriteBlocks | project_03/fs.c:628-634 | The loop of writei: one splice, and every changed block logged but the index blocks forgotten |
| Files.WriteLogSize | project_03/fs.c:611-641 | The log entries of a write are at most one for each block written, one for each index block taken, one for each bitmap block of those taken, and two |
| Truncate.FreeSlot | project_03/fs.c:487-492 | Freeing a block of the file that was not freed yet frees that block only, and panics exactly outside a transaction, on a full log or without a buffer for its bitmap block |
| Truncate.FreeLeaves | project_03/fs.c:496-500 | The loop over an index block frees exactly the blocks its slots hold, unless the log or the cache is full |
| Truncate.FreeDouble | project_03/fs.c:506-528 | The nested loops free exactly the blocks below the doubly indirect slot, unless the log or the cache is full |
| Truncate.FreeTriple | project_03/fs.c:530-561 | Unless the log or the cache is full the triple loops succeed without freeing block 0 exactly when no lowest index block has an empty slot |
| Truncate.TripleFullIff | project_03/fs.c:530-561 | In a file that fills just the slots of its blocks no lowest index block has an empty slot exactly when it has at most 16522 blocks, or a multiple of 128 more |
| Truncate.EmptyFile | project_03/fs.c:480-565 | What is left is an empty file in a sound file system |
| Truncate.Itrunc | project_03/fs.c:480-565 | Unless it panics it gives back exactly the blocks of the file, each once, if and only if no lowest index block of the triple tree has an empty slot, which for a file as writei leaves it is a condition on the size; with no such slot it panics only outside a transaction or with 27 or more blocks logged in the end, and always with 29 or more; all addresses and the size are 0, on disk too; it changes and logs only bitmap blocks and the inode block, at most size / 4096 + 2 of them, so the next commit saves it all |
| Truncate.LoggedSize | project_03/fs.c:480-565 | Its log entries are one for each bitmap block at most and one for the inode |
| Examples.UnloggedIndexBlock | project_03/fs.c:401-429 | On a disk as mkfs lays it out, a file of 139 blocks: mapping block 139 changes an index block that the next commit leaves out |
| Examples.UnreadableBlock | project_03/fs.c:582-606 | The last block of that file cannot be read outside a transaction |
| Examples.FullLog | project_03/log.c:276-277 | The last thirty blocks of a file of 168 cannot be read at once inside a transaction, with nothing logged before |
| Examples.BrokenTruncation | project_03/fs.c:530-561 | Truncating a sound file of 16523 blocks, with no slot beyond its size, panics or frees block 0 |
| FileWrite.Took | project_01/fs.c:372-400 | One allocation fills one empty slot with a zeroed block that was free and keeps the two levels free of sharing |
| FileWrite.FillRoot | project_01/fs.c:378-388 | A slot of the inode is found without change or filled, at the cost of one bitmap block and the block itself in the log; every block that changes is logged |
| FileWrite.FillWord | project_01/fs.c:389-396 | The same for a word of the indirect block, which is logged when it changes |
| FileWrite.Bmap | project_01/fs.c:372-400 | bmap of project_01: the address returned is address bn of the inode, or from block 12 on word bn - 12 of the block that address 12 names; the mapping grows at most at the block asked for, every block whose contents change is logged, and the bitmap blocks changed are at most one for the block and one for a new indirect block; with room in the log it fails only when fewer blocks are free than slots are to be filled |
| FileWrite.NoHolesExactly | project_01/fs.c:372-400 | A file is without holes exactly when it has at most 140 blocks and none of the words of the inode and of the indirect block that stand for one is 0 |
| FileWrite.ContentExactly | project_01/fs.c:467-471 | Byte i of a file is byte i % 512 of the block at address i / 512 of the inode, or from block 12 on at word i / 512 - 12 of the indirect block |
| FileWrite.Round | project_01/fs.c:498-504 | One round of writei is one splice on the bytes |
| FileWrite.InodeBlock | project_01/fs.c:506-509 | Writing the inode block changes no slot, no bit and no byte of the file |
| FileWrite.ChunkBound | project_01/file.c:127-133 | A chunk at any offset touches at most four blocks, at most three of them new, so its log entries stay within MAXOPBLOCKS = 10 |
| Examples.FullTransaction | project_01/file.c:127-146 | On a disk of 20000 blocks a full chunk, appended inside the last direct block, logs exactly ten blocks |
| FileWrite.Writei | project_01/fs.c:480-511 | A splice on the bytes; slots in use keep their blocks, new ones get blocks that were free, and no used block of anything else changes; every block whose contents change is logged; the on-disk inode keeps agreeing; the number of new log entries is at most twice the blocks touched, less one when the first is entered in the middle, plus three; with room in the log it panics only for want of free blocks |
| FileWrite.BeginOp | project_01/log.c:125-141 | It returns at once when the blocks logged and 10 for each running operation and one more come to at most 30, otherwise after others have ended, and that is so when it returns; at most 10 blocks are logged then |
| FileWrite.EndOp | project_01/log.c:145-175 | The last operation to end commits what is logged; everything that was to be saved is saved or still will be |
| FileWrite.WriteOp | project_01/file.c:133-146 | One transaction of filewrite, begin_op to end_op, logs every block it changes and at most MAXOPBLOCKS new ones, for any offset and any number of bitmap blocks; a full disk is its only panic |
| FileWrite.FileWrite | project_01/file.c:117-156 | The chunks together are one splice of what was written; n is returned exactly when all of it fits; every changed block is logged, so the next commit still saves everything; between two transactions the disk blocks hold a sound file with the chunks so far; "short filewrite" never happens and a full disk is the only panic |
| FileCrash.TransactionRuns | project_01/log.c:125-233 | A transaction that fits into the log is an operation of the runs of the log: one write for each block that changes, and its result joins the history |
| FileCrash.OnDiskKept | project_01/log.c:54-64 | What the log area holds does not matter to a file on the disk |
| FileCrash.CrashDuringFileWrite | project_01/file.c:117-156 | Let the power fail at any point of a run whose operations are the transactions of one filewrite: recovery leaves a sound file, whose bytes are the splice of a prefix of the chunks that covers the last finished commit |
| SchedSpec.RemoveOk | project_01/sched.c:58-86 | Taking a process out of its node keeps every back link, count and node consistent |
| SchedSpec.InsertOk | project_01/sched.c:89-114 | Putting a process into an empty node does too |
| SchedSpec.Room | project_01/sched.c:89-114 | A process outside the queue always finds an empty node at any level, by pigeonhole |
| SchedSpec.PotentialRange | project_01/sched.c:139-219 | The ticks left before the next quantum boundaries sum to at most 3 per process |
| SchedSpec.BoostInTime | project_01/sched.c:139-219 | schedticks never exceeds 99 + 3 * NPROC in a state that keeps the invariant, as every step does |
| SchedSpec.TickAllotted | project_01/sched.c:139-219 | With the demotions made, a node has fewer than 5 ticks at level 0 and fewer than 10 at level 1 |
| SchedSpec.TickExactly | project_01/sched.c:139-219 | A tick, without the model's own terms: the process stays at its level with one tick more, or moves to the next with none at its 5th tick at level 0 and its 10th at level 1; it is to yield after each, 2nd or 4th tick of its level; a boost comes exactly when it is to yield and schedticks has reached 100; nobody else moves otherwise |
| SchedSpec.TickQueue | project_01/sched.c:139-219 | A tick keeps the queue, the allotments, the bound on schedticks plus potential, and the sum of all eticks at most schedticks |
| SchedSpec.TickOk | project_01/sched.c:139-219 | A tick keeps the whole invariant of both tables |
| SchedSpec.ChargedOk | project_01/sched.c:322-338 | After charging a slot all passes are at most 1000000000, tickets and strides are as before |
| SchedSpec.ChargedExactly | project_01/sched.c:322-338 | The slot charged moves on by its stride, or if that is beyond 1000000000 every slot in use goes back to 0 |
| SchedSpec.JoinedStride | project_01/sched.c:380-396 | A client that joins moves tickets from slot 0: used slots still sum to 100, slot 0 keeps at least 20, strides follow the tickets |
| SchedSpec.LeftStride | project_01/proc.c:307-316 | A client that exits gives its tickets back: the sum is still 100 and strides follow |
| SchedSpec.SomeSlot | project_01/sched.c:373-376 | set_cpu_share always finds an EMPTY slot as long as init is under the feedback queue |
| SchedSpec.WorkConserving | project_01/sched.c:282-320 | The process picked can run if and only if something under the feedback queue can, or a runnable stride client has a pass below 1000000000 |
| SchedSpec.PickExactly | project_01/sched.c:282-320 | The slot picked has the least pass of those that compete, the first of them, slot 0 included; the process is that of the slot, one of the queue for slot 0, and the last search's when the queue has none |
| SchedSpec.FirstExactly | project_01/sched.c:32-53 | The node picked is in the first level with a runnable process, the nearest upwards from behind recent, around the end of the table |
| Sched.Scheduler.constructor | project_01/proc.c:143-168 | userinit sets up both tables with init alone in the queue and all 100 tickets in slot 0 |
| Sched.Scheduler.PickMlfq | project_01/sched.c:32-53 | The first runnable node after recent, around the end of the table, in the first level that has one; recent moves there; null exactly when nothing in the queue is runnable |
| Sched.Scheduler.ScanLevel | project_01/sched.c:38-50 | The scan of one level finds the runnable node nearest upwards from behind recent, recent itself last |
| Sched.Scheduler.PopMlfq | project_01/sched.c:58-86 | Takes the process out of its own node and count; -1 exactly when it is not in the queue |
| Sched.Scheduler.PushMlfq | project_01/sched.c:89-114 | Puts it into the first empty node of the level; -1 exactly for a level that does not exist |
| Sched.Scheduler.MovePrior | project_01/sched.c:117-126 | One process changes level with its ticks cleared; nobody else moves |
| Sched.Scheduler.PriorBoost | project_01/sched.c:416-429 | Everybody in the queue is at level 0 with no ticks, the same processes are in it, and schedticks is 0 |
| Sched.Scheduler.AddPassStride | project_01/sched.c:322-338 | The slot of the running process moves on by its stride and no other slot changes, or, if that is beyond 1000000000, every used slot goes back to 0; no sum exceeds 32 bits on the way |
| Sched.Scheduler.AddTick | project_01/sched.c:139-219 | One tick: charge, demotion at the 5th tick of level 0 and the 10th of level 1 and not before, the boost exactly at a quantum end with schedticks at least 100, and the answer whether to yield, keeping the whole invariant |
| Sched.Scheduler.ChargeNode | project_01/sched.c:163-219 | The rest of a tick for a process under the feedback queue: schedticks and its node count one more, then the demotion, the boost and the answer whether to yield |
| Sched.Scheduler.PickStride | project_01/sched.c:282-320 | The runnable process of least pass, the feedback queue standing in for slot 0, with the fallback of the original |
| Sched.Scheduler.LeastSlot | project_01/sched.c:286-300 | Its first loop: the first slot of least pass among slot 0 and the runnable clients |
| Sched.Scheduler.LastSearch | project_01/sched.c:304-316 | Its second loop: the runnable client of least pass below 1000000000, the first of them, or slot 0 |
| Sched.Scheduler.Dispatch | project_01/sched.c:249-268 | The process picked becomes the only running one |
| Sched.Scheduler.SetCpuShare | project_01/sched.c:341-402 | Succeeds exactly for 1 to 80 tickets, from a process outside stride, when slot 0 keeps at least 20; the first EMPTY slot gets the tickets, their stride and the least pass of the other clients, or 1000000000 when there are none, slot 0 loses the tickets, and every other slot and process stays |
| Sched.Scheduler.Leave | project_01/proc.c:399-406 | The running process gives up the CPU; the tables stay |
| Sched.Scheduler.Wakeup | project_01/proc.c:471-479 | A sleeper becomes runnable; the tables stay |
| Sched.Scheduler.Reap | project_01/proc.c:340-356 | A zombie's slot becomes free; the tables stay |
| Sched.Scheduler.Fork | project_01/proc.c:85-131 | The first free process slot enters the queue at level 0; -1 exactly when there is none |
| Sched.Scheduler.Exit | project_01/proc.c:299-322 | The running process leaves whichever table it is in, and its tickets go back to slot 0 |
| SchedRuns.StepOk | project_01/sched.c:32-429 | Ticks, picks, yields, sleeps, wake-ups, forks, exits and set_cpu_share each keep the invariant of both tables |
| SchedRuns.RunKeepsOk | project_01/proc.c:143-168 | It holds in every state of every run that starts where userinit leaves off |
| SchedRuns.EveryRun | project_01/sched.c:139-429 | In every state of every run schedticks is at most 99 + 3 * NPROC and at least the sum of all eticks, tickets of used slots sum to 100 with at least 20 in slot 0, strides follow tickets, passes are within 1000000000, counts count, and each process under the feedback queue is in the node it points back to |
| SchedRuns.LevelByTicks | project_01/sched.c:139-219 | In any run, from a boost or its fork to the next boost, a process that stays under the feedback queue has its first 5 ticks at level 0, the next 10 at level 1 and the others at level 2 |
| SchedRuns.BoostAt | project_01/sched.c:416-429 | In any run a boost comes after 100 ticks of schedticks at the earliest, and lifts everybody in the queue to level 0 with no ticks |
| SchedRuns.StepRecent | project_01/sched.c:32-53 | Only a pick from a level moves its recent index, to the node picked |
| SchedRuns.ScanNearer | project_01/sched.c:32-53 | In any part of a run each pick from the level that passes a runnable node over brings the scan nearer to it |
| SchedRuns.WithinNproc | project_01/sched.c:32-53 | In any part of any run, a node that can run whenever its level is picked from is among any NPROC picks from that level |
| SchedRuns.PassedOver | project_01/sched.c:282-320 | A run from userinit on, with init asleep and a first client that can run, in which init is picked |
| Fairness.StepBalanced | project_01/sched.c:139-338 | Picks, ticks and yields keep the bound on how far the pass of the running slot may be ahead |
| Fairness.BalancedWithin | project_01/sched.c:139-338 | In a balanced state any two passes of the slots that share differ by at most four times the largest stride |
| Fairness.ResetEven | project_01/sched.c:330-335 | A tick that resets leaves all used slots with pass 0, so all passes equal |
| Fairness.WindowBalanced | project_01/sched.c:139-338 | Every state of a window without joins and exits is balanced, across resets |
| Fairness.PassCount | project_01/sched.c:322-338 | In such a window and until the first reset the pass of a slot grows by its stride once per tick it receives |
| Fairness.ProportionalShare | project_01/sched.c:139-338 | Between any two moments of such a window with r resets between them, ticks times stride of any two slots differ by at most 8 + 4 * r times the largest stride, and passes by at most four times |
| Fairness.Projects | project_01/sched.c:139-338 | Any part of a run without joins and exits, in which at each pick every client can run and something under the queue can, or else nothing, is such a window, with a tick that ends a quantum and its yield as one move, the same tick counts and the same resets |
| Fairness.ShareInRun | project_01/sched.c:139-338 | So in any such part of any run the ticks of any two slots between any two moments weigh the same, ticks times stride, within 8 + 4 * r times the largest stride, r being the resets between: all slots while the queue always has work, the clients among themselves while it never has |
| Heap.Canonical | project_01/umalloc.c:24-47 | Two sorted free lists without touching blocks that cover the same units are the same list |
| Heap.SameHeap | project_01/umalloc.c:24-90 | What is allocated determines the whole free list, so frees undo mallocs in any order |
| Heap.GiveSorted | project_01/umalloc.c:34-45 | Coalescing with either neighbour leaves the list sorted with a gap after each block |
| Heap.GiveCovers | project_01/umalloc.c:34-45 | The freed units, and no others, are added to the free ones |
| Heap.RingGive | project_01/umalloc.c:34-45 | The two headers that free writes make memory hold the new list as a ring with one wrap |
| Heap.TakeCovers | project_01/umalloc.c:76-87 | Taking a block or its tail removes exactly its units from the free ones |
| Heap.RingTake | project_01/umalloc.c:76-87 | The headers that malloc writes make memory hold the remaining list as a ring |
| Heap.GiveSound | project_01/umalloc.c:24-47 | Freeing keeps every unit got from the system in exactly one block, free or allocated |
| Heap.TakeSound | project_01/umalloc.c:76-87 | So does allocating, and the block returned overlaps no other |
| Heap.GrowSound | project_01/umalloc.c:49-64 | So does a new chunk from sbrk |
| Heap.StopsAt | project_01/umalloc.c:31-33 | The search of free stops at the block behind which the freed one belongs and at no other, the wrap included |
| Heap.PassedNext | project_01/umalloc.c:75-88 | A full turn of the search of malloc has seen every block, and each step brings it nearer to freep |
| Heap.PassedExactly | project_01/umalloc.c:75-88 | The blocks passed over are all those that come before, by address from freep on and around |
| Heap.FreePayload | project_01/umalloc.c:24-47 | free writes to headers only, never to what another block holds |
| Heap.NunitsEnough | project_01/umalloc.c:72 | The units looked for hold the bytes asked for if and only if the request is at most 2^32 - 8 |
| Heap.NoPayload | project_01/umalloc.c:72 | Every larger request is rounded up to the header alone |
| Heap.StrayBytes | project_01/umalloc.c:49-64 | 8 times the units wraps around or is taken as negative exactly for requests above 2^31 - 16 up to 2^32 - 8 |
| Heap.RunInBlock | project_01/umalloc.c:24-47 | Free units that lie one after the other are in one free block |
| Heap.Allocator.Sbrk | project_01/sysproc.c:59-71 | The old break, or -1; a positive number of bytes moves it up, unless there is no room or it would reach KERNBASE, a negative one down unless that would be to 0 or below |
| Heap.StrayBlock | project_01/umalloc.c:66-90 | A request for 2^31 bytes returns a block that begins where the memory of the process ends |
| Heap.Allocator.Search | project_01/umalloc.c:29-33 | The loop of free ends, at the free block that the freed one goes behind |
| Heap.Allocator.Free | project_01/umalloc.c:24-47 | The block joins the free units and leaves the live ones; the next search starts at the free block before it, or the one that swallowed it; the heap invariant and every other block's contents stay |
| Heap.Allocator.Morecore | project_01/umalloc.c:49-64 | 4096 units when fewer are needed, otherwise exactly the units needed, come in as a free block at the old break, or nothing changes when sbrk refuses; the units are memory of the process exactly when fewer than 2^28 were needed |
| Heap.Allocator.Carve | project_01/umalloc.c:76-87 | The block found, or its tail, becomes a live block of the size asked for, and the block before it the start of the next search |
| Heap.Allocator.Find | project_01/umalloc.c:75-88 | The loop of malloc ends: at the first block big enough from behind freep on, by address and around, or after one call of morecore, at one that morecore has brought or with none |
| Heap.Allocator.Malloc | project_01/umalloc.c:66-90 | It ends, asks sbrk at most once and only when no free block is big enough, returns 0 exactly when sbrk then refuses, and otherwise a new block of the size asked for, the tail of the first free block big enough from behind freep on or of the new chunk; that block is memory of the process and holds the bytes exactly for requests up to 2^31 - 16, and up to 2^32 - 8 from a block that was free; other blocks keep their contents |
| Heap.Allocator.Store | project_01/umalloc.c:13-19 | A program that writes only behind its own headers cannot break the heap |
| Vm.Machine.Kfree | project_01/kalloc.c:59-77 | The frame's first word names the old head of the list, or is 0, every other byte is 1, and it heads the list; no frame is listed twice |
| Vm.Machine.Kalloc | project_01/kalloc.c:82-95 | The head of the list leaves it; 0 exactly when it is empty |
| Vm.Machine.Freerange | project_01/kalloc.c:46-53 | Exactly the whole pages of the range join the list, once each |
| Vm.SetEntryView | project_01/vm.c:73 | Writing an entry changes that page of the address space and no other, for no two tables share a frame |
| Vm.AddTableView | project_01/vm.c:45-52 | A new page table changes no entry; it is zeroed, and its directory entry is 4096 times its frame plus 7 |
| Vm.MapUser | project_01/vm.c:73 | Mapping a user page adds exactly its frame to those the address space owns |
| Vm.UnmapUser | project_01/vm.c:274-275 | Unmapping takes exactly its frame away |
| Vm.Machine.Walkpgdir | project_01/vm.c:35-55 | The table of the page, made if asked for: zeroed, from the head of the free list, with a directory entry that has PTE_P, PTE_W and PTE_U set and no other flag, every other frame and directory entry being as it was; it fails exactly when a table is missing and may not or cannot be made |
| Vm.EntryExactly | project_01/vm.c:35-55 | The entry of a page is the word that the hardware finds through the directory, 0 without a table |
| Vm.OwnedExactly | project_01/vm.c:283-298 | The frames of an address space are its directory, the tables that present entries name, and the pages below KERNBASE that present entries of those name |
| Vm.Machine.Mappages | project_01/vm.c:60-80 | A prefix of the pages is mapped to consecutive frames, all of them unless frames run out, each with the permissions asked for and PTE_P; directory entries stay, or are new with all three bits; everything else stays; one page needs at most one frame |
| Vm.UnmappedSkip | project_01/vm.c:267-268 | Skipping a directory entry without a table equals looking at each of its pages |
| Vm.Machine.Deallocuvm | project_01/vm.c:255-279 | Directory by directory it leaves what unmapping page by page leaves: exactly the present pages of the range are gone and their frames free |
| Vm.Machine.Allocuvm | project_01/vm.c:221-249 | The new pages and no others get fresh zeroed frames, or the user mapping is restored; a program may use the new pages at both levels; directory entries stay or are new with all three bits; it succeeds exactly when there is a frame for each page and each missing table |
| Vm.FreshExactly | project_01/vm.c:221-249 | At each address of a new page the directory entry and the page table entry both have PTE_P, PTE_W and PTE_U set, and the frame behind them was free and holds zeros |
| Vm.Machine.Freevm | project_01/vm.c:283-298 | Every frame of the address space is given back exactly once and no other frame is touched |
| Vm.Machine.Setupkvm | project_01/vm.c:118-136 | A new address space with exactly the kernel's mappings, made of free frames, or 0 with all frames back |
| Vm.KEntryExactly | project_01/vm.c:104-116 | The table of kernel mappings maps page by page, each with its permissions and PTE_P, and nothing outside its ranges |
| Vm.OtherReady | project_01/vm.c:315-345 | Making one address space changes nothing of another and shares no frame with it |
| Vm.Machine.Copyuvm | project_01/vm.c:315-345 | Each user page of the copy has the flags and contents of the original in a frame that was free, or 0 with all frames back and nothing else touched |
| Vm.CopiedExactly | project_01/vm.c:315-345 | The byte at each address of the copy is that of the original, behind entries with the same flags and a directory entry with all three bits |
| Grep.MatchHere | project_01/grep.c:84-96 | True exactly when a word of the pattern starts the text, and ends it if the pattern ends in $ |
| Grep.MatchStar | project_01/grep.c:98-106 | The shortest-first search succeeds exactly when some split into repetitions and rest exists |
| Grep.StarStep | project_01/grep.c:98-106 | c*re starts a text exactly when re does, or one more c and then c*re |
| Grep.CharStep | project_01/grep.c:89-95 | A single character starts a text exactly when it accepts the first one and the rest of the pattern starts the rest |
| Grep.HereExactly | project_01/grep.c:84-106 | The cases of the matcher determine what it means that a pattern starts a text: an empty pattern, c*, a last $, a single character |
| Grep.FoundExactly | project_01/grep.c:72-82 | With ^ a match is one at the start, otherwise one anywhere, the empty end included |
| Grep.Match | project_01/grep.c:72-82 | True exactly when some part of the line is a word of the pattern, at the start with ^, at the end with $ |
| Grep.SeesAllLines | project_01/grep.c:17-35 | However the input is cut into reads, grep looks at exactly its finished lines if and only if no read without a newline comes before one with |
| Grep.HalfLine | project_01/grep.c:17-35 | A line cut in two by the reads shows as its second half |
| Grep.SeenSize | project_01/grep.c:17-35 | grep never looks at more bytes than the finished lines hold |
| Grep.TakeLines | project_01/grep.c:20-34 | One turn of the loop writes the matching lines of the buffer and moves the unfinished rest to its front |
| Grep.Grep | project_01/grep.c:10-36 | What is written is every matching line among those looked at, in order, with its newline |

## Left out

- Hardware, boot, interrupts, `ide.c`, the console, trap entry and `swtch`: a disk block is read or written in one step.
- Spinlocks, sleep locks, sleep and wakeup, memory order: each lock-protected region is one step; the unlocked reads in `set_cpu_share` and `isBufFull` are taken as atomic.
- The device number is always that of the root device; 0 marks a buffer that never held a block.
- Inode cache, reference counts, the type and link count of the on-disk inode, directories, path names, exec, pipes, system-call arguments, the shell and the user test programs: plumbing or easier members.
- Devices in `readi` and `writei`, and `filewrite` on a pipe.
- RedoLog.Log.CommitLog: there is room in the cache for the two buffers it needs, counting those held by others and those pinned; it would panic otherwise. So for `RedoLog.Log.EndOp` and `RedoLog.Log.Sync`.
- Several operations outstanding at once: the deferred commit admits one at a time.
- `Files` and `Truncate` run while no other process holds a buffer. `bmap`, `readi`, `writei` and `iupdate` then hold at most two at a time beside at most 28 pinned ones, or one beside 29, so by `Bio.Cache.Spare` the panic of `bget` does not come before that of `log_write`; `itrunc` holds up to four.
- Truncate.Itrunc: with 27 or 28 blocks logged in the end it depends on the order in which they are logged whether the panic of `bget` comes first; both outcomes are allowed.
- `filepwrite`, which does not advance its offset between chunks.
- FileWrite.BeginOp: the operations that it waits for end without writing any more. So for `FileWrite.WriteOp`, during which no other operation writes.
- More than one CPU.
- Sched.Scheduler.Fork: leaves out the failures of the kernel stack and of `copyuvm`, after which the node stays behind.
- Sched.Scheduler.Dispatch: one turn of the loop of `scheduler`, without the search for runnable candidates around it.
- Sched.Scheduler.SetCpuShare: init does not call it; with init in the stride table the pigeonhole for an EMPTY slot would not hold.
- Fairness.ProportionalShare: windows have no joins or exits, every client can run at each pick, and either something under the feedback queue can at each of them or nothing at any.
- Heap.Allocator.Morecore: when the chunk is not memory of the process, its header is stored all the same; the page fault that may follow, and the loss of what was in pages given back, are not modelled.
- Threads, and the scheduler copies of `project_02` and `project_03`.
- Heap.Allocator.Sbrk: the break is a whole number of headers above 0, as it is for a program that asks for whole headers; whether there are frames for the new pages is an argument.
- Addresses in `Vm` are frame numbers and page numbers; the translation between kernel virtual and physical addresses appears in the links of the free list only.
- Vm.Machine.Mappages: a range lies on one side of KERNBASE, and the frames of user pages belong to nobody, as all callers arrange.
- Vm.Machine.Deallocuvm: the range ends at KERNBASE at the latest, as all callers arrange.
- Vm.Machine.Allocuvm: no page of the range is mapped yet, for mappages would panic.
- Vm.Machine.Copyuvm: the pages to copy lie below KERNBASE and are there, for it would panic otherwise.
- Vm.Machine.Setupkvm: the four kernel mappings come in as an argument, for one of them depends on where the kernel was linked.
- `inituvm`, `loaduvm`, `clearpteu`, `uva2ka`, `copyout` and the segment set-up of `vm.c`.
- Grep.Grep: input with NUL bytes, at which `strchr` would stop; reads come in as an argument.
