# xv6 storage, memory, process and shell core, in Dafny

This project models the parts of the kernel and of the user programs that are hardest to get right, and proves what
they promise.

- **Storage.** The write-ahead log (`LogBook`, `LogDisk`, `LogTrace`, `LogHeader`, `Log`, `LogMachine`,
  `LogProgress`), the buffer cache
  (`BufferRing`, `BufferCache`), inodes, blocks and the bitmap (`FsModel`, `FsSteps`, `FsHoles`,
  `Dinodes`, `Fs`, `Bitmap`), chunked writes (`FileWrite`), directories (`DirModel`, `Directory`), and the image builder (`MkfsLayout`,
  `MkfsModel`, `Mkfs`, `RootDirectory`).
- **Memory.** The user-level allocator (`HeapModel`, `Umalloc`) and two-level page tables over a page free list
  (`PageModel`, `PageTable`).
- **Processes.** Sleep and wakeup (`SleepWakeup`), the process table under fork, exit, wait and kill (`ProcModel`,
  `ProcTable`), and pipes (`Pipe`).
- **Programs.** The shell's parser (`ShellGrammar`, `ShellSyntax`, `ShellLexer`, `ShellText`, `Shell`) and grep's matcher (`Grep`).

Code that updates things in place is modelled by classes and by methods with loops, each proved against a
specification function or relation; protocols are modelled as steps of any number of processes, with theorems over all
runs. `dafny verify dfyconfig.toml` checks everything.

Three conventions recur. A `ghost` parameter or result names what a caller knows but the code does not look at. Where the
environment decides something (whether sbrk succeeds, whether a process has been killed, the kernel's `data` symbol), it is a
parameter. And some invariants and relations are values of type `Status`, sealed as the module `Sealed` describes, so that
`Health(...) == Sound` means that the predicate in the function's body holds.

Where the code falls short of the natural claim, the model follows the code and the exact condition is proved:

- log_write's panic is reachable with the documented limit of ten blocks per operation (`LogBook.PanicExactly`), and filewrite's
  chunks can exceed that limit, up to 17 blocks (`FileWrite.ChunkExceeds`, `FileWrite.SeventeenBlocks`, `FileWrite.ChunksOverrunLog`).
- allocuvm ignores a failing mappages (`PageTable.Vm.AllocUvm`, `PageTable.AllocLosesFrame`), copyuvm loses a frame when mappages fails
  (`PageTable.Vm.CopyUvm`, `PageTable.CopyLosesFrame`), and setupkvm gives nothing back when it fails (`PageTable.Vm.SetupKvm`), each
  with the number of free frames at which it shows.
- after such a false success of allocuvm the next call leaves a hole in the user part (`PageTable.Vm.AllocUvm`, `PageTable.AllocLeavesHole`).
- mkfs leaves a hole at the end of a root directory that fills its blocks; reading it takes a block, panics outside a transaction, and on a
  full partition takes the superblock of the next; the disk's inode never learns of that block (`Mkfs.KernelReads`, `Mkfs.ListRoot`,
  `Mkfs.ListThirty`, `Mkfs.WipeNext`, `Dinodes.ReadSynced`).
- files whose names agree in fourteen bytes hide one another in the root directory (`RootDirectory.EveryNameFound`).
- a process can start out killed (`ProcTable.Table.AllocProc`, `ProcTable.BornKilled`).
- a killed writer can leave a reader of a pipe asleep before a full pipe (`Pipe.MissedExactly`).
- balloc looks at more bits than the partition has data blocks (`MkfsLayout.StaysInside`).

## Model

| member | source | states |
|---|---|---|
| LogBook.ReservationHolds | log.c:125-161 | over every interleaving of begin_op, log_write and end_op by any number of processes, if no operation logs more than MAXOPBLOCKS distinct blocks: header entries stay distinct, lh.n plus all unused reservations is at most LOGSIZE, and `committing` excludes every operation in progress (so the panic in end_op cannot happen) |
| LogBook.ThreeAtOnce | log.c:125-141 | for every number of processes: as many can begin an operation one after the other on an empty log if and only if they are at most three |
| LogBook.NeverFour | log.c:125-161 | in every run at most three operations are in progress |
| LogBook.EndReturnsSlack | log.c:145-161 | an operation that ends early gives back exactly what it reserved and did not use |
| LogBook.PanicExactly | log.c:125-141 | for every log size and every per-operation limit, a run that reaches the panic of log_write exists if and only if 10 + 2 * limit (or 0, when operations may log nothing) is at least size - 1 or at least LOGSIZE |
| LogBook.DocumentedLimitPanics | log.c:211-221 | with the 30 log blocks that mkfs makes, the documented limit of 10 blocks per operation does reach the panic, and any smaller limit does not |
| LogBook.TwoOpsOverrun | log.c:125-141 | two operations within a limit that together fill the log are both admitted and lead to the panic, for every split of the blocks between them |
| LogDisk.RecoveryRestarts | log.c:69-122 | recovery cut off after any number of its block writes and started again ends where an undisturbed recovery ends |
| LogDisk.RecoveryAfterAnyCrashes | log.c:115-122 | the same for any number of recoveries, each cut off anywhere |
| LogDisk.CommitIsAtomic | log.c:175-200 | a crash after any single-block write of commit, then recovery: all home blocks old up to the last write before the header, all blocks of the transaction new and all others old from the header write on |
| LogDisk.CrashAnywhereThenRecover | log.c:69-122 | commit cut off anywhere, then any number of cut-off recoveries, then a complete one: all of the transaction if and only if the header had been written, otherwise none of it |
| LogHeader.HeadRoundTrip | log.c:84-113 | whatever older words the header block holds, read_head finds what write_head stored, at the level of bytes |
| LogHeader.ParseHead | log.c:84-96 | the loop of read_head yields the entries that the bytes of the header stand for, for every header whose count is at most LOGSIZE |
| LogHeader.FillHead | log.c:98-113 | the loop of write_head yields the header bytes that read_head turns back into the entries |
| LogHeader.ByteFormatRoundTrips | log.c:84-113 | the bytes of the header meet what the log model asks of a header format |
| Log.Log.BeginOp | log.c:125-141 | one turn of the admission loop: admitted exactly when the book-keeping model admits, and then the model's new state |
| Log.Log.EndOp | log.c:145-161 | the model's new state, and a commit exactly when this was the last operation |
| Log.Log.LogWrite | log.c:211-231 | absorption and append in the header array agree with the model, the newest content is pinned, and the call fails exactly in the two panic cases |
| Log.Log.ReadHead | log.c:84-96 | the header array becomes what the disk's header block decodes to |
| Log.Log.WriteHead | log.c:98-113 | one block write, after which the decoded disk has the in-memory entries as its header and nothing else changed |
| Log.Log.WriteLog | log.c:175-188 | one write per entry, each copying the newest cached content, in the order of the model's trace |
| Log.Log.InstallTrans | log.c:69-82 | the sequence of disk states is the model's installation trace, and exactly the installed blocks lose their pin |
| Log.Log.Commit | log.c:190-200 | the disk goes through exactly the 2n + 2 states for which crash atomicity is proved, one per block write |
| Log.Log.RecoverFromLog | log.c:115-122 | the disk goes through exactly the states of the restartable recovery and ends recovered |
| LogMachine.RunKeepsInv | log.c:125-231 | processes taking, loading, changing, logging and releasing cached blocks, eviction, a block-by-block committer, and a crash between any two steps: one invariant over every run |
| LogMachine.CrashSafety | log.c:175-200 | at every moment of every run, power loss and recovery would leave each home block as a prefix of the history left it, cut where no operation is in progress |
| LogMachine.NoOpSplit | log.c:145-172 | an operation that began before such a cut also ended before it, so no operation is split between two transactions |
| LogMachine.DurableGrows | log.c:190-200 | what has become durable stays so: later durable histories extend earlier ones |
| LogMachine.QuietIsDurable | log.c:145-172 | with no operation in progress and no commit under way, everything done so far is durable and the header empty |
| LogMachine.ReadsSeeLatest | bio.c:62-110 | a valid buffer that its holder has not touched holds the last logged write, whatever was evicted, reloaded or installed since |
| LogMachine.WriteAhead | bio.c:84-95 | until the header write, no step moves a logged block at its home location, drops its buffer or clears its dirty mark |
| LogMachine.LogsLatest | log.c:175-188 | what write_log puts in the log is the latest content of the block |
| LogProgress.CommitCompletes | log.c:145-200 | from every state of every run, crashes included, a commit or recovery under way can be completed by its own steps and those of whoever holds a block it waits for, within a bound; then operations are admitted again and everything done is durable |
| BufferCache.Cache.constructor | bio.c:40-58 | the ring holds all buffers once, with mutually inverse links |
| BufferCache.Cache.Find | bio.c:69-82 | the walk along `next` finds the buffer of a block if and only if there is one |
| BufferCache.Cache.FindVictim | bio.c:84-95 | the walk along `prev` finds the least recently released buffer that is neither busy nor dirty, and fails only if there is none |
| BufferCache.Cache.Bget | bio.c:62-97 | one pass from `loop:` to a return, a sleep or the panic, so for any interleaving: at most one buffer per block, no dirty or busy buffer recycled, the least recent victim, and every block's content as seen through the cache unchanged |
| BufferCache.Cache.Iderw | memide.c:37-59 | a dirty buffer goes to the disk, an invalid one is read; nothing else changes |
| BufferCache.Cache.Bread | bio.c:100-110 | the buffer returned holds the block's current content, as left by its previous holder |
| BufferCache.Cache.Bwrite | bio.c:113-120 | the disk gets the buffer's content, no block looks different, and it fails exactly when the buffer is not held |
| BufferCache.Cache.MoveToFront | bio.c:131-137 | the pointer assignments take one buffer to the front and leave the order of the others, so the ring stays in order of release |
| BufferCache.Cache.Brelse | bio.c:122-143 | released to the front of the ring, content seen through the cache unchanged, failing exactly when the buffer is not held |
| BufferRing.FrontIsLatest | bio.c:131-137 | moving the released buffer to the front keeps the ring in order of last release |
| BufferRing.UnlinkLinked | bio.c:131-132 | unlinking keeps prev and next mutually inverse over the remaining buffers |
| BufferRing.PushFrontLinked | bio.c:133-136 | linking in at the front does so too |
| FsModel.NamedOnce | fs.c:466-496 | no two slots, direct or indirect, of any inodes name the same block |
| FsModel.AllocatedSound | fs.c:132-166 | allocating a block whose bit is clear touches no block in use, and changes no file |
| FsModel.WithBytesSound | fs.c:594-600 | writing into a data block changes exactly those bytes of exactly that file |
| FsModel.TruncatedSound | fs.c:503-531 | truncation clears exactly the bits of the blocks the file owned and keeps all others owned as before; the file is empty, and size and every byte of every other file are as before |
| FsModel.ByteWordsWork | fs.c:480-490 | the bytes of an indirect block meet what the model asks of its words |
| Fs.Partition.Balloc | fs.c:132-166 | the first clear bit is set and its block zeroed; it fails exactly when the bitmap is full |
| Fs.Partition.Bfree | fs.c:168-189 | clears the bit, and panics exactly when it was clear already |
| Fs.Partition.Bmap | fs.c:466-496 | the slot names a block afterwards, no other slot of any inode changes except that the indirect block may be supplied, every file's bytes are kept, and exactly the stated blocks are passed to log_write; a direct slot takes the first free block; of its own panics and balloc's: it panics if and only if the slot is out of range or the blocks it lacks, the indirect block included, are more than are free |
| Fs.Partition.WriteI | fs.c:575-605 | for every inode, offset and length accepted: old prefix, source, old suffix, across the direct and indirect regions; every other file unchanged; refused exactly when the source refuses; balloc panics if and only if the blocks that the range lacks are more than are free; where no file has a hole, none has one afterwards; read back from its block on the disk, the inode is the new one if the file has grown and the old one otherwise, and every other inode is as it was; so a disk that had all inodes as memory has them still does if and only if the file has grown or the inode lacks no block of the range |
| Fs.Partition.ReadI | fs.c:547-571 | exactly the slice of the file at the offset, clipped to its size; no file changes although blocks may be supplied; refused exactly when the source refuses; balloc panics if and only if the slots in the slice that name no block are more than the free blocks; the exact set of blocks passed to log_write, which is empty, with nothing changed, if and only if every slot in the slice names a block; what a single missing slot takes; the disk's inodes stay as they were, and so agree with memory if and only if the inode lacks no block of the slice |
| Fs.Partition.Itrunc | fs.c:503-531 | never reaches "freeing free block", returns exactly the blocks the file owned, leaves the file empty, on the disk too, leaves every other file and its blocks alone, and makes no hole |
| Fs.Partition.Iupdate | fs.c:304-322 | inode by inode: read back from its block, the inode is as memory has it and its neighbours are as they were; no file changes |
| Dinodes.DinodeBack | fs.c:311-319 | for every block, place and inode: an inode put into a block is read back from it, and the seven others as before |
| Dinodes.DinodeFormat | fs.h:28-35 | of an inode's sixteen words the third is the size and the last thirteen are the addresses; type, device numbers and link count before them are not touched |
| Dinodes.WriteSynced | fs.c:600-603 | a write leaves memory and disk agreed on every inode if and only if it grows the file, when iupdate is called, or the inode names every block it needs |
| Dinodes.ReadSynced | fs.c:564-570 | a read does if and only if the inode names every block it needs, because bmap may give it one and readi does not call iupdate |
| FsHoles.WriteKeepsWhole | fs.c:575-605 | writing within a file or at its end makes no hole: every slot below the size names a block, no other does |
| FsHoles.WholeReads | fs.c:547-571 | reading a file without holes takes no block, whatever the offset and length |
| FileWrite.WriteCostCount | file.c:116-155 | the exact number of distinct blocks that one writei passes to log_write, in terms of what it reaches, supplies and extends |
| FileWrite.ChunkSpan | file.c:132-137 | a chunk reaches at most 14 blocks, and 14 exactly when its alignment and length say so |
| FileWrite.ChunkCost | file.c:132-137 | a chunk logs at most 17 distinct blocks for any alignment, and 17 if and only if it reaches 14 blocks, fills an indirect entry and extends the file |
| FileWrite.ChunkExceeds | file.c:124-137 | the exact condition, on offset, length and the slots that name no block, for a chunk to log more than the ten blocks that begin_op reserves |
| FileWrite.SeventeenBlocks | file.c:132-149 | a file and a chunk for which the 17 are reached: 6656 bytes at the end of a file of 6145 |
| FileWrite.ChunksOverrunLog | file.c:124-132 | the log admits two such operations together; a run in which one logs 17 blocks and the other 12 ends in the panic of log_write |
| FileWrite.WriteIntoTwice | file.c:133-149 | a write followed by one where it ended is the write of both |
| FileWrite.AcceptedIs | file.c:124-149 | all bytes are accepted if and only if there are none, or they start within the file and fit the largest; of those that do not fit, the greatest number of whole chunks that do |
| FileWrite.OpenFile.Write | file.c:116-155 | the effect is one contiguous write, at the starting offset, of the bytes of the chunks that are accepted; how many those are is given exactly, with the result, and they are all if and only if there are none or they start within the file and fit the largest one; other files unchanged; no hole is made; without holes memory and disk stay agreed on every inode; balloc panics if and only if the blocks those bytes lack are more than are free; log_write's panics are those of `FileWrite.ChunksOverrunLog` |
| FileWrite.OpenFile.Read | file.c:96-112 | the slice at the file's offset, which moves past it; it panics if and only if blocks are missing in the slice and are more than are free, or no operation is in progress, because log_write is then called outside a transaction; without holes it never panics and changes nothing |
| Bitmap.OneBitChanges | fs.c:150-153 | setting or clearing one bit by mask in its byte is setting or clearing that bit of the bitmap and no other |
| Bitmap.FindAndSet | fs.c:149-160 | the byte-level scan sets the first clear bit below the size, or finds the bitmap full |
| Bitmap.Clear | fs.c:180-186 | the bit is cleared in its byte, failing exactly on a clear bit |
| Bitmap.MarkUsed | mkfs.c:222-235 | exactly the first `used` bits, in the kernel's numbering, are set |
| MkfsLayout.PartitionsApart | mkfs.c:137-145 | no block lies in two partitions |
| MkfsLayout.ReadsWhatWasWritten | fs.c:66-77 | readsb recovers the absolute layout from the relative one on the disk, through bytes and 32-bit arithmetic |
| MkfsLayout.SuperblocksAlike | mkfs.c:396-404 | partitions of one size have the same superblock on the disk wherever they lie |
| MkfsLayout.KernelFindsMetadata | fs.h:37-47 | the kernel's block numbers for inodes, bitmap bits and log blocks fall in the regions that mkfs laid out, for every partition size |
| MkfsLayout.FirstAgrees | mkfs.c:352-371 | the kernel and mkfs agree on the first data block if and only if the partition has fewer than 4096 blocks, that is one bitmap block |
| MkfsLayout.StaysInside | fs.c:142-149 | the block for a bit lies in its own partition's data region if and only if the bit is below nblocks, while balloc looks at all bits below sb.size |
| MkfsLayout.Overhang | mkfs.c:354-356 | with the sizes used, bit 942 of one partition stands for the superblock of the next |
| Mkfs.Maker.constructor | mkfs.c:344-371 | after zeroing, every inode is an empty file and no block is used; blocks outside the partition are untouched |
| Mkfs.Maker.NeedBlock | mkfs.c:254-268 | the slot is mapped to a block of its own, taken in order, without changing any file; it stops only if the slot needs more blocks than the partition has left |
| Mkfs.Maker.Winode | mkfs.c:166-178 | the inode is in its block, between its neighbours, and no file changes |
| MkfsModel.BuiltNeed | mkfs.c:250-278 | appending to a file without holes takes the difference of the blocks that the two sizes need, the indirect block included |
| Mkfs.Maker.Iappend | mkfs.c:239-280 | the bytes are added at the end of the file across the direct and indirect regions, every other file unchanged, block ownership kept, every slot below the size mapped and no other; exactly when it stops at the largest file size, when at the end of the partition, and when not at all |
| Mkfs.Maker.AddFile | mkfs.c:418-441 | the entry of the name and the new inode's number is added to the root, and the new inode's content is the whole file; exactly when it stops, and for which of the two reasons; that dirlookup finds the one by the other is `RootDirectory.EveryNameFound` |
| Mkfs.Maker.CopyIn | mkfs.c:440-441 | appending a file buffer by buffer is appending it at once |
| Mkfs.Maker.InitPartition | mkfs.c:344-407 | it succeeds if and only if every file is at most MAXFILE blocks (71680 bytes), the files and the root directory, indirect blocks included, take no more than nblocks blocks, and those are fewer than the bits of the bitmap block; then inode by inode the partition holds the root directory and exactly the files given, as many blocks are used, the root's size is rounded up by the source's own formula with its further block left a hole, and the superblock, the bitmap block and every inode are on the disk |
| Mkfs.Maker.WriteBitmap | mkfs.c:221-235 | the bitmap block on the disk, read with the kernel's bit numbering, marks used exactly the blocks that iappend assigned; it fails exactly when there are 4096 or more |
| Mkfs.Mount | fs.c:373-405 | the kernel reads the superblock at the partition's offset and, where that says, the bitmap block and every inode from its block; what it finds is a sound partition with the contents that mkfs built, memory and disk agreed on every inode |
| Mkfs.KernelWritesThere | fs.h:37-41 | on a mounted partition the block that the kernel logs for an inode is the one mkfs wrote it to; it lies among the blocks for inodes; two inodes share it if and only if they are of the same eight |
| Mkfs.KernelReads | fs.c:547-571 | the kernel reads each file and the root directory back: exactly the bytes appended, from the offset on, clipped to the size; it passes nothing to log_write and changes nothing, if and only if it does not read past the entries of a root directory whose entries, its own two included, are a multiple of 32; then it gives the hole the first block that mkfs has not used, nothing else changes, and the disk's inode does not have that block |
| Mkfs.PluggedWith | fs.c:142-153 | that block is zeroed; it lies in the partition if and only if mkfs has left a block unused, and otherwise is the superblock of the next partition |
| Mkfs.ListRoot | file.c:96-112 | reading the root directory of a new partition panics if and only if no operation is in progress and the read goes past the entries of such a directory |
| Mkfs.ListThirty | mkfs.c:391-395 | with thirty empty files it does |
| Mkfs.WipeNext | fs.c:142-153 | with thirty empty files on a partition of one data block, a read of the root directory within an operation zeroes the superblock of the next partition |
| Mkfs.ImageIsWhole | mkfs.c:391-395 | what mkfs built has a hole if and only if the root's entries are a multiple of 32; otherwise reads never take a block, as `Fs.Partition.WriteI` and `Fs.Partition.Itrunc` make no hole |
| Mkfs.MakeThenRead | mkfs.c:344-407 | from a disk and the files given to what the kernel reads: file by file, the same bytes |
| DirModel.EqualIsSame | string.c:58-66 | strncmp over fourteen bytes finds two names equal if and only if they agree up to a NUL or fourteen bytes |
| DirModel.LookupFinds | fs.c:635-649 | for every directory of whole entries: dirlookup returns the first entry in use with the name, its number read low byte first, and nothing if and only if there is none |
| DirModel.EntryReads | fs.c:672-673 | an entry written by dirlink or mkfs is read with the number and, up to fourteen bytes, the name written |
| DirModel.LinkThenLookup | fs.c:651-678 | after dirlink the name is found with its number and every other name as before; no two entries in use have one name if none had |
| DirModel.UnlinkThenLookup | sysfile.c:206-218 | after unlink's write the name is not found and every other name is as before |
| DirModel.DirectoryIsMap | fs.c:620-678 | over every sequence of dirlinks and unlinks, for every name: the directory answers as a map from names to numbers does that the same sequence has changed |
| Directory.SameName | string.c:58-66 | the loop decides whether two names agree in fourteen bytes |
| Directory.DirLookup | fs.c:620-649 | the loop over readi gives what the bytes of the directory say; no file changes; it runs out of blocks only where blocks of the directory are missing and more than are free; without holes never, and then nothing at all changes |
| Directory.DirLink | fs.c:651-678 | refuses a name that is there; otherwise the directory's bytes are the old ones with the entry in the first free place or at the end, and no other file changes; for whole entries and files without holes it panics if and only if there is no room for the entry |
| RootDirectory.RootLookup | fs.c:635-649 | for every list of names given to mkfs and every name: dirlookup in the root finds it if and only if one of `.`, `..` and those agrees with it in fourteen bytes, and then at the inode of the first such |
| RootDirectory.EveryNameFound | mkfs.c:418-441 | each file is found under its name at its own inode if and only if the names, with `.` and `..`, differ in fourteen bytes; `.` and `..` are found at inode 1 |
| RootDirectory.RootNamesDiffer | mkfs.c:418-441 | no two entries of the root have one name if and only if that is so, which is what dirlink and unlink need |
| RootDirectory.FindByName | fs.c:620-649 | the kernel mounts what mkfs made and looks a name up in the root: the result is the one above, for every list of files |
| RootDirectory.OpenThenRead | fs.c:547-571 | and what it reads at the inode found is the file put in under the first name that agrees |
| HeapModel.FreedSound | umalloc.c:24-44 | after linking in and joining with either neighbour the list is circular, address-ordered, disjoint from itself and from live blocks, with no two free blocks adjacent, and has gained exactly the freed units |
| HeapModel.TakeSound | umalloc.c:76-77 | unlinking a whole block keeps all that, with the block now live |
| HeapModel.CutSound | umalloc.c:79-81 | cutting the tail off a block keeps all that, with the tail now live and disjoint from everything |
| HeapModel.FreshSound | umalloc.c:53-58 | memory from sbrk above all else is disjoint from every block |
| Umalloc.CodeIsFreed | umalloc.c:32-43 | the pointer and size assignments of free are insertion followed by the two joins, in all four cases |
| Umalloc.Heap.FindPlace | umalloc.c:30-32 | the search terminates on every ring and stops at the one free block that the freed block goes after |
| Umalloc.Heap.Free | umalloc.c:24-44 | the heap stays sound, the block is no longer live, no unit is lost, and a free block at least as large exists afterwards |
| Umalloc.Heap.Morecore | umalloc.c:46-61 | fails exactly when sbrk does, leaving the heap as it was; otherwise the units obtained grow by the size asked for and a free block is large enough |
| Umalloc.Heap.Search | umalloc.c:74-89 | the search terminates with at most one call of morecore, and finds nothing only if no free block fits and sbrk fails |
| Umalloc.Heap.Malloc | umalloc.c:63-90 | fails if and only if no free block fits and sbrk fails; otherwise a block disjoint from all live ones with exactly the units needed; free plus live units always equal the units obtained |
| Umalloc.Units | umalloc.c:69 | the least number of units, header included, that hold the bytes asked for |
| PageModel.AddTable | vm.c:51-63 | a fresh zeroed table under an empty directory entry changes no translation of any address space |
| PageModel.MapUser | vm.c:82-84 | a new user entry keeps every frame of user memory mapped in exactly the one place it is for |
| PageModel.Unmap | vm.c:263-269 | clearing a user entry does so too, and the frame belongs to nobody else |
| PageTable.Vm.Kalloc | kalloc.c:82-95 | takes the head of the free list, failing exactly when it is empty |
| PageTable.Vm.Kfree | kalloc.c:59-77 | each frame is on the free list at most once, and no address space sees a difference |
| PageTable.Vm.Walk | vm.c:45-65 | finds or makes the table for an address, changing no translation; fails exactly when the table is missing and may not or cannot be made |
| PageTable.Vm.MapPages | vm.c:67-90 | for every address and size: exactly the requested range is added, page by page, with just the tables it needs at one frame each, no other translation of any address space changes; the result tells memory exhausted from remapped, and how far it came |
| PageTable.Vm.ClearNext | vm.c:259-271 | a turn of the loop of deallocuvm, the 4MB skip included, misses no page if every page below the last mapped one has a table |
| PageTable.Vm.DeallocUvm | vm.c:245-273 | exactly the user pages from the new size on are unmapped and their frames freed, the rest of every address space is as before, and a contiguous user part stays contiguous; holes that have tables make no difference |
| PageTable.Vm.GrowNext | vm.c:229-240 | a turn of the loop of allocuvm; its frame is lost exactly when it was the last free one and the page needs a new table |
| PageTable.Vm.AllocUvm | vm.c:218-243 | for every user part with no page from the old size on, which it keeps so; by the number of free frames: with enough, all pages are mapped, zeroed, on frames that were free; if only the table for the last page is missing, the call reports success without that page and loses a frame; in every other case it fails, every translation is as before, and a frame is lost if and only if the frame that could not be had was for the table of an earlier page; a contiguous user part stays contiguous if and only if it reached up to the old size or no page is mapped, with the number of frames for that; a hole within one table leaves it to freevm to return every frame |
| PageTable.AllocLosesFrame | vm.c:229-240 | with an empty address space and one free frame, a call for one page reports success, maps nothing and loses the frame |
| PageTable.AllocLeavesHole | vm.c:229-240 | the next call maps the page after it and leaves the first a hole, so that the user part is contiguous no more |
| PageTable.Vm.FreeVm | vm.c:275-292 | every page frame, table frame and the directory of the address space returns to the free list, each once, and no other address space changes; holes that have tables make no difference |
| PageTable.Vm.SetupKvm | vm.c:127-144 | it succeeds if and only if there are as many free frames as the directory and the tables of the kernel's mappings take; then the new directory shows exactly those mappings, never remapping a page; otherwise no free frame is left; either way no other address space changes and only free frames are taken |
| PageTable.KernelSeesMemory | vm.c:115-125 | the source's four ranges do not overlap; they show all of physical memory up to PHYSTOP at KERNBASE, writable except for the kernel's text, the devices at their own addresses, writable, and nothing between |
| PageTable.KernelNeedIs | vm.c:115-125 | with the source's four ranges that number is 65 |
| PageTable.Vm.CopyUvm | vm.c:307-337 | the result by the number of free frames: too few for the kernel part, out of memory, the panic at a page that is not there, or a child; the child has the same pages with the same flags and bytes on frames that were free, and the parent is unchanged; out of memory, everything is as before except that one frame is lost if and only if the frame that could not be had was for a table; without the kernel part, no address space changes but every frame that was free is lost |
| PageTable.CopyLosesFrame | vm.c:323-337 | a process of one page and 66 free frames: copyuvm fails and one frame is lost |
| SleepWakeup.StepKeepsInv | proc.c:347-404 | lock handover, sleeping and waking of any number of processes, channels, conditions and locks, a scan that looks at one process per step, and kill: one invariant under every step |
| SleepWakeup.NoLostWakeup | proc.c:347-404 | in every run, a process that is SLEEPING on a condition that holds has a waker, awake, that made it true and whose scan has yet to come past it |
| SleepWakeup.QuietMeansNoneMissed | sleep1.p:54-133 | once every change has been followed by its wakeup, no process sleeps on a condition that holds |
| SleepWakeup.MutualExclusion | proc.c:363-381 | in every run, no two processes hold a lock at once |
| SleepWakeup.SleepReturnsLocked | proc.c:347-381 | in every run, from the event in which a process calls sleep to the state in which it is next in its own code, whatever others do in between: the lock it called with has it as its owner, it is RUNNING and its channel is cleared |
| SleepWakeup.SleepersHoldNothing | proc.c:363-372 | in every run, a process switched out in sleep owns no lock, its caller's included |
| SleepWakeup.KillWakes | proc.c:409-427 | in every run, kill leaves its target not SLEEPING, RUNNABLE if it slept, and wakes nobody else; whoever runs it has ptable.lock |
| SleepWakeup.NeverStuck | proc.c:263-293 | no run comes to a dead end: whoever has ptable.lock, scheduler or process, always has a step to make, and if nobody has it the scheduler can take it |
| SleepWakeup.BothRulesNeeded | proc.c:358-367 | in every system with two processes and a condition that is false and has a lock other than ptable.lock, a wakeup can be lost if and only if sleep lets go of the caller's lock before it has ptable.lock, or conditions are changed without their lock |
| ProcModel.ExitKeeps | proc.c:168-210 | exit keeps every live or ZOMBIE process but init under a live parent, leaves nobody asleep in wait with a ZOMBIE child, and adds one to the exited pids |
| ProcModel.DescendsFromInit | proc.c:195-201 | the processes form a tree with init at its root |
| ProcModel.ReturnedOnce | proc.c:213-253 | every exited pid either has been returned by wait, once, or belongs to a ZOMBIE whose parent is live and not asleep in wait |
| ProcTable.Table.Wakeup1 | proc.c:386-395 | exactly the processes that sleep on the channel become RUNNABLE |
| ProcTable.Table.Wakeup | proc.c:398-404 | afterwards exactly those sleep that slept on another channel; those woken are RUNNABLE and nothing else of them or anybody has changed; the invariant is kept |
| ProcTable.Table.Exit | proc.c:168-210 | the whole new table, entry by entry, and the invariant; it panics exactly for init |
| ProcTable.Table.Wait | proc.c:213-253 | returns the pid of the first ZOMBIE child if there is one, fails if and only if there is none and the caller has no child or was killed, otherwise sleeps; the invariant is kept in each case |
| ProcTable.Table.AllocProc | proc.c:34-51 | the first UNUSED entry becomes an EMBRYO with a pid never used before; fails exactly when there is none; it bears the mark of kill if and only if the entry did |
| ProcTable.Table.FinishFork | proc.c:126-165 | the EMBRYO becomes a RUNNABLE child of the caller, or UNUSED again if memory ran out; an UNUSED entry comes to bear the mark of kill if and only if the EMBRYO did and was given up |
| ProcTable.Table.Kill | proc.c:409-427 | the first entry with the pid, and only that, is marked, and is RUNNABLE if it slept and as before otherwise; fails exactly when there is none; an UNUSED entry comes to bear the mark if and only if it is the first with that pid |
| ProcTable.BornKilled | proc.c:409-427 | kill(0) marks an UNUSED entry, and the process that fork makes of it starts out killed |
| Pipe.IndexAcrossWrap | pipe.c:92 | the ring index is that of the true position although the counters wrap at 2^32, because 512 divides 2^32 |
| Pipe.CountersTell | pipe.c:84 | within a ring's length the wrapped counters decide full and empty correctly |
| Pipe.FirstInFirstOut | pipe.c:76-120 | over every interleaving of any number of readers, writers and closers, some of them killed in their sleep, what was put in is what was taken out followed by what is left, in order, and at most 512 bytes are left |
| Pipe.WriterMoves | pipe.c:81-96 | a writer's turn that is done has put in all the bytes it was given and wakes the readers; one that is not has put in a proper prefix and leaves 512 bytes in the pipe, asleep or, without a reader or killed, with an error |
| Pipe.ReaderMoves | pipe.c:105-119 | a reader's turn that is done took the first bytes, exactly as many as were asked for or there, and wakes the writers; one that is not found the pipe empty and its write end open |
| Pipe.CompletedWrite | pipe.c:76-97 | in every run, for every call of pipewrite that completes, over however many turns and whatever happens between them: its bytes are all among those put in, in order; if it never slept, next to each other |
| Pipe.AfterClose | pipe.c:58-74 | in every run, after the write end is closed nobody writes and every read is done; after the read end is closed nobody reads and no writer sleeps |
| Pipe.EndOfFile | pipe.c:99-120 | a read of at least one byte returns none if and only if the pipe is drained and its write end closed |
| Pipe.MissedExactly | pipe.c:83-91 | a turn leaves a process asleep without cause if and only if it is that of a killed writer with more bytes than the pipe holds while a reader sleeps |
| Pipe.RunMissesNone | pipe.c:76-120 | in every run without such a writer, kills of sleepers included, readers sleep only before an empty pipe and writers only before a full one |
| Pipe.StrandedReader | pipe.c:84-88 | such a writer does leave a reader asleep before a full pipe |
| Pipe.Pipe.Write | pipe.c:76-97 | one turn of a writer on the ring with wrapping counters is one turn on the byte queue; the bytes from `i` to `j` are added to those accepted; it is done if and only if `j` is the end, and otherwise leaves 512 bytes in the pipe, failing if and only if there is no reader or it was killed |
| Pipe.Pipe.Read | pipe.c:99-120 | one turn of a reader likewise: done, it returns the next bytes in order, as many as were asked for or there; otherwise the pipe is empty, its write end open, and it fails if and only if killed |
| Pipe.Pipe.Close | pipe.c:58-74 | that end is closed, the other as before, and the other side woken; the pipe is freed exactly when both are closed |
| Grep.LanguageSplit | grep.c:84-96 | words of an item followed by a pattern are words of the one and then of the other |
| Grep.BeginsMany | grep.c:98-106 | a starred item matches here if the rest does, or if one more character fits and it matches after that; so the search may stop at the first that does not fit |
| Grep.Match | grep.c:72-82 | true if and only if some position, or position 0 under `^`, begins a word of the language of the pattern; it terminates |
| Grep.MatchHere | grep.c:84-96 | true if and only if some beginning of the text, or all of it under a final `$`, is in the language |
| Grep.MatchStar | grep.c:98-106 | the same for a starred character followed by a pattern |
| ShellGrammar.ParsePrint | sh.c:345-447 | parsing undoes a parenthesising printer, for every command tree in which no command has more than nine words |
| ShellGrammar.ParsedIsGood | sh.c:416-447 | the words of an accepted command are words of the input, and at most nine to a command |
| ShellGrammar.Normalised | sh.c:328-343 | printing an accepted command and parsing again gives the same command |
| ShellGrammar.MapParseCmd | sh.c:328-343 | replacing the words before parsing or after it makes no difference |
| ShellSyntax.ParsesExactly | sh.c:328-447 | for all tokens and every command tree: the parser yields the tree if and only if a grammar, stated apart from it, generates the tokens with that meaning; the grammar has redirections before, between and after the words, `<`, `>` and `>>`, blocks, pipelines, `&` and `;`, and at most nine words to a command |
| ShellSyntax.AppendIsOutput | sh.c:389-394 | `>` for every `>>` makes no difference to the parser, errors included |
| ShellText.LexesExactly | sh.c:263-309 | for every text and all tokens: the text is read as the tokens if and only if it is a writing of them, with any of the five blanks before and after each and at least one where two words or two `>` would run together |
| ShellText.TextParsesExactly | sh.c:263-447 | for every text and every command tree: the shell takes the text for the command if and only if it is a writing of tokens that the grammar generates with that meaning |
| ShellText.ParseRender | sh.c:328-343 | every command tree can be written as text that parses to that tree, word for word |
| Shell.GetToken | sh.c:266-309 | the next token of the input, its bounds, and a cursor from which the remaining tokens follow |
| Shell.PeekAt | sh.c:311-321 | moves past blanks only, and tells whether the next token is one of the symbols |
| Shell.ParseRedirsAt | sh.c:375-398 | the loop reads exactly the redirections that the parser over tokens gives, or fails as it does; what those mean is `ShellSyntax.ParsesExactly` |
| Shell.ParseExecAt | sh.c:416-447 | cursor, command and error agree with the grammar for every input; it terminates |
| Shell.ParseBlockAt | sh.c:400-414 | likewise for a block in parentheses |
| Shell.ParsePipeAt | sh.c:362-373 | likewise for a pipeline |
| Shell.ParseLineAt | sh.c:345-360 | likewise for a line |
| Shell.NulTerminate | sh.c:449-494 | NUL is written at the end of each word of the tree and nowhere else |
| Shell.EndsOutside | sh.c:449-494 | no word ends inside another |
| Shell.ParseCommand | sh.c:328-343 | for every input: it succeeds if and only if the grammar generates the tokens of the input, with the tree that the grammar gives them, and then in the buffer each argument and file name is a C string equal to its token |

## Left out

- Mount points, path lookup and the inode cache: mount resolution in the source keeps references that it never drops, so balance
  claims would not hold. `Directory.DirLookup` starts from the directory that the mount table leads to.
- Device inodes in readi and writei, `stati`, `ilock` and the reference counts of files and inodes.
- Types, link counts and device numbers of inodes: an inode is its addresses and its size, in memory and in its block; iupdate and winode
  leave the other words of the block as they are. Superblock, inodes, log header, indirect block and bitmap are modelled at the level of
  bytes or words.
- Of unlink, all but its write to the directory; of link counts and the freeing of inodes, everything.
- Disk hardware, interrupts, the other file formats of the image (the kernel and the master boot record), and all assembly code: the disk is a
  map of blocks, and a context switch is one step.
- Spinlocks and memory ordering: acquire and release are atomic steps, and a method that the source runs under one lock is one
  step of the interleaving.
- `LogMachine` has no limit on the number of cached buffers and does not track the buffers of the log's own blocks; `BufferCache` has the
  limit, and the panic when no buffer can be had.
- The check at the head of log_write is made before the lock is taken; the model makes check and append one step.
- Per-operation limits on logged blocks are an assumption of `LogBook.ReservationHolds`; filewrite does not meet it, see above.
- The system calls' argument checks, exec, trap handling, console, and the shell's execution of commands.
- `copyout`, `uva2ka`, `loaduvm`, `inituvm`, `clearpteu` and the start-up of the page free list (`freerange`).
- The kernel stack and page table that fork takes and wait frees: `ProcTable` has the states, parents, pids, channels and kill marks.
- Malloc on a 32-bit machine: addresses and sizes are counted in units without wrap-around; sbrk returns memory above all it returned before.
- Umalloc.Heap.Malloc: does not model the rounding of the byte count wrapping at 2^32, because the source gives no result for it.
- PageTable.Vm.SetupKvm: when it fails, the frames it took are not given back, because the source drops the directory and its tables.
- Mkfs.Maker.Iappend: stops where mkfs would run past the end of the partition, because the source does not check for it.
- Mkfs.Maker.InitPartition: asks for no more files than there are inodes, because the source does not check for it.
- Mkfs.KernelReads: is about partitions of fewer than 4096 blocks, because with more the kernel and mkfs do not agree on the first data
  block, see `MkfsLayout.FirstAgrees`.
- LogHeader.ParseHead: asks for a count of at most LOGSIZE, because read_head copies as many numbers as the count says into an array of that
  size, unchecked.
- Log.Log.ReadHead: asks for the same of the decoded header, for the same reason.
- BufferCache.Cache.Bwrite: asks for a valid buffer, because its callers pass buffers that bread returned.
- BufferCache.Cache.Brelse: asks that a changed buffer has been logged or written, because bio.c leaves that to its callers.
- PageTable.Vm.DeallocUvm: asks that holes have tables, because past a page without one it goes on 4MB further and may skip mapped pages; only
  a row of false successes of allocuvm over a whole table leaves such a hole.
- Fs.Partition.WriteI: its panics are those of balloc; log_write's, for a transaction that is too big or not begun, are in `LogBook` and
  `FileWrite.OpenFile.Read`.
- Fs.Partition.Balloc: works on the bits of the bitmap block; `Bitmap.FindAndSet` and `Bitmap.Clear` do the same to its bytes, and
  `LogHeader.ParseHead` and `LogHeader.FillHead` likewise for the log header.
- Shell.ParseExecAt: builds the wrapped command once its words and redirections are known, where the source fills in a node that
  redirections already point to.
- grep's reading of lines and its output.
