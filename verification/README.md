# A verified model of the xv6 kernel's state machines

This project models the parts of xv6 whose correctness depends on several functions or processes working
together, and proves what they keep. Operations that the kernel performs by updating memory are classes whose
methods and loops are proved equal to functions on values; protocols between processes are step systems in which
a step is what runs under one lock, and the theorems speak about every state of every run.

| part | files | main results |
|---|---|---|
| redo log | `CrashLog`, `LogDevice`, `LogAdmission` | a commit cut at any disk write, followed by recoveries cut anywhere any number of times, ends all-old or all-new; reservations never exceed the log header's array, and exactly when a transaction overruns the log area |
| log on the buffer cache | `LogRuns`, `LogOverrun` | in every interleaving of operations, readers and a commit that gets its buffers from the cache, a crash at any moment recovers to the last commit point; an overrun halts before its first disk write |
| buffer cache and disk | `BufRing`, `BufCache`, `Bio`, `DiskQueue` | one buffer per block, least recently released victim, no logged data lost; the interrupt-driven queue linearises to the RAM disk |
| files | `FsBlocks`, `FsOwner`, `FsFile`, `FsLogged`, `FileSystem`, `FileRuns`, `FsTruncLog` | each block has one owner; `writei` and `readi` are overwriting and slicing a byte sequence; `filewrite` among other writers of the file; every chunk fits a transaction, and exactly for which disks every truncation does |
| files across crashes | `CrashFiles`, `FsCodec` | a crash in any state of any run of the log leaves the free map and all files as they were at the last commit point; a chunk of `filewrite` or a truncation leaves its file entirely old or entirely new |
| directories | `DirName`, `Links`, `LinkSteps`, `LinkRuns`, `Sysfile` | `nlink` is the number of entries that name the inode, over every run; the exact condition under which `create` and `link` keep that |
| address spaces | `VmSpace`, `VmSteps`, `VmLife`, `VmFrames`, `VmKernel`, `VmCopy` | every frame is free once or has one user; growing and copying succeed exactly when there are frames enough, and restore what was there if not; what the user can read after each |
| processes | `ProcTable`, `ProcKernel`, `ProcKill`, `ProcSleep`, `SleepLock` | who runs where, who sleeps until when, who is whose parent, each zombie reaped once; whose mark a `killed` flag is; sleep-locks exclude and lose no wakeup |
| user allocator | `KrHeap`, `Umalloc` | the circular free list stays ordered, coalesced and in balance with `sbrk` |
| pipes | `Pipe`, `PipeRuns` | FIFO across counter wrap; exactly when a sleeping reader is forgotten |
| shell and grep | `Shell`, `ShellGrammar`, `ShellTokens`, `ShellPrint`, `ShellCode`, `Grep` | the parser accepts a line with a command exactly when a declarative grammar does; parsing undoes printing and loses no token; words read back after `nulterminate`; `match` decides the declarative meaning of patterns |
| shared | `Sequences`, `Sets` | facts about sequences, and sizes of finite sets |

Seven promises do not hold of the code as it stands. Each has a lemma that exhibits the failure and one that says
exactly when the promise is met:

* An operation that stays within its reservation can still hit `log_write`'s panic, because the guard is applied
  before absorption and stops one block early (`ReservedWriteCanPanic`, `ReservedWritePanicsExactly`).
* Operations that stay within their reservations can still list one block more than the log area holds, because
  the guard is read before the lock is taken (`OverrunReached`, `OverrunExactly`). All buffers are then pinned, and the
  commit ends in `bget`'s panic before it has written anything (`CommitBuffersExactly`, `OverrunHalts`).
* `create` in a directory that has been removed meanwhile spoils the link counts (`RemovedParent`, `CreateExactly`).
* So does the last step of `sys_link` (`RemovedLinkParent`, `LinkExactly`).
* A killed writer that fills the pipe returns without waking readers (`WakeupCanBeLost`, `ReadersOkExactly`).
* A process can be killed although nobody has killed its pid, because `kill` also marks unused slots and `allocproc`
  does not clear the mark (`KilledUnasked`, `OwnMarksExactly`, `UnmarkedKeptExactly`).
* `copyout` does not return -1 for an address whose page has no page table: `uva2ka` follows a null pointer there
  (`NullTableMet`, `Copyout`).

The first two runs are runs of the log protocol with operations of ten new blocks each, which is what a reservation
allows. On the disk `mkfs` makes, which has one free-map block, a chunk of `filewrite` logs fewer.

Where a comment and the code disagree, the model follows the code: `>>` redirects like `>` although the parser
tells them apart (`sh.c:388-393`), and an inode with no links keeps its type until its last reference is dropped
(`fs.h:33` says the type is zero then).

A panic is a result of the method that models the function (`Panicked`, `OutOfBlocks`, `HEAD` and so on) where
the model reaches it, and a `requires` where the source states a duty of its callers. Disk contents, the result of
`sbrk`, interrupts and the order of steps are parameters.

## Model

| member | source | states |
|---|---|---|
| `CrashLog.HeaderRoundTrip` | log.c:94-122 | reading back a written log header gives the list of blocks; the count is its first word, the blocks follow, and the rest of the block is left alone |
| `CrashLog.InstallFrame` | log.c:75-91 | installing touches no log block and no block outside the list |
| `CrashLog.RecoveryCompletes` | log.c:124-131 | a complete recovery leaves an empty log and exactly the home contents the disk stood for |
| `CrashLog.RecoveryCut` | log.c:75-131 | every prefix of recovery's writes stands for the same home contents, so recovery may crash and start again |
| `CrashLog.CommitPoint` | log.c:110-122 | once the non-zero header is on disk, the disk stands for the new contents |
| `CrashLog.LogWritesFitExactly` | log.c:187-205 | `write_log` stays inside the log area if and only if there are fewer blocks than the area has |
| `CrashLog.CommitIsLogThenRecovery` | log.c:207-217 | the writes of commit are the log writes, the header, and then exactly what recovery would write |
| `CrashLog.CommitCut` | log.c:187-217 | commit cut after any number of writes stands for the old contents up to the header write and for the new ones from it on |
| `CrashLog.HistoryRefines` | log.c:124-217 | any history of cut commits and cut recoveries refines a history in which each commit happens entirely or not at all |
| `CrashLog.CrashAtomicity` | log.c:75-217 | after any such history one complete recovery leaves exactly the home contents of the logical history |
| `CrashLog.AllOrNothing` | log.c:75-217 | for one transaction: all old or all new, new exactly when the header write had reached the disk, however often recovery was cut |
| `LogDevice.AbsorbKeepsDistinct` | log.c:238-246 | absorption never lists a block twice |
| `LogDevice.Log.WriteLog` | log.c:187-205 | copies the pinned buffers to the log area, in order, and changes no home block anyone can see |
| `LogDevice.Log.WriteHead` | log.c:110-122 | writes the header block for the current list |
| `LogDevice.Log.ReadHead` | log.c:94-105 | loads the list that is in the header block on disk, whatever clean blocks are cached |
| `LogDevice.Log.InstallTrans` | log.c:75-91 | writes the logged data to the home blocks in order and unpins them |
| `LogDevice.Log.Commit` | log.c:207-217 | issues exactly the writes whose prefixes `CommitCut` covers; readers see no change; and every home block on disk is then what its buffer held, or as it was if it had none |
| `LogDevice.CommitInvisible` | log.c:207-217 | what a reader of any home block sees is the same before and after a commit |
| `LogDevice.CommitEffect` | log.c:207-217 | after a commit each listed block holds its logged data on disk and every other home block is unchanged |
| `LogDevice.Log.LogCheck` | log.c:233-236 | panics exactly on its two guards, changing nothing; no lock is held yet |
| `LogDevice.Log.LogAppend` | log.c:238-253 | lists the block once and pins its new data; the list still fits the log area exactly when it is shorter than the area |
| `LogDevice.Log.BeginOp` | log.c:135-151 | admits if and only if no commit runs and the blocks listed, plus ten for each operation under way and ten for this one, are at most thirty |
| `LogDevice.Log.EndOp` | log.c:155-171 | gives up the reservation, starts the commit exactly for the last operation, and panics exactly during a commit |
| `LogDevice.Log.CommitAndWake` | log.c:173-183 | commits, empties the list and clears `committing` |
| `LogDevice.Log.RecoverFromLog` | log.c:124-131 | issues exactly recovery's writes and ends with an empty log, whatever clean blocks are cached; a home block that word w of the header names is then a copy of log block w, every other one is unchanged |
| `LogAdmission.EndKeeps` | log.c:155-184 | the end of an operation keeps the protocol's invariant and never meets a running commit |
| `LogAdmission.EmptyLogAdmits` | log.c:135-151 | with nothing outstanding and no commit the log is empty and `begin_op` admits, so nobody waits for ever |
| `LogAdmission.AppendKeeps` | log.c:238-253 | whatever was listed since the guard was read, the entry `log_write` stores to is inside the header's array, and the invariant is kept |
| `LogAdmission.AdmissionSafety` | log.c:135-254 | in every reachable state, with the guard of `log_write` a step of its own, the listed blocks and the unused reservations together are at most LOGSIZE, no block is listed twice, a commit excludes operations, `end_op` does not panic and `log_write` stores within the header's array |
| `LogAdmission.SleepersAreWoken` | log.c:135-184 | whoever sleeps in `begin_op` has an operation or a commit whose end wakes every sleeper |
| `LogAdmission.BeginExactly` | log.c:135-151 | in every reachable state a turn of `begin_op` goes to sleep if and only if a process is committing or the blocks listed, plus ten for every process between `begin_op` and `end_op` and ten for this one, are more than thirty; nobody else is affected |
| `LogAdmission.EndExactly` | log.c:155-184 | in every reachable state the last one out commits; any other, and the end of the commit, wakes exactly those asleep in `begin_op` |
| `LogAdmission.ReservedWritePanicsExactly` | log.c:233-236 | inside an operation `log_write` panics exactly when the number of listed blocks it reads is LOGSIZE - 1 or more, and passes the guard exactly otherwise |
| `LogAdmission.ReservedWriteCanPanic` | log.c:233-236 | a run in which an operation that has used less than its reservation meets that panic |
| `LogAdmission.ClaimedStep` | log.c:228-254 | only passing the guard adds to the blocks listed or about to be, and nothing but the end of a commit takes any away |
| `LogAdmission.OverrunExactly` | log.c:228-254 | a transaction ends with LOGSIZE blocks, one more than the log area holds, if and only if at some moment the blocks listed and those claimed by processes past the guard came to LOGSIZE |
| `LogAdmission.CheckOverrunsExactly` | log.c:233-236 | a passage of the guard brings that about if and only if its block is new and LOGSIZE - 1 are listed or claimed already |
| `LogAdmission.LogCanOverrun` | log.c:228-254 | a run of three operations within their reservations that ends with LOGSIZE blocks listed |
| `LogRuns.StepKeeps` | log.c:135-254 | every step of operations, readers, commit and recovery keeps: dirty buffers are exactly those of blocks logged and not yet installed, and the disk stands for the contents of the last commit point |
| `LogRuns.CommitBuffersExactly` | bio.c:70-102 | in every reachable state a pending block is cached; a log block gets no buffer when NBUF blocks are pending, and when nobody holds a buffer it gets one exactly when fewer are |
| `LogRuns.WritesFit` | log.c:187-217 | every disk write of every commit belongs to a transaction that fits the log area |
| `LogRuns.OverrunHalts` | log.c:187-205 | once LOGSIZE blocks are listed nothing reaches the disk any more and no log block can get a buffer, so the commit panics before its first write |
| `LogRuns.CrashSafety` | log.c:75-217 | a crash in any state of any run, then recoveries cut anywhere and one complete: an empty log and the home blocks as of the last commit point; no assumption that transactions fit |
| `LogRuns.Durable` | log.c:173-183 | in every run, when `end_op` returns after its commit, all that has been logged is on disk in its place and is what a crash leaves |
| `LogRuns.CommitAlone` | log.c:155-217 | no commit point falls inside an operation, and nothing else moves what a crash goes back to |
| `LogRuns.WholeOperations` | log.c:11-22 | what a crash goes back to is all that was logged when some commit point was reached with no operation under way, so each operation is there entirely or not at all |
| `LogOverrun.OverrunReached` | log.c:228-254 | on every disk with LOGSIZE home blocks behind the log, a run of three operations within their reservations whose commit gets no buffer though nobody holds one |
| `BufRing.UnlinkRing` | bio.c:148-149 | taking a buffer out leaves a doubly linked ring through exactly the others |
| `BufRing.PushRing` | bio.c:150-153 | putting a buffer behind the head leaves a ring with it in front |
| `BufCache.StepKeeps` | bio.c:70-157 | every step keeps the list sorted by release time, root-disk blocks unique, and valid buffers equal to the last data logged or written |
| `BufCache.BufferProtected` | bio.c:87-100 | a referenced or dirty buffer is never recycled, and only the process that has it locked changes its data |
| `BufCache.ReferenceKept` | bio.c:77-85 | while a process keeps its reference, for instance while it waits for the buffer's lock, the buffer stays the block's |
| `BufCache.CacheSafety` | bio.c:70-157 | in every reachable state a valid buffer holds the data last logged or written to its block, and no block of the root disk has two buffers |
| `BufCache.NothingLost` | bio.c:87-100 | data logged but not on disk are in a dirty buffer; every other block is on disk |
| `BufCache.RefsHeld` | bio.c:70-157 | in every reachable state a buffer's reference count is the number of its hits less its releases since it was last recycled, that recycling counting as one |
| `BufCache.LeastRecentlyReleased` | bio.c:87-100 | in every run, every recycling step takes the eligible buffer whose last reference was given up longest ago, counting the steps since boot; those never released come first, in `binit`'s order |
| `Bio.Bcache.constructor` | bio.c:39-57 | `binit` links all buffers into one ring |
| `Bio.Bcache.FindCached` | bio.c:77-85 | finds a buffer of the block exactly when there is one |
| `Bio.Bcache.FindVictim` | bio.c:87-100 | finds the unreferenced clean buffer that is nearest to the end of the list, or says that there is none; `LeastRecentlyReleased` says which buffer that is |
| `Bio.Bcache.Bget` | bio.c:70-102 | a hit or a recycling step of the cache, or the panic exactly when neither is possible |
| `Bio.Bcache.Bread` | bio.c:111-121 | a reference to the block's buffer, or the panic exactly when no buffer is left; waits exactly when another process has it locked, else it is locked and valid with the data last logged or written there; changes no block |
| `Bio.Bcache.BreadLocked` | bio.c:111-121 | once the lock is free: the buffer is locked and valid with the data last logged or written to its block |
| `Bio.Bcache.Log` | log.c:228-254 | a modified buffer handed to `log_write` is pinned and its data become the block's last data |
| `Bio.Bcache.Bwrite` | bio.c:124-131 | buffer, disk and last data of the block agree and the buffer is unpinned |
| `Bio.Bcache.MoveToFront` | bio.c:148-153 | the pointer surgery moves the buffer to the front and keeps the ring |
| `Bio.Bcache.Brelse` | bio.c:136-157 | gives up lock and one reference; if it was the last one the buffer is first in the list and the others keep their order, else the list is unchanged |
| `DiskQueue.RamDisk.Iderw` | memide.c:38-60 | the synchronous reference: a dirty buffer is written, any other is read; it ends valid and clean with the data of its block, and no other block changes |
| `DiskQueue.StepKeeps` | ide.c:90-205 | only the head of the queue is active, and the command under way is the one for the head as it was requested |
| `DiskQueue.StepRefines` | ide.c:126-158 | an interrupt does to the head buffer and the disk what the RAM disk would do; no other step changes a block |
| `DiskQueue.DoneExactly` | ide.c:200-202 | the wait loop of `iderw` can end exactly when the request has been served |
| `DiskQueue.Linearized` | ide.c:90-205 | between call and return of `iderw` the RAM disk's effect happens once, on the buffer as requested, in first-come order; a writer's data are then the block, a reader gets the block, no other block changes |
| `DiskQueue.Ide.Append` | ide.c:182-186 | walking the links appends the buffer at the end of the queue |
| `DiskQueue.Ide.IderwStart` | ide.c:168-194 | queues the request and starts the disk exactly when the queue was empty |
| `DiskQueue.Ide.Ideintr` | ide.c:126-158 | serves the head, starts the next request, ignores an interrupt with nothing queued |
| `DiskQueue.Ide.IderwReturn` | ide.c:196-204 | the caller leaves exactly when its buffer is no longer queued |
| `FsBlocks.WordRoundTrip` | fs.c:407-435 | an address stored in an indirect block reads back; its bytes are stored lowest first |
| `FsBlocks.MapSet` | fs.c:78-83 | or-ing the mask into a byte of the free map sets the block's bit and no other bit of the whole map |
| `FsBlocks.MapClear` | fs.c:102-107 | and-ing its complement clears the block's bit and no other |
| `FsOwner.IndirectFrame` | fs.c:407-435 | writing one entry of an indirect block changes that slot of that inode and no other slot of any inode |
| `FsOwner.FillSlot` | fs.c:407-435 | giving a free block to an empty slot keeps one owner per block |
| `FsOwner.EmptySlot` | fs.c:442-470 | emptying a slot and clearing its bit keeps one owner per block, and the bit was set |
| `FileSystem.FreedDirect` | fs.c:448-453 | after every round of the first loop of `itrunc` each block still has one owner |
| `FsFile.ExactlyOneHolder` | fs.c:68-109 | a free-map bit is set exactly for metadata and for blocks held by a slot, and no block is held by two |
| `FsFile.MappedShape` | fs.c:407-435 | mapping the next block keeps the allocated slots exactly those below the file's block count |
| `FsFile.OverwriteTwice` | file.c:117-156 | two adjoining overwrites are one |
| `FsFile.WriteContent` | fs.c:520-550 | the write loop and the new size turn the file's bytes into the old ones overwritten or extended at the offset |
| `FsFile.OtherContent` | fs.c:520-550 | no other file's bytes change |
| `FileSystem.ChunkFits` | file.c:117-156 | for every offset and size, a chunk's data, bitmap, indirect and inode blocks are at most MAXOPBLOCKS |
| `FileSystem.CostStep` | fs.c:407-435 | one more round of a write logs its data block and, only if it had to allocate, one bitmap block more; an indirect block and its bitmap block count once |
| `FileSystem.WritesCompose` | file.c:117-156 | consecutive successful writes are one write of the concatenation |
| `FileSystem.StillUsed` | fs.c:442-470 | a block `itrunc` is about to free is still marked in use |
| `FileSystem.FileSystem.Balloc` | fs.c:68-91 | the first clear bit is set and its block zeroed, or every bit is set |
| `FileSystem.FileSystem.Bfree` | fs.c:94-109 | clears the bit, or panics exactly when it is clear already |
| `FileSystem.FileSystem.Bmap` | fs.c:407-435 | an existing mapping is returned unchanged; else one fresh zeroed block (and an indirect block if needed) is mapped, ownership is kept, and exactly the changed blocks are logged; panics exactly from block 140 on |
| `FileSystem.FileSystem.Iupdate` | fs.c:240-256 | the on-disk inode becomes equal to the in-memory one |
| `FileSystem.FileSystem.Writei` | fs.c:520-550 | the error cases exactly, else the file's bytes are overwritten or extended at the offset, other files and the invariant are kept, the blocks logged are bounded, and nothing outside them changes on disk |
| `FileSystem.FileSystem.Readi` | fs.c:490-515 | the error cases exactly, else exactly the slice of the file's bytes clipped at its size, changing nothing |
| `FileSystem.FileSystem.Itrunc` | fs.c:442-470 | clears exactly the bits of the blocks the inode holds, leaves it empty and other files unchanged; the panic on a free block is unreachable; logs the inode block and exactly the free-map blocks of the freed blocks, and changes nothing outside them |
| `FsTruncLog.TruncFitsExactly` | fs.c:442-470 | one truncation logs at most MAXOPBLOCKS blocks if and only if the file's blocks have their bits in fewer than MAXOPBLOCKS free-map blocks |
| `FsTruncLog.TruncLayoutExactly` | fs.c:442-470 | every truncation on every file system of a given size fits if and only if the size does not exceed what fewer than MAXOPBLOCKS free-map blocks cover |
| `FileSystem.FileSystem.WriteChunk` | file.c:133-148 | one transaction: the bytes written, the offset advanced by their number, at most MAXOPBLOCKS blocks logged, and every data, free-map or inode block that changed among them |
| `FileSystem.FileSystem.Filewrite` | file.c:117-156 | with the file to itself: all bytes as one logical write exactly when they fit 140 blocks of 512 bytes, else a prefix; in chunks of 1536 bytes, every transaction within ten blocks |
| `FileRuns.StepKeeps` | file.c:96-156 | chunks and reads of any processes keep every offset inside the file, so `writei` never finds a hole |
| `FileRuns.OffsetStep` | file.c:96-113 | in every run a read moves its offset by what it asks for or to the end of the file, and no other offset |
| `FileRuns.FilewriteAmongOthers` | file.c:117-156 | with any others at work on the inode between its chunks, a call through an open file of its own writes everything exactly when it fits, moves its offset by that, and every byte is there unless another process has written to that place meanwhile |
| `FileRuns.SharedOffset` | file.c:117-156 | chunks of processes that share an open file land one behind the other in the order of the steps, none lost, split or overwritten |
| `FsLogged.ChangedBoth` | log.c:11-22 | what two operations of one group commit log covers what they change together |
| `CrashFiles.EncodeFrame` | fs.c:240-256 | a home block that was not logged holds the same bytes before and after the operation |
| `CrashFiles.InstalledEncode` | log.c:75-91 | installing the logged blocks turns the disk that holds the old image into the one that holds the new image |
| `CrashFiles.ImageAfterCrash` | log.c:75-217 | a transaction of one or more operations that fits the log, its commit cut after any number of writes, followed by recoveries cut anywhere, leaves after one full recovery exactly the old or exactly the new image |
| `CrashFiles.FilesAfterCrash` | log.c:75-217 | whatever is then mounted has the free map and the files of the state before, or all those of the state after |
| `CrashFiles.FileAfterCrash` | file.c:133-148 | for a chunk of `filewrite`: the file reads as before or entirely overwritten, new exactly when the header write had reached the disk, and every other file reads as before |
| `CrashFiles.TruncAfterCrash` | fs.c:442-470 | for a truncation: the file reads as before or as empty, and every other file as before |
| `CrashFiles.StoredEncode` | log.c:228-254 | logging the blocks an operation changed turns blocks that hold the old file system into blocks that hold the new one |
| `CrashFiles.FilesInRuns` | log.c:75-217 | a crash in any state of any run of the log on the cache: what is mounted after recovery has the free map and every file of the last commit point |
| `FsCodec.WordsFaithful` | fs.h:29-45 | inodes as 16 words, free-map bits 32 to a word and data as words keep apart whatever an image can hold |
| `FsCodec.WordsFit` | fs.h:29-45 | each of these is a 32-bit word |
| `DirName.Strncmp` | string.c:59-67 | zero exactly when the two names are the same up to n bytes or the first NUL, else the difference at the first place where they differ |
| `DirName.Strncpy` | string.c:69-80 | the field stands for the same name and is padded with NULs |
| `DirName.Namecmp` | fs.c:555-559 | zero exactly when two directory names are the same |
| `DirName.StoreAndCompare` | fs.c:585-626 | a stored name is found under exactly the names that agree with it up to 14 bytes |
| `Links.ZeroUnnamed` | fs.c:361-382 | nothing names an inode whose link count is zero |
| `Links.OneRef` | sysfile.c:213-229 | an empty directory is named by its one entry only, so removing that leaves no link |
| `LinkSteps.CreateCounts` | sysfile.c:261-281 | creating a file or directory in a linked directory keeps the link-count law |
| `LinkSteps.CreateTree` | sysfile.c:261-281 | and keeps entries and ".." of directories answering each other, and names distinct |
| `LinkSteps.UnlinkKeeps` | sysfile.c:184-239 | unlinking a file or an empty directory keeps law and tree, for every name the checks let through |
| `LinkSteps.LinkEndCounts` | sysfile.c:144-156 | the entry made by `sys_link` takes over the count raised before |
| `LinkSteps.PendingKeeps` | sysfile.c:133-165 | raising the count, and taking it back after a failure, keep the law for links under way |
| `LinkSteps.ReleaseKeeps` | fs.c:361-382 | freeing an inode without links or references keeps law and tree |
| `LinkSteps.StepKeeps` | sysfile.c:118-284 | every step keeps the law and the tree |
| `LinkRuns.LinkCounts` | sysfile.c:118-284 | in every reachable state `nlink` is the number of entries that name the inode from linked directories, not counting ".", plus links under way; free inodes are not named; no directory holds a name twice |
| `LinkRuns.UnlinkSound` | sysfile.c:211-229 | `sys_unlink` never meets a count below one, and a directory it removes is left with none |
| `LinkRuns.CreateExactly` | sysfile.c:241-284 | `create` keeps the link-count law if and only if the parent directory is still linked |
| `LinkRuns.CreateSpoils` | sysfile.c:241-284 | in a directory that is no longer linked it always breaks the law, for files and for directories |
| `LinkRuns.RemovedParent` | sysfile.c:241-284 | a run that makes and removes a directory, after which the code still lets `create` make a file in it and the counts are wrong |
| `LinkRuns.LinkExactly` | sysfile.c:144-156 | the last step of `sys_link` keeps the law if and only if the new parent is still linked |
| `LinkRuns.RemovedLinkParent` | sysfile.c:144-156 | a run that begins a link, makes and removes the new parent, after which the code still lets `sys_link` make the entry and the counts are wrong |
| `Sysfile.Directories.Dirlookup` | fs.c:570-595 | the first live entry with the name, or none |
| `Sysfile.Directories.Dirlink` | fs.c:598-627 | fails exactly when the name is there; else the first unused entry, or a new one, names the inode |
| `Sysfile.Directories.Isdirempty` | sysfile.c:168-181 | true exactly when no entry beyond the first two is live |
| `Sysfile.Directories.Create` | sysfile.c:241-284 | a name that exists: its inode if it is a file and a file is wanted, else 0; a missing name: the first free inode, entered in the first unused entry, with "." and ".." and the parent's count raised for a directory; all inodes taken reported exactly then; what it makes keeps the link counts exactly when the parent is still linked |
| `Sysfile.Directories.CreateThenOpen` | sysfile.c:241-284 | a file that was created is what the next `create` of that name returns, and `mkdir` or `mknod` of that name gets 0 |
| `Sysfile.Directories.LinkBegin` | sysfile.c:133-142 | refuses directories, else raises the count |
| `Sysfile.Directories.LinkEnd` | sysfile.c:144-165 | makes the entry, or takes the count back exactly when the name exists; the entry keeps the link counts exactly when the new parent is still linked |
| `Sysfile.Directories.Unlink` | sysfile.c:184-239 | succeeds if and only if the name exists, is not "." or "..", and is no directory with a live entry beyond the first two; then the entry is zeroed, and the counts of the inode and, for a directory, of the parent fall by one |
| `Sysfile.Directories.Iput` | fs.c:361-382 | with the last reference goes an inode that has no links, keeping the law and the tree; any other stays |
| `VmKernel.FrameHasOneUse` | kalloc.c:73-117 | a frame is on the free list once or used by exactly one directory, page table or user page |
| `VmKernel.Kernel.constructor` | kalloc.c:43-57 | at the start nothing is free and every frame is spare |
| `VmKernel.Kernel.Freerange` | kalloc.c:60-67 | the frames of the range are on the free list, last one first |
| `VmKernel.Kernel.Kalloc` | kalloc.c:104-117 | hands out the first free frame, or 0 exactly when there is none |
| `VmKernel.Kernel.Kfree` | kalloc.c:73-96 | an unused frame returns to the front of the list, filled with ones |
| `VmKernel.Kernel.Walkpgdir` | vm.c:47-73 | finds or makes the page table, whose directory entry lets the user read and write; fails if and only if there is none and it may not allocate or no frame is free; no mapping changes |
| `VmKernel.Kernel.MapUserPage` | vm.c:79-103 | maps exactly one page to a spare frame, detects a remap exactly, fails exactly when a page table is missing and no frame is free, and changes nothing then |
| `VmKernel.Kernel.Allocuvm` | vm.c:306-335 | succeeds if and only if there are frames for the new pages and the missing page tables; every address from the old size, rounded up, to the new one is then present, writable, the user's and zero; on failure mapping and contents are as before |
| `VmKernel.UpExactly` | mmu.h:104 | the number of pages is that of the pages the bytes reach into |
| `VmFrames.NotEnough` | vm.c:306-335 | when a page cannot be mapped there were too few frames for the pages and page tables of the whole range |
| `VmCopy.HardwareAgrees` | vm.c:436-446 | what `uva2ka` accepts is what the paging hardware lets the user access, directory entry and page entry taken together |
| `VmCopy.GrownBytes` | vm.c:306-335 | every address of the new pages is accessible and reads 0, and every other one is as before |
| `VmCopy.GrowAndFill` | vm.c:306-475 | growing an address space and copying data out to the new part succeeds if and only if there are frames for it, and the data read back there |
| `VmKernel.Kernel.UndoGrow` | vm.c:306-335 | the two out-of-memory exits give back every page mapped so far and the frame in hand |
| `VmSteps.ShrinkUndoesGrow` | vm.c:306-365 | shrinking what was just grown restores the address space |
| `VmKernel.SkipTable` | vm.c:341-365 | skipping a missing page table equals unmapping its pages one by one |
| `VmKernel.Kernel.Deallocuvm` | vm.c:341-365 | unmaps exactly the pages between the two sizes and frees exactly their frames |
| `VmCopy.ShrunkBytes` | vm.c:341-365 | no address of the pages given up is accessible any more, and every other one is as before |
| `VmKernel.Kernel.Freevm` | vm.c:369-384 | frees exactly the frames of the address space and leaves all others, and their contents, alone |
| `VmKernel.Kernel.Setupkvm` | vm.c:145-171 | a new directory that maps exactly the kernel, if and only if there are frames for it and its page tables, else everything as before |
| `VmKernel.Kernel.Copyuvm` | vm.c:401-431 | a child with equal contents and flags page by page, or the panic at the first page below the size that is missing; it runs out of memory only when there are too few frames for directory, page tables and the pages up to there, and then everything is as before |
| `VmKernel.CopyIsPrivate` | vm.c:401-431 | the parent is unchanged and no frame of the child's pages is used by anyone else |
| `VmCopy.ChildBytes` | vm.c:401-431 | every byte the parent can access below the size the child can access, with the same value, and no more of the user half |
| `VmLife.KernEntryExactly` | vm.c:133-171 | a kernel page is mapped to the frame and with the permissions of its row of the kernel map, and no other page is mapped |
| `VmFrames.CopyNotEnough` | vm.c:401-431 | when a page cannot be copied there were too few frames for the child up to it |
| `VmCopy.Copyout` | vm.c:434-475 | exactly the bytes up to the first address the user cannot access arrive, and nothing else changes; success exactly when there is none, else -1, or the null pointer exactly when that address has no page table |
| `VmCopy.NullTableMet` | vm.c:436-446 | an address space in which that happens |
| `VmLife.CreateThenFree` | vm.c:145-171 | creating a directory, changing only it and freeing it restores all uses and contents |
| `VmLife.RestoredFreeList` | kalloc.c:73-117 | after that the free list holds the same frames |
| `VmSteps.KeepsOthers` | vm.c:306-431 | an operation on one address space changes no mapping and no page of another |
| `ProcTable.StepKeeps` | proc.c:90-585 | every section under `ptable.lock`, wakeups from interrupts on idle CPUs included, and the unlocked setting of `killed` keep the table invariant |
| `ProcTable.TableSafety` | proc.c:254-464 | in every reachable state a process is RUNNING exactly when it is the process of exactly one CPU, every live or zombie process but init has a live parent, and nobody sleeps in `wait` beside a zombie child |
| `ProcTable.ReapedExactlyOnce` | proc.c:295-380 | an exited process is a zombie until it is reaped, and its pid is reaped at most once |
| `ProcTable.ReapedByParent` | proc.c:340-380 | only `wait` of the current parent reaps, and it empties the child's slot |
| `ProcKernel.Ptable.constructor` | proc.c:174-222 | the table with init alone, runnable |
| `ProcKernel.Ptable.Wakeup1` | proc.c:545-553 | slot by slot: who sleeps on the channel becomes runnable and is otherwise unchanged, every other slot is unchanged, whatever the channel |
| `ProcKernel.Ptable.Allocproc` | proc.c:90-121 | takes the first unused slot with a fresh pid, or fails exactly when there is none |
| `ProcKernel.Ptable.Kill` | proc.c:567-585 | marks the first slot with the pid, in use or not, and makes it runnable if it sleeps; returns -1 exactly when no slot has the pid, else 0 |
| `ProcKill.SlotStep` | proc.c:90-585 | a mark comes from `kill` or a fault and goes only when the slot is reaped; a slot gets into use only by being allocated, with a new pid |
| `ProcKill.UnmarkedKeptExactly` | proc.c:266-271 | a step leaves an unused slot marked if and only if it is a `kill` that finds an unused slot, or a `fork` that gives up a child killed meanwhile |
| `ProcKill.MarkedBecause` | proc.c:567-585 | in every run a marked process was marked by a kill of its own pid or by its own fault, or got a slot that was marked |
| `ProcKill.OwnMarksExactly` | proc.c:90-121 | all marks are their owners' own, in every state of a run, if and only if `allocproc` never takes a marked slot |
| `ProcKill.OwnMarks` | proc.c:567-585 | which is so if no `kill` finds an unused slot and no `fork` gives up a killed child |
| `ProcKill.KilledUnasked` | proc.c:567-585 | a run in which init calls `kill(0)` and `fork`, and the child is killed |
| `ProcKernel.Ptable.PassChildren` | proc.c:322-330 | all children of the exiting process go to init, which is woken if one is a zombie |
| `ProcKernel.Ptable.Exit` | proc.c:295-336 | slot by slot: the caller is a zombie off its CPU, its parent asleep in `wait` is runnable, its children are init's, and init is runnable if it got a zombie; nothing else changes, and the invariant is kept |
| `ProcKernel.Ptable.Wait` | proc.c:340-380 | returns the pid of the first zombie child and empties its slot if there is one; else -1 if and only if it has no children or is killed; else it sleeps on itself |
| `ProcSleep.AsleepUntilWoken` | proc.c:505-562 | in every run a process that goes to sleep on a channel is off its CPU and asleep there in every later state until a wakeup of that channel or a kill of its pid, and runnable right after the first of these |
| `ProcSleep.WakeupExactly` | proc.c:545-562 | a wakeup makes runnable exactly who sleeps on the channel |
| `ProcSleep.KillWakes` | proc.c:567-585 | in every reachable state, kill of a process's pid marks that process and makes it runnable if it sleeps, on whatever channel, and changes no other process in use |
| `ProcSleep.WaiterStep` | proc.c:340-380 | who sleeps in `wait` does so until a child exits, init is handed a zombie, or its pid is killed, and is runnable right after |
| `ProcSleep.ParentMadeIt` | proc.c:254-336 | in every run the parent of a process is the one that forked it, or init |
| `ProcSleep.ForkSteps` | proc.c:254-289 | the sections of `fork`: the first unused slot with a new pid, then given up, or a child of the caller and in the end runnable |
| `ProcSleep.StateDiagram` | proc.c:90-585 | in every run a process changes its state only along the arrows of the life cycle, each by the step and the process it belongs to: `fork`, the scheduler, its own yield, sleep, wait or exit, a wakeup, an exit or a kill, and its parent's `wait` |
| `ProcKernel.Ptable.Scheduler` | proc.c:390-438 | dispatches the next runnable process of the scan to its CPU |
| `SleepLock.StepKeeps` | sleeplock.c:22-42 | every single spinlock operation of acquire, release, sleep and wakeup keeps the invariant |
| `SleepLock.MutualExclusion` | sleeplock.c:22-53 | in every interleaving at most one process owns the lock, and `holdingsleep` tells it |
| `SleepLock.NoLostWakeup` | proc.c:505-562 | whenever the lock's spinlock is free, a sleeper sleeps because another process owns the lock; the releaser's scan wakes every sleeper |
| `SleepLock.PhaseStep` | sleeplock.c:22-42 | at every step a process goes from acquiring to owning to releasing to away, and skips none; it comes to own a lock that was free |
| `SleepLock.AcquiredBeforeReturn` | sleeplock.c:22-32 | in every run a process that has called `acquiresleep` stays in it until the lock is its own, whoever wakes or kills it |
| `SleepLock.HolderCanStep` | proc.c:505-562 | the lock's spinlock and `ptable.lock` never deadlock |
| `KrHeap.FreedInv` | umalloc.c:24-44 | inserting and coalescing keeps the list circular, ordered, disjoint from live blocks and without touching neighbours |
| `KrHeap.FreedBooks` | umalloc.c:24-44 | exactly the freed block stops being live and no unit from `sbrk` is lost |
| `KrHeap.TakeWholeInv` | umalloc.c:75-83 | unlinking a block of the exact size keeps the invariant |
| `KrHeap.TakeTailInv` | umalloc.c:75-83 | cutting the tail off a larger block keeps the invariant, and the tail was not live |
| `KrHeap.ChunkInv` | umalloc.c:46-61 | new core from `sbrk` joins the books as one live block |
| `Umalloc.Allocator.FindSlot` | umalloc.c:30-32 | the search terminates at the last free block below the one to be freed, the place where it belongs in address order |
| `Umalloc.Allocator.Free` | umalloc.c:24-44 | keeps the invariant, ends the block's life, and a request of its size now fits; the next search starts behind the last free block below it |
| `Umalloc.Allocator.Morecore` | umalloc.c:46-61 | fails exactly when `sbrk` does; else at least 4096 units more, and the request fits |
| `Umalloc.CoreExactly` | umalloc.c:46-61 | the core asked for is what is needed and at least 4096 units |
| `Umalloc.Allocator.Search` | umalloc.c:63-90 | first fit: the first block large enough that is met going round from `freep`, of which the tail is taken; asks for core exactly when nothing fits, at most once; the result was not live |
| `Umalloc.UnitsExact` | umalloc.c:69 | the 32-bit computation of the number of units covers the request if and only if it does not wrap, and is then the least number that does |
| `Umalloc.SbrkArgExact` | umalloc.c:54 | the byte count passed to `sbrk` is the size asked for if and only if the number of units is below 2^28 |
| `Umalloc.Allocator.Malloc` | umalloc.c:63-90 | for every 32-bit request a fresh live block of the computed number of units, or 0 exactly when `sbrk` failed; free and live units stay those booked, and what is booked is what `sbrk` was asked for exactly below 2^28 units |
| `PipeQueue.RingBuffer.constructor` | pipe.c:22-46 | an empty pipe with both ends open |
| `PipeQueue.Wrapped` | pipe.c:78-121 | the 32-bit counters tell full, empty and the number of bytes under way, also across wrap-around |
| `PipeQueue.RingBuffer.WriteSection` | pipe.c:78-98 | puts bytes in order until all are in or 512 are under way; returns exactly when all are in, fails exactly when not and the read end is closed or the caller killed, else sleeps |
| `PipeQueue.RingBuffer.ReadSection` | pipe.c:100-121 | delivers exactly the next bytes, as many as asked for or all there are; sleeps or, if killed, fails exactly on an empty pipe with an open write end |
| `PipeQueue.RingBuffer.Close` | pipe.c:59-75 | closes one end; the page is freed exactly when both are closed |
| `PipeRuns.StepKeeps` | pipe.c:59-121 | every section keeps FIFO order, and what was accepted and delivered only grows |
| `PipeRuns.FifoSafety` | pipe.c:59-121 | in every reachable state the bytes delivered are a prefix of those accepted, at most 512 are under way, a sleeping writer faces a full pipe whose read end is open, and nobody is inside a freed pipe |
| `PipeRuns.SleepAndWake` | pipe.c:59-121 | at every step of every run who falls asleep and who wakes: exactly when a reader or writer sleeps, and that a read that returns, a write that does not fail, the close of the other end and a kill leave no one asleep who waits for them |
| `PipeRuns.SectionMoves` | pipe.c:78-121 | at every step of every run a write moves as many bytes as there is room for, a read as many as there are, in order, and nothing else moves any |
| `PipeRuns.ReadersOkExactly` | pipe.c:78-98 | a step leaves a reader asleep beside data if and only if it is a killed writer with more than 512 bytes left while a reader sleeps |
| `PipeRuns.SleepingReaders` | pipe.c:100-121 | without such a step every sleeping reader faces an empty pipe whose write end is open |
| `PipeRuns.NobodyKilled` | pipe.c:100-121 | in particular in every run without kills |
| `PipeRuns.WakeupCanBeLost` | pipe.c:86-89 | a run that leaves a reader asleep with 512 bytes in the pipe |
| `ShellTokens.TokenMeaning` | sh.c:265-308 | the next token exactly: leading blanks skipped, then the end, a symbol, `>>` or `>`, or a maximal non-empty run of word characters, and the blanks behind it skipped |
| `ShellTokens.TokenCharacters` | sh.c:262-308 | the same in terms of the five blanks and the seven symbols |
| `ShellGrammar.ParseExactly` | sh.c:327-446 | for every line and every command: the parser gives that command if and only if the grammar, stated on the tokens of the line, does |
| `ShellGrammar.Unambiguous` | sh.c:327-446 | no line has two commands |
| `ShellGrammar.SimpleMeaning` | sh.c:374-446 | a simple command is its words inside its redirections, the first one innermost, `<` for input from a file and `>` and `>>` for output to it |
| `Shell.Parse` | sh.c:327-446 | a command the parser accepts uses up the line, its words are tokens of the line and none of its commands has more than nine |
| `ShellTokens.TokensConserved` | sh.c:327-446 | of a line the parser accepts, every token but parentheses is in the command exactly as often as in the line, for all lines |
| `ShellPrint.RoundTrip` | sh.c:265-446 | parsing the parenthesised printing of any command tree with at most nine good words per command gives the tree back |
| `ShellPrint.PrintInjective` | sh.c:265-446 | no two such trees are written alike |
| `ShellCode.Parser.NextToken` | sh.c:265-308 | the loops of `gettoken` compute the token and advance the position past it |
| `ShellCode.Parser.Peek` | sh.c:310-320 | skips blanks and tells whether one of the characters is next |
| `ShellCode.Parser.Redirections` | sh.c:374-397 | the loop of `parseredirs` collects the redirections in order or reports a missing file |
| `ShellCode.Parser.Arguments` | sh.c:429-445 | the loop of `parseexec`: words and redirections in any order, with its three errors |
| `ShellCode.Parser.Parseexec` | sh.c:415-446 | a block or a simple command, as the grammar says |
| `ShellCode.Parser.Parseblock` | sh.c:399-413 | a parenthesised line with its redirections, or the missing parenthesis |
| `ShellCode.Parser.Parsepipe` | sh.c:361-372 | a pipeline, nested to the right |
| `ShellCode.Parser.Parseline` | sh.c:344-359 | a line with its background marks and the rest of the list |
| `ShellCode.Nulterminate` | sh.c:449-493 | writes NUL at the end of every word of the command and nowhere else |
| `ShellCode.EndsOutside` | sh.c:449-493 | no such NUL falls inside a word |
| `ShellCode.ReadsBack` | sh.c:449-493 | afterwards every stored word reads back, as a C string, as exactly its token |
| `ShellCode.Parsecmd` | sh.c:327-342 | the whole of `parsecmd`: the tree or the error, and a buffer in which every word reads back |
| `Grep.MatchHere` | grep.c:85-96 | true exactly when some division of the text from here on gives each piece of the pattern its part |
| `Grep.MatchStar` | grep.c:99-106 | the same for a starred character followed by a pattern |
| `Grep.Match` | grep.c:72-82 | true exactly when the pattern's meaning holds at the start (with `^`) or at some position of the text |
| `Grep.PiecesRoundTrip` | grep.c:85-96 | reading a pattern as pieces loses nothing |
| `Grep.PiecesCanonical` | grep.c:85-96 | a `*` belongs to the character before it unless that one is starred already, and a `$` is an anchor exactly when it is last |
| `Grep.ReadingUnique` | grep.c:85-96 | pieces told apart in that way are the ones read from what they spell, so there is no other reading |
| `Grep.PlainMeans` | grep.c:72-96 | a pattern without special characters means that the text contains it |
| `Grep.AnchoredMeans` | grep.c:72-96 | with `^` in front, that the text begins with it |
| `Grep.EndMeans` | grep.c:85-96 | with `$` behind, that the text ends with it |
| `Grep.StarMeans` | grep.c:85-106 | `^c*$` means a text of nothing but c, or any text if c is `.` |
| `Grep.DotMeans` | grep.c:85-96 | `^.$` means one character, whichever |

## Left out

- Reading directories and inodes as bytes: entries and inodes are values; the byte level is covered for file contents only.
- FileSystem.FileSystem.Filewrite: nobody else writes the file between two chunks; `FileRuns` covers that on the level of the file's bytes.
- FileSystem.FileSystem.Balloc: keeps one boolean per bit of the free map; `MapSet` and `MapClear` show that the byte operations on the whole map do the same.
- Number of blocks logged by directory operations: the chunks of `filewrite` and `itrunc` are bounded.
- The exact bytes of inodes on disk: `CrashFiles` takes any encoding that keeps apart free-map bits, data, and inodes whose fields have the widths of `struct dinode`, and `FsCodec` gives one; major and minor numbers are not modelled.
- LogDevice.Log.Commit: requires a list that fits the log area, which `WritesFit` shows of every commit that writes anything; its cache has room for every block.
- `bget`'s panic while fewer than NBUF blocks are pending, because processes hold the other buffers: it halts the system, and `LogRuns` has no step then.
- Eviction of buffers inside `LogDevice`: there a block once read stays cached; recycling is covered by `BufCache` and `LogRuns`.
- FileSystem.FileSystem.constructor: takes any disk whose allocated slots match the sizes; the image mkfs makes does unless the root directory's size was an exact multiple of BSIZE before rounding (mkfs.c:160-164).
- `iget`, `iput` and `ilock` reference counting, `namex` and `skipelem`: paths are resolved before the modelled operations start.
- `filealloc`, `filedup` and `fileclose` counts: `PipeRuns` uses what they promise, that an end is closed only when nobody is inside it.
- LinkSteps.UnlinkKeeps: `sys_unlink` and `create` are single steps because their locking is two-phase: both inodes are locked before the first change, and neither takes another lock after releasing one, although `sys_unlink` releases the directory before it lowers the file's count (sysfile.c:222-228).
- Operations inside a directory that has been removed, beyond what `CreateExactly` and `LinkExactly` say.
- `growproc`: it takes a new size of 0 for a failure after the pages are freed (proc.c:243-244); `allocuvm` and `deallocuvm` are modelled, their caller is not.
- Umalloc.Allocator.Malloc: takes the store to the header of new core to succeed, also when `sbrk` was asked for another size than the allocator books (`SbrkArgExact`); after that the answers of `sbrk` may lie below units already booked, which `Above` excludes.
- KrHeap.ChunkInv: addresses are counted in headers from `base`, so `sbrk` is taken to answer a whole number of headers from there.
- `loaduvm`, `inituvm`, `clearpteu` and `exec`.
- 16-bit limits of `nlink` and limits of pids.
- Disk errors, and more than one device: requests are for blocks of the root disk.
- Spinlock internals and memory ordering: acquire and release are atomic steps.
- Context switches, traps, system call argument fetching, the console, device and boot code: hardware and plumbing.
- grep's read loop (grep.c:10-36) and the shell's `runcmd`: input, output and processes.
- The shell keeps redirections in a list until a simple command is complete, where the C code wraps a command node that it still fills.
- Liveness under a fair scheduler: wakeups are shown not to be lost; that a runnable process is eventually run is not modelled.
