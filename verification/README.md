# xv6, verified in Dafny

This project models the parts of the xv6 teaching kernel and its user library that carry its hardest promises,
and proves those promises. Code that works by changing state is a class with methods and loops, each proved
against a specification; concurrent code is also a system of steps, with invariants proved for every run.

| files | what they model |
|---|---|
| `Common`, `Blocks`, `RedoLog`, `BufferCache`, `Log`, `GroupCommit`, `LogPanics` | bio.c, memide.c, log.c: buffer cache, redo log, group commit, crash recovery |
| `DiskLayout`, `FileMap`, `Inodes`, `SwapFile`, `FsLog` | fs.h, fs.c, file.c: block bitmap, block mapping, files as byte sequences, swap files, and what they hand to the log |
| `PageTables`, `Vm` | mmu.h, kalloc.c, vm.c: page frames and address spaces |
| `Umalloc` | umalloc.c: the user heap |
| `Proc`, `ProcSteps` | proc.c: the process table, and processes on any number of CPUs |
| `Pipe`, `PipeProtocol` | pipe.c: the ring buffer, and any number of readers and writers |
| `ShellGrammar`, `ShellTree`, `ShellOrder`, `Shell` | sh.c: the command parser |
| `Grep` | grep.c: the pattern matcher |

How the pieces fit:

- **Disk and log.** `RedoLog` gives the meaning of a disk image: `Recovered` is the disk that recovery would
  reconstruct from the on-disk header. `CommitAtomic` and `RecoverySurvivesCrashes` are stated over every disk
  image that commit and recovery pass through. The class `Cache` is bio.c's ring of buffers; its ghost field `a` is
  the view that its users have (contents of every block, pinned blocks, held buffers). The class `Log` runs log.c on
  it, and its contracts say that the disk images it produces are exactly those of `RedoLog`. `GroupCommit`
  interleaves operations, readers, every bread, bwrite and brelse, and crashes; a crash keeps the disk and loses the
  rest. `LogPanics` says which of its runs panic.
- **Files.** A ghost owner for every block (`FileMap.MapInv`) makes ownership exact in both directions. `Contents`
  is the byte sequence of a file, and `readi`, `writei`, `itrunc`, `filewrite` and the swap-file routines are
  proved against operations on byte sequences. Every block they change they hand to `log_write` (`Inodes.Logged`),
  and `FsLog` shows that this is what `end_op` takes for granted.
- **Memory.** A ghost use for every page frame (`PageTables.MapOk`) says whether it is free, a page directory, a
  page table of one directory, a user page of one directory, or held by the kernel; the page tables and the free
  list agree with it in both directions. `Lookup` is the flat map that the two-level tables implement, and `UserMay`
  what the flags of both levels together let user code do.
- **Processes.** A step of `ProcSteps` is one critical section of ptable.lock or a piece of one, so that the lock may
  be taken in one context and given up in another. The table scans are the methods of `Proc.ProcTable`.
- **Pipes.** The methods of `Pipe.Pipe` are the critical sections; `PipeProtocol` interleaves them, using the same
  outcome functions.
- **Shell.** `ShellGrammar` has the grammar as derivation trees, and the parser as a function from tokens to
  derivations; `ShellTree` has the command that a derivation dictates. `Shell` is the parser on the buffer, with its
  cursor and its in-place termination of words. `ShellOrder.Says` relates a command to the characters of the line
  alone, with no tokens or derivations in between.

What the proofs found out about the code:

- log.c reserves space against LOGSIZE but panics at `log.size - 1`, and mkfs makes `log.size` equal to LOGSIZE: three
  operations within their budgets reach the panic. A cache of NBUF buffers is no larger than a transaction may be, so
  `bget` runs out as well: with a full transaction and as many buffers held besides as make NBUF, by readers, by an
  operation or by commit itself. `PanicByLogSize` gives the exact condition for either panic, `PanicExactly` the events
  that cause one, and `ModestRun` bounds that rule both out; `CommitRunsOut` shows commit itself without a buffer.
- filewrite sizes its chunks from LOGSIZE, but begin_op reserves only MAXOPBLOCKS: a full chunk logs at least 13 blocks
  (`FullChunkSpans`, `PutChunk`), and three of them reach log_write's panic whatever the log size (`ChunksFillLog`).
- `deallocuvm` jumps by 4 MB over a missing page table from wherever it stands, so it can miss pages at the start of
  the next table. `DeallocComplete` gives the exact condition, and `DeallocContiguous` shows that a process with
  contiguous pages is safe. `BootToGap` is a run of the kernel's own calls from boot after which a process of one page
  still has page 1024 mapped.
- `allocuvm` ignores a failed `mappages`, so it can report success with its last page missing: `AllocComplete` says
  exactly when, and `AllocGap` shows it. On a page that is mapped already it panics, exactly when there are frames
  enough to come to it (`Allocuvm`). A failed `setupkvm` keeps every frame that was free (`SetupKeeps`,
  `SetupLoses`). A failed `copyuvm` loses a frame for exactly the numbers of free frames that `Copyuvm` gives;
  `CopyLoses` shows one.
- `malloc` of one of the seven largest sizes wraps around to a block with no room (`EnoughRoom`).
- A killed pipe writer leaves without waking readers. `StrandedExactly` gives the exact steps after which a reader
  sleeps before a non-empty pipe.
- `kill(0)` marks an unused slot, and the next process in that slot starts out killed: `KilledBeforeBirth` is such a
  run from boot, `CleanExactly` and `CleanRun` say which steps can bring it about, and `BornKilled` that the mark
  stays until wait frees the slot.
- The shell opens the file of `>>` like that of `>`: `AppendIsWrite`, for every line.

## Model

| member | source | states |
|---|---|---|
| Blocks.WordAfterSet | fs.h:23-34 | storing a uint in a block changes that uint and no other; the stored one reads back |
| Blocks.ZeroWords | fs.c:39-48 | a zeroed block holds only zero addresses |
| RedoLog.InstallAt | log.c:67-81 | each home block gets its last log slot, and no other block changes |
| RedoLog.HeaderRoundTrip | log.c:83-112 | read_head after write_head returns the list written |
| RedoLog.InstallStepKeepsRecovered | log.c:67-81 | any install write, in any order, leaves the recovered disk unchanged |
| RedoLog.InstallKeepsRecovered | log.c:67-81 | install_trans cut short anywhere leaves the log and the recovered disk unchanged |
| RedoLog.InstalledIsRecovered | log.c:67-81 | after all installs the home blocks are the recovered ones |
| RedoLog.LogWriteKeepsRecovered | log.c:173-187 | with an empty header, writes to the log area leave the recovered disk unchanged |
| RedoLog.ClearKeepsRecovered | log.c:189-199 | clearing the header after installing leaves the recovered disk unchanged |
| RedoLog.RecoveryStep | log.c:114-121 | recovery cut short anywhere keeps the recovered home blocks; a complete run installs them and empties the log |
| RedoLog.RebootsKeepRecovered | log.c:114-121 | any sequence of reboots, each cut short, keeps the recovered home blocks |
| RedoLog.RecoverySurvivesCrashes | log.c:67-121 | any number of crashes in recovery, then one complete run, equals one uninterrupted run |
| RedoLog.BeforeCommitPoint | log.c:173-199 | until the header is written a crash recovers the old disk |
| RedoLog.CommitPoint | log.c:97-112 | the header write turns the logged blocks into the recovered ones |
| RedoLog.AfterCommitPoint | log.c:189-199 | every later prefix of commit recovers the new disk |
| RedoLog.CommitAtomic | log.c:97-199 | a crash after any number of commit's writes recovers all of the old disk or all of the new, switching exactly at the header write |
| BufferCache.PushFrontRing | bio.c:50-56 | linking after the head puts a buffer first and keeps the ring |
| BufferCache.UnlinkRing | bio.c:130-135 | unlinking removes exactly that buffer from the order |
| BufferCache.ReleaseRing | bio.c:130-135 | the link updates of brelse move the buffer to the front and keep the others in order |
| BufferCache.FrontIsLatest | bio.c:130-135 | moved to the front on every release, the buffers stand in the order of their last release |
| BufferCache.LeastRecentIsOldest | bio.c:83-93 | the buffer that bget recycles was released no later than any other it could have |
| BufferCache.EnoughBuffers | bio.c:83-95 | with fewer than NBUF blocks held or pinned some buffer can be recycled |
| BufferCache.AllTaken | bio.c:83-95 | with NBUF blocks held or pinned no other block gets a buffer |
| BufferCache.GetExactly | bio.c:62-96 | bget has a buffer for a block if and only if it is held or pinned, or fewer than NBUF blocks are |
| BufferCache.Cache.constructor | bio.c:39-57 | an empty cache whose ring holds every buffer, in reverse order of initialisation |
| BufferCache.Cache.Bget | bio.c:59-96 | the one buffer of a cached block, or, of the buffers neither held nor dirty, the one released longest ago; sleep and panic exactly when they must be |
| BufferCache.Cache.FindCached | bio.c:69-81 | the scan finds the block's buffer if and only if there is one |
| BufferCache.Cache.FindFree | bio.c:83-95 | the scan finds the least recently used free buffer, or none is free |
| BufferCache.Cache.Iderw | memide.c:34-59 | one atomic block write or read; a panic exactly on the tested conditions |
| BufferCache.Cache.Bread | bio.c:98-109 | a held buffer with the block's contents, nothing else changed; sleep exactly on a held block, panic exactly on one neither held nor pinned while NBUF blocks are |
| BufferCache.Cache.Bwrite | bio.c:111-119 | exactly one disk write, of the held contents; the block is no longer pinned |
| BufferCache.Cache.Brelse | bio.c:121-142 | the buffer is first in the ring, the latest released, and unheld; the view unchanged |
| BufferCache.Cache.Pin | log.c:226-230 | the block is pinned: dirty, and so never recycled |
| Logging.CopyToLog | log.c:173-187 | one copy to the log is one disk write of the cached contents |
| Logging.CopyHome | log.c:67-81 | one install is one disk write of the log block's contents |
| Logging.CommitImages | log.c:189-199 | every disk image of a commit recovers to the old home blocks or to what the cache shows |
| Logging.CommitKeepsView | log.c:189-199 | commit leaves every home block looking as before, and none dirty |
| Logging.Log.constructor | log.c:52-65 | an empty in-memory log |
| Logging.Log.InstallTrans | log.c:67-81 | its disk images are exactly those of Install; a complete run leaves no listed block dirty |
| Logging.Log.WriteLogBlocks | log.c:173-187 | its disk images are exactly those of WriteLog; with nothing held it completes exactly when a buffer is to spare |
| Logging.Log.FillHeader | log.c:100-111 | the header block lists n and the block numbers |
| Logging.Log.WriteHeader | log.c:97-112 | one disk write, after which the on-disk header is the in-memory one |
| Logging.Log.TakeHeader | log.c:83-95 | the in-memory header is the one in the block |
| Logging.Log.ReadHeader | log.c:83-95 | the in-memory header becomes the on-disk one |
| Logging.Log.RecoverFromLog | log.c:114-121 | its disk images are exactly those of RecoveryDisk; a complete run empties the log |
| Logging.Log.Commit | log.c:189-199 | its disk images are exactly those of CommitDisk; with no buffer held it completes if and only if the transaction has fewer than NBUF blocks |
| Logging.Log.InstallAndClear | log.c:189-199 | the part of commit after the commit point, with the view kept |
| Logging.Log.LogWrite | log.c:201-230 | the two panics exactly; else the block is listed once and pinned, and the disk unchanged; a call that begin_op promised does not find the log full when log.size exceeds LOGSIZE, and the other promises stay good |
| Logging.Log.BeginOp | log.c:123-140 | every call of log_write promised so far, and MAXOPBLOCKS more, fit the header together; it waits exactly during a commit or when they would not |
| Logging.Log.EndOp | log.c:142-171 | the last operation commits, and with no buffer held it does so if and only if the transaction is smaller than NBUF; a commit of n > 0 blocks is 2n + 2 disk writes, after which the disk holds the blocks as the cache showed them, and the cache shows them as before; every disk image on the way recovers to the old blocks or to those in the cache; the promises to the other operations stay good |
| GroupCommit.WriteKeepsInv | log.c:201-230 | log_write panics exactly when the header or the log area is full |
| GroupCommit.EndKeepsInv | log.c:142-171 | the log.committing panic is unreachable |
| GroupCommit.CrashKeepsInv | log.c:114-121 | a crash in any state leaves a disk that recovers to the last commit |
| GroupCommit.HeaderCommits | log.c:97-112 | the header write commits exactly the blocks the cache shows |
| GroupCommit.NextKeepsInv | log.c:123-230 | every event keeps the invariant |
| GroupCommit.RunInv | log.c:123-230 | every state of every run satisfies the invariant |
| GroupCommit.RunAtomic | log.c:123-230 | at every moment of every run, with no bound on what operations log, and also after a panic, a reboot recovers the last committed blocks; a commit adds all the writes of ended operations |
| LogPanics.RunBuffered | bio.c:62-142 | in every state of every run dirty and busy blocks fit the cache, and nobody holds what another does |
| LogPanics.BudgetStep | log.c:131-136 | the reservation of begin_op: as long as operations keep to MAXOPBLOCKS calls, every call left fits the header |
| LogPanics.BudgetRun | log.c:123-230 | the same over every run |
| LogPanics.PanicExactly | log.c:201-230 | exactly which events panic, and how: a log_write in a full transaction; a request for a buffer, by the committing process or any other, when NBUF blocks are dirty or busy and the one asked for is not; end_op's panic never |
| LogPanics.RecoveryHasBuffers | log.c:114-121 | recovery never wants for a buffer |
| LogPanics.ModestRun | log.c:123-230 | a run in which listed blocks and held buffers leave room for two does not panic |
| LogPanics.RunPanic | log.c:123-230 | what a panic implies: within budgets a small log; a full transaction and the buffers held besides make NBUF |
| LogPanics.LogFillsUp | log.c:215-216 | three operations of q calls each reach log_write's panic in every log of less than 3q blocks |
| LogPanics.ChunksFillLog | file.c:132-145 | three full chunks of filewrite reach it whatever the log size |
| LogPanics.BuffersRunOut | bio.c:83-95 | a run within budgets in which bget panics, with exactly as many buffers held as the transaction falls short of NBUF |
| LogPanics.CommitRunsOut | log.c:180 | a run in which commit finds no buffer for its first log block though nobody holds one |
| LogPanics.PanicByLogSize | param.h:11-12 | within budgets, log_write's panic is reachable if and only if log.size is at most LOGSIZE; bget's, with at most h buffers held besides, if and only if a full transaction and h make NBUF |
| DiskLayout.SetBitInUse | fs.c:62-67 | setting a block's bit marks that block and no other |
| DiskLayout.ClearBitInUse | fs.c:86-91 | clearing a block's bit frees that block and no other |
| DiskLayout.InodeRoundTrip | fs.c:198-215 | ilock reads back what iupdate stored, and the block's other inodes are unchanged |
| DiskLayout.InodeBytes | fs.h:28-36 | the byte offset of every field of the disk inode, low byte first |
| FileMap.ClaimDirect | fs.c:361-366 | a free block becomes the next direct block of one file; all ownership stays exact |
| FileMap.ClaimIndirect | fs.c:369-373 | a free block becomes the file's empty indirect block |
| FileMap.ClaimSlot | fs.c:374-380 | a free block becomes the next block through the indirect block |
| FileMap.WriteBlock | fs.c:475-486 | overwriting a block of a file changes those bytes of that file only |
| FileMap.OtherSlot | fs.c:356-384 | two slots of a file never share a block |
| FileMap.FreeAll | fs.c:386-419 | with exactly its blocks freed and its addresses zeroed a file owns nothing, and all else stays exact |
| Inodes.FirstClear | fs.c:60-63 | the first clear bit of a bitmap block |
| Inodes.FileSystem.Balloc | fs.c:52-75 | the lowest free block, marked and zeroed, one fewer free; a panic exactly when none is free |
| Inodes.FileSystem.Bfree | fs.c:77-93 | a panic exactly on a free block; else that bit alone is cleared, and every block changed is logged |
| Inodes.FileSystem.Bmap | fs.c:354-384 | the address of an existing block, nothing changed, or the next block claimed for the file; a panic exactly when too few blocks are free; none is lost; what is logged; every block changed is logged |
| Inodes.FileSystem.BmapIndirect | fs.c:374-381 | the same through the indirect block, which is logged when it changes |
| Inodes.FileSystem.Iupdate | fs.c:198-215 | inode i is stored, and reads back from disk as it is in memory; every other inode that was stored still is |
| Inodes.FileSystem.Writei | fs.c:460-492 | a device's function, the errors, and the panic for want of blocks, each exactly when; else exactly the bytes [off, off+n) are replaced, the file extended if need be, other files unchanged, free blocks plus blocks held conserved, and which blocks are logged; every block changed is logged |
| Inodes.FileSystem.WriteFile | fs.c:475-491 | success if and only if the free blocks suffice for the new data blocks and a new indirect block |
| Inodes.FileSystem.WriteLoop | fs.c:475-486 | the loop writes block by block, each prefix in place, and stops exactly when the blocks do not suffice |
| Inodes.FileSystem.WriteChunk | fs.c:476-485 | one iteration: the bytes in one block, its cost in blocks exact |
| Inodes.FileSystem.Readi | fs.c:433-458 | a device's function and the errors, each exactly when; else the slice of the contents clipped to the file; nothing is allocated or logged |
| Inodes.FileSystem.Itrunc | fs.c:386-419 | the file gives back exactly its blocks and is empty; no bfree panics; other files unchanged; every block changed is logged |
| Inodes.FileSystem.FreeDirect | fs.c:398-403 | exactly the direct blocks are freed |
| Inodes.FileSystem.FreeThroughIndirect | fs.c:405-412 | exactly the blocks listed in the indirect block are freed |
| Inodes.FileSystem.FinishTrunc | fs.c:417-418 | the empty inode is stored and the state is consistent |
| Inodes.WriteExtended | fs.c:487-490 | after the new size is stored the file system is consistent and the contents spliced |
| Inodes.WriteWithin | fs.c:487-490 | a write inside the file leaves nothing to store |
| Inodes.BitmapExact | fs.c:52-93 | a bit is set exactly when its block is metadata, in a slot of some file, or an indirect block |
| Inodes.NoSharing | fs.c:356-384 | no block is in two slots, in a slot and an indirect block, or the indirect block of two files |
| Inodes.NoHoles | fs.c:487-490 | slot k is used exactly when the file reaches block k; the indirect block exists exactly past the direct ones |
| Inodes.LogsCount | fs.c:460-492 | a writei logs every block it writes bytes to, and at most the bitmap, the indirect block and the inode's block besides |
| Inodes.FreshConsistent | mkfs.c:236-252 | a file system with only its metadata marked and every inode empty is consistent |
| SwapFile.SpliceTwice | file.c:134-152 | two adjacent writes are one write |
| SwapFile.SpliceRoundTrip | fs.c:433-492 | reading where one wrote gives what one wrote, and the rest is as before |
| SwapFile.FileWrite | file.c:114-155 | all bytes and n, or the whole chunks that fit and -1; the offset moves past them; a panic exactly when too few blocks are free for those; a device gets the first chunk exactly when it has a write function |
| SwapFile.WriteChunks | file.c:134-152 | the chunk loop writes exactly a prefix, and how long a prefix; it finds no block exactly when there are too few for the whole prefix |
| SwapFile.PutChunk | file.c:135-151 | one chunk: written, refused as too large, or out of blocks, each exactly when; how many blocks its transaction logs |
| SwapFile.FullChunkSpans | file.c:132 | a full chunk lies in 13 blocks, or 14 off a block boundary, more than MAXOPBLOCKS |
| SwapFile.ChunkedRoom | file.c:134-152 | free blocks and blocks held add up to the same after every chunk, so chunk by chunk fails only where the whole would |
| SwapFile.FileRead | file.c:94-112 | the slice at the offset, clipped, and the offset moved past it; the errors and the device's function each exactly when |
| SwapFile.WriteToSwapFile | fs.c:771-779 | filewrite at the given place, for every size and mode, the panic exactly when too few blocks are free |
| SwapFile.ReadFromSwapFile | fs.c:781-788 | the bytes at the given place, clipped to the file; -1 exactly when it is not readable, the place is past its end, or the sum wraps |
| SwapFile.SwapOutAndIn | fs.c:771-788 | what is written to the swap file at a place is what is read back there, if and only if there are blocks enough |
| FsLog.OperationKeepsPremise | fs.c:354-492 | an operation that logs every block it changes leaves only listed blocks different from the disk, which is what end_op requires |
| FsLog.CommitKeepsPremise | log.c:156-171 | after a commit no block is different from the disk, so that it holds for the next transaction |
| PageTables.NoSharedFrames | vm.c:98-111 | no frame is mapped by two user pages, or is a page table or free while mapped |
| PageTables.TableDecides | vm.c:58-61 | the directory grants user code everything, so that what it may read or write at a page is what the table entry grants |
| PageTables.NewTable | vm.c:55-62 | a new zeroed table changes no translation |
| PageTables.StoreLookups | vm.c:42-65 | storing one entry changes the translation of that page of that directory alone |
| PageTables.MapUser | vm.c:81-83 | mapping a kernel-held frame as a user page keeps every frame in one use |
| PageTables.UnmapUser | vm.c:263-270 | unmapping a user page gives its frame back |
| PageTables.RetireDirectory | vm.c:284-291 | a directory without user pages can be given up with its tables |
| PageTables.TakeFrame | kalloc.c:79-95 | taking the head keeps the free list exact |
| PageTables.GiveFrame | kalloc.c:54-77 | putting a frame in front keeps the free list exact, and all translations |
| Vm.Machine.constructor | kalloc.c:25-43 | memory with nothing on the free list |
| Vm.Machine.Freerange | kalloc.c:45-52 | exactly the whole pages of the range become free |
| Vm.Machine.Kalloc | kalloc.c:79-95 | the first free frame, or none exactly when none is free |
| Vm.Machine.Kfree | kalloc.c:54-77 | the panic exactly on an address off a page boundary, in the kernel image or past physical memory; else the frame is free again, first on the list, and no translation changes; its words but the link are 0x01010101 |
| Vm.Machine.Walkpgdir | vm.c:42-65 | the page's table; none exactly when it is missing and cannot be made; no translation changes, and every directory entry, old or new, grants presence, writing and user access |
| Vm.Machine.MapPage | vm.c:78-88 | one page mapped, or exactly why not |
| Vm.Machine.Mappages | vm.c:67-90 | exactly the pages of the range map the frames in order, each missing table costing a frame; where and why it stops; over absent pages it succeeds if and only if there is a frame for each missing table |
| Vm.MapExact | vm.c:78-88 | where the mapping of absent pages stops is decided by free frames and missing tables |
| Vm.Machine.MapKmap | vm.c:139-142 | one entry of kmap mapped, or fewer than 65 frames were free |
| Vm.Machine.Setupkvm | vm.c:113-144 | exactly the kernel's mappings; success if and only if 65 frames are free; on failure no frame is left; user code may do nothing in it from KERNBASE up |
| Vm.KernelTranslates | vm.c:98-107 | every physical address below PHYSTOP is found KERNBASE above itself and every device address at itself; the text is read-only, the rest writable, none of it for the user, and nothing else is mapped |
| Vm.KernelClosed | vm.c:92-96 | user code may neither read nor write the kernel's mappings |
| Vm.SetupKeeps | vm.c:139-142 | with 1 to 64 frames free it fails and every one of them stays in a space that nobody knows |
| Vm.SetupLoses | vm.c:139-142 | a memory with one free frame, which it makes a directory and loses |
| Vm.VisitedExactly | vm.c:258-271 | the walk of deallocuvm looks at exactly the pages with a table that it does not jump over |
| Vm.VisitsAll | vm.c:258-271 | from an aligned page, or one with a table, the walk misses nothing |
| Vm.Machine.DropOne | vm.c:263-270 | one page unmapped and its frame freed |
| Vm.Machine.Deallocuvm | vm.c:245-273 | exactly the pages the walk looks at are unmapped and their frames freed; nothing else changes; no address space is opened to the user from KERNBASE up |
| Vm.DeallocComplete | vm.c:258-271 | no page of the range stays mapped if and only if no mapped page is jumped over |
| Vm.DeallocContiguous | vm.c:245-273 | with pages contiguous from 0 exactly those below the new size stay |
| Vm.DeallocSkips | vm.c:258-271 | with no first table and a page at the start of the second, shrinking to one page leaves that page mapped |
| Vm.GapRun | vm.c:218-273 | 1024 calls of allocuvm with one frame free, one with two, and a deallocuvm to one page: page 1024 is still mapped |
| Vm.BootToGap | vm.c:218-273 | the same from boot, by freerange and setupkvm |
| Vm.DroppedWhole | vm.c:284 | from page 0 every user page is unmapped |
| Vm.Machine.Freevm | vm.c:275-292 | exactly the frames of the address space become free; every other frame is untouched |
| Vm.GrownMore | vm.c:232-241 | one more page, fresh, with the wanted flags and contents, all frames accounted for |
| Vm.Machine.AddPage | vm.c:233-240 | a frame got, filled and mapped; or none; or lost for want of a table; or the remap panic, exactly on a mapped page |
| Vm.Machine.AllocOne | vm.c:232-241 | one page of allocuvm |
| Vm.Machine.Allocuvm | vm.c:218-243 | for every address space: when it returns newsz, when every page is mapped, when the last one is missing, when it panics on a page mapped already, and that failure undoes everything but page tables and the lost frame; user code may read and write every page added and finds zeros there, and no address space is opened from KERNBASE up |
| Vm.AllocMay | vm.c:239-240 | every page that allocuvm adds is readable and writable by the user, and zero |
| Vm.AllocUpper | vm.c:218-243 | success or failure, allocuvm leaves closed to the user what was closed from KERNBASE up |
| Vm.AllocComplete | vm.c:232-242 | when it returns newsz, all pages are mapped if and only if there were frames for every page and table |
| Vm.GrownContiguous | vm.c:232-241 | a process of exactly the pages below oldsz then has exactly those below newsz |
| Vm.OneFrameSpace | vm.c:232-241 | an address space with no table, and one free frame |
| Vm.AllocGap | vm.c:239-240 | there it returns 4096 and maps no page |
| Vm.UndoneBy | vm.c:234-238 | deallocuvm after a partial growth takes every new page away and nothing else |
| Vm.ParentSame | vm.c:319-331 | the parent's pages and translations are unchanged while the copy is made |
| Vm.Machine.CopyPage | vm.c:319-331 | one page copied with its flags |
| Vm.Machine.CopyOne | vm.c:326-330 | a frame got, filled and mapped in the child |
| Vm.Machine.Copyuvm | vm.c:307-337 | equal contents and flags in frames of the child's own, the kernel's mappings, the parent untouched; success, panic and failure exactly by the pages present and the number of free frames; what failure gives back, and for which numbers it loses a frame; in the child user code may read and write exactly what it may in the parent, and nothing from KERNBASE up |
| Vm.CopyMay | vm.c:307-337 | page by page, user code may do in the copy exactly what it may in the first n pages of the original |
| Vm.LostExactly | vm.c:326-330 | a frame is lost exactly when the frames run out at the first page of a table |
| Vm.OneShortSpace | vm.c:326-330 | a process of one page, and 66 free frames where a copy takes 67 |
| Vm.CopyLoses | vm.c:330-336 | there copyuvm fails and one frame that was free is so no longer |
| Umalloc.SearchStops | umalloc.c:30-32 | the search test of free holds at exactly one free block |
| Umalloc.MergedChain | umalloc.c:33-42 | inserting and coalescing keep one ring |
| Umalloc.MergedApart | umalloc.c:33-42 | the ring stays address-ordered, with no blocks overlapping or touching |
| Umalloc.MergedUnits | umalloc.c:33-42 | the free units grow by exactly the freed block |
| Umalloc.FreeKeepsHeap | umalloc.c:24-44 | free keeps the heap invariant |
| Umalloc.FreeKeepsRing | umalloc.c:33-42 | inserting and coalescing keep the free list one ring in address order |
| Umalloc.TakeWhole | umalloc.c:75-77 | taking a whole block keeps the heap invariant |
| Umalloc.TakeTail | umalloc.c:78-82 | taking the tail of a block keeps the heap invariant |
| Umalloc.GrowKeepsHeap | umalloc.c:46-61 | the units from sbrk join the heap |
| Umalloc.Heap.constructor | umalloc.c:21-22 | no list and nothing allocated |
| Umalloc.Heap.FindPlace | umalloc.c:30-32 | the search ends at the block's place, within one lap |
| Umalloc.Heap.Free | umalloc.c:24-44 | exactly that block moves from the allocated ones to the free list; the next search starts at the last free block below it |
| Umalloc.Heap.Morecore | umalloc.c:46-61 | exactly max(4096, nunits) fresh units join the free list, or sbrk failed and nothing changed |
| Umalloc.Heap.Take | umalloc.c:75-85 | a block of exactly the size wanted leaves the free list: all of the block found, or its tail end; the next search starts before it |
| Umalloc.Heap.Malloc | umalloc.c:63-90 | a block of exactly the units asked for, new and apart from all others; sbrk is called, once, if and only if no free block is large enough, and malloc fails if and only if that call does; the units hold the bytes asked for if and only if rounding does not wrap; without sbrk it is the tail end of the first block large enough in the order of the ring |
| Umalloc.EnoughRoom | umalloc.c:69 | the rounded units hold nbytes, with less than a unit to spare, if and only if nbytes is at most 2^32 - 8; else there is no room at all |
| Proc.ReparentStep | proc.c:199-206 | one slot of exit's loop, with its wakeup |
| Proc.ProcTable.Wakeup1 | proc.c:386-397 | nobody is left asleep on the channel, and exactly those who were are runnable |
| Proc.ProcTable.Exit | proc.c:194-209 | slot by slot: the process a zombie, its children with init, its parent woken from wait, init woken from wait if it gets a zombie, everyone else as before |
| Proc.ProcTable.WaitScan | proc.c:224-250 | the first zombie child is freed, its slot unused with pid 0, no parent and no mark, or there is none, and whether there is a child |
| Proc.ProcTable.AllocScan | proc.c:40-50 | the first unused slot, or none |
| Proc.ProcTable.KillScan | proc.c:411-429 | the first slot with the pid is marked and not asleep, runnable if it was, and otherwise as before, or there is none; no other slot changes |
| ProcSteps.CpuStep | proc.c:257-347 | every step keeps who runs where |
| ProcSteps.CpuDispatch | proc.c:276-286 | the scheduler never runs a process that is current elsewhere |
| ProcSteps.ExitNoneLost | proc.c:194-209 | after exit no process asleep in wait has a zombie child, old or new |
| ProcSteps.ExitParents | proc.c:199-206 | after exit every process but init has a live parent |
| ProcSteps.FamilyStep | proc.c:125-255 | every step keeps parents alive and waiters without zombies |
| ProcSteps.PidStep | proc.c:34-50 | every step keeps pids distinct and each exit accounted for |
| ProcSteps.StepInv | proc.c:30-429 | every step keeps the whole invariant |
| ProcSteps.RunInv | proc.c:30-429 | every run on any number of CPUs keeps it |
| ProcSteps.OneCpu | proc.c:257-316 | with ptable.lock free a process is RUNNING exactly when current on a CPU, and on one only |
| ProcSteps.ReapSafe | proc.c:230-242 | wait frees only a process that is on no CPU and not yet reaped |
| ProcSteps.RunNoLostWakeup | proc.c:169-255 | in every reachable state a process asleep in wait has no zombie child, and every live or zombie process but init has a live parent |
| ProcSteps.RunReapedOnce | proc.c:214-255 | every exited process is a zombie in one slot or has been reaped, once |
| ProcSteps.WhatBecomes | proc.c:30-429 | process by process, for every step: which state follows which, what it sleeps on, its parent, its mark and its pid; nothing else changes |
| ProcSteps.KillWakes | proc.c:411-429 | whom kill finds is marked and not asleep |
| ProcSteps.WakeupExactly | proc.c:386-406 | wakeup, by a process or an interrupt, leaves nobody asleep on its address and changes nobody else |
| ProcSteps.SleepsOn | proc.c:352-384 | through every run in which nobody wakes it a sleeper stays asleep on its address |
| ProcSteps.RunChan | proc.c:351-384 | in every reachable state a sleeper will look for zombies when it wakes exactly if it sleeps in wait; a process that goes on has channel 0 |
| ProcSteps.CleanExactly | proc.c:408-429 | exactly a kill that finds an unused slot, or a failed fork of a marked one, leaves a slot marked for its next process |
| ProcSteps.CleanRun | proc.c:408-429 | without such steps no run leaves a slot marked |
| ProcSteps.MarkStays | proc.c:408-429 | no step but wait's takes a slot's mark off |
| ProcSteps.BornKilled | proc.c:41-50 | over every run: a slot once marked gives its next process a killed flag unless wait freed it in between; with no marked slot a new process is not killed |
| ProcSteps.KillZero | proc.c:417-419 | kill(0) marks a slot if and only if some slot has pid 0, and then one that is not in use |
| ProcSteps.KilledBeforeBirth | proc.c:408-429 | a run from boot, with kill(0) the only kill, after which a runnable process is killed |
| Pipe.WrapEqual | pipe.c:84 | the full and empty tests on wrapped 32-bit counters are exact |
| Pipe.RingFree | pipe.c:92 | the slot written holds no unread byte |
| Pipe.Pipe.constructor | pipe.c:32-35 | an empty pipe with both ends open |
| Pipe.Pipe.Write | pipe.c:77-97 | as many bytes as fit are stored in order; it is done exactly when all are, and otherwise sleeps exactly if the read end is open and the writer was not killed |
| Pipe.Pipe.Read | pipe.c:99-120 | the oldest bytes, n of them or all there are; on an empty pipe with an open write end, and only there, it sleeps, or fails if the reader was killed |
| Pipe.Pipe.Close | pipe.c:58-74 | that end is closed; unread bytes stay readable; no later call on the other end blocks; the pipe is freed exactly when that end is closed too |
| PipeProtocol.StepKeepsInv | pipe.c:58-120 | every critical section, kill and close keeps the invariant |
| PipeProtocol.RunInv | pipe.c:58-120 | every run does: a sleeping writer means a full pipe, an open read end and no sleeping reader |
| PipeProtocol.RunFifo | pipe.c:77-120 | what was received is a prefix of what was stored, the rest at most PIPESIZE bytes in the pipe, each writer's bytes in order |
| PipeProtocol.WriteReturns | pipe.c:94-96 | a completed write has stored all its bytes in order; an incomplete one met a closed read end or a kill |
| PipeProtocol.ReadSleeps | pipe.c:99-120 | after a step of a reader: it sleeps exactly on an empty, open pipe if it has seen no kill; a read that returns leaves no writer asleep; nobody else falls asleep |
| PipeProtocol.ReadTakes | pipe.c:111-119 | a read that returns has taken the oldest bytes, n of them or all there were |
| PipeProtocol.WriteSleeps | pipe.c:77-97 | after a step of a writer: it sleeps exactly with bytes left over, an open read end and no kill seen; unless it fails no reader is left asleep |
| PipeProtocol.KillAwakes | proc.c:419-424 | kill wakes the reader or writer it marks, and nobody else |
| PipeProtocol.ReadZeroIsEof | pipe.c:105-119 | a positive read of 0 bytes means everything stored was received and the write end is closed |
| PipeProtocol.EofIsFinal | pipe.c:105-119 | after that no run stores anything more |
| PipeProtocol.ClosedNeverBlocks | pipe.c:58-120 | once an end is closed, in every later state of every run nobody sleeps at the other end |
| PipeProtocol.StrandedExactly | pipe.c:85-88 | exactly a killed writer with more than PIPESIZE bytes to go strands a sleeping reader |
| PipeProtocol.CarefulRun | pipe.c:77-120 | without such steps no run strands a reader |
| PipeProtocol.StrandingRun | pipe.c:85-88 | a run that strands a reader |
| ShellGrammar.ParseRedirects | sh.c:375-398 | its derivation yields the tokens consumed, and takes every redirection |
| ShellGrammar.ParseArgs | sh.c:430-445 | its derivation yields the tokens consumed, with at most nine words |
| ShellGrammar.ParseExec | sh.c:416-447 | its derivation yields the tokens consumed |
| ShellGrammar.ParsePipeline | sh.c:362-373 | its derivation yields the tokens consumed |
| ShellGrammar.ParseLine | sh.c:345-360 | its derivation yields the tokens consumed |
| ShellGrammar.LineFound | sh.c:345-447 | every derivation is found, whatever follows that cannot continue it |
| ShellGrammar.ParserExact | sh.c:328-447 | acceptance with a derivation if and only if it derives the tokens |
| ShellGrammar.Unambiguous | sh.c:328-447 | a token sequence has at most one derivation |
| ShellOrder.LiesWithin | sh.c:345-447 | every piece of a command lies within the part of the line that the command does |
| ShellOrder.LeftBeforeRight | sh.c:345-373 | a piece on the left of a pipe or list ends before any on the right begins, with its symbol between them |
| ShellOrder.RedirectsLie | sh.c:375-398 | each redirection follows its symbol, `<` with descriptor 0 for reading or `>` with 1 for writing, and wraps those before it |
| ShellOrder.ArgsLie | sh.c:430-445 | the words of a command stand in argv in the order of the line |
| ShellOrder.PipelineLies | sh.c:362-373 | the first command of a pipeline stands before the symbol, the rest after it |
| ShellOrder.LineLies | sh.c:345-360 | the command of a derivation is what the line says, from where its first token is to where the rest begins |
| ShellOrder.LineTally | sh.c:345-447 | a command has exactly the words of the line, and a node for each pipe, list, background and redirection symbol |
| ShellOrder.LineSays | sh.c:328-447 | both, on the characters of the line |
| Shell.Parser.constructor | sh.c:334 | the line ends at its first NUL |
| Shell.Parser.TakeToken | sh.c:277-301 | the token that starts at the cursor |
| Shell.Parser.GetToken | sh.c:266-309 | the next token of the line, a word being maximal |
| Shell.Parser.Peek | sh.c:311-321 | whether the next token starts with one of the symbols; no token is consumed |
| Shell.Parser.ParseRedirs | sh.c:375-398 | the redirections wrapped around the command in order |
| Shell.Parser.ParseRedir | sh.c:382-395 | one redirection with its mode and descriptor, or the panic |
| Shell.Parser.ParseBlock | sh.c:400-414 | the tree of the derivation found, or the panic exactly when there is none |
| Shell.Parser.ParseExec | sh.c:416-447 | the same |
| Shell.Parser.ParseSimple | sh.c:427-446 | the same, the words stored under the redirections |
| Shell.Parser.ParsePipe | sh.c:362-373 | the tree of the derivation found, or the panic exactly when there is none; `ShellOrder.PipelineLies` says where its two sides stand |
| Shell.Parser.ParseLine | sh.c:345-360 | the same |
| Shell.Parser.ParseAmps | sh.c:351-354 | one background command for each ampersand |
| Shell.Parser.NulTerminate | sh.c:449-494 | a NUL after every word and file name of the command and nowhere else |
| Shell.ReadBack | sh.c:449-494 | afterwards every argument and file name reads as exactly its token |
| Shell.ParseCmd | sh.c:328-343 | acceptance if and only if the line's tokens have a derivation, the tree it dictates, and every word readable in the buffer; the command says what the line says: the left side of every pipe and list before its symbol and the right side after it, words and redirections in order with the mode of their symbol, grouping only by parentheses, every word of the line in it, and a node for every pipe sign, semicolon, ampersand and `<` |
| Shell.PlainParseLine | sh.c:345-360 | the parser goes the same way on both, token by token |
| Shell.AppendIsWrite | sh.c:389-394 | a line with `>>` is accepted if and only if it is with `>` there, and gives the same command |
| Grep.SplitFirst | grep.c:84-96 | a split of the text by a pattern is a first part and a split of the rest |
| Grep.ParseExact | grep.c:84-96 | which pattern the matcher reads off a string: exactly one that is written so, and which can be written at all |
| Grep.ItemMeans | grep.c:84-106 | a character accepts itself, a dot any one, and with a star any number of them |
| Grep.AcceptsOne | grep.c:93-94 | the language of one character and a pattern |
| Grep.AcceptsStar | grep.c:98-106 | the language of a starred character and a pattern |
| Grep.Match | grep.c:72-82 | true if and only if a prefix of some suffix (of the text itself, after ^) is in the pattern's language |
| Grep.MatchHere | grep.c:84-96 | true if and only if a prefix of the text is in the pattern's language |
| Grep.MatchStar | grep.c:98-106 | true if and only if some run of the character leaves a text the rest accepts |

## Left out

- Device and boot code, interrupts and traps, segments, and context switching below `swtch`: hardware with no specification of its own; the disk is an atomic array of blocks, as in memide.c.
- spinlock.c: critical sections are taken as atomic, except in `ProcSteps`, where ptable.lock itself is part of the state.
- ide.c's queue and its sleeping callers: memide.c is the disk that is modelled.
- Directories, path lookup, links, `ialloc`, the inode cache and its reference counts, `exec`, `sbrk` below its promise of fresh units, and system-call dispatch.
- What a device's own read or write function does: `Readi`, `Writei`, `FileRead` and `FileWrite` say when it is called, and what `filewrite` does after its first chunk is up to it.
- `removeSwapFile` and `createSwapFile`: the swap file is taken as an open file, readable and writable.
- `inituvm`, `loaduvm`, `clearpteu`, `copyout`, `growproc`: short uses of the routines that are modelled.
- `runcmd` and `main` of sh.c, the line buffering of grep.c, and the small user programs.
- `pipealloc`: only the pipe it makes, not the two files.
- Liveness: no fairness of the scheduler and no eventual wakeup is claimed, only that none is lost.
- Logging.Log.Commit: `bwrite` and `brelse` are called by log.c only as modelled; that every caller of `brelse` has left the contents alone or handed them to `log_write` or `bwrite` is a premise on callers.
- LogPanics.RunBuffered: which process holds a buffer is not recorded, only whether the committing process or some other does; that a process sleeping on a held buffer wakes is not claimed.
- Inodes.NoHoles: for inodes that start empty and grow by `writei`; mkfs rounds the root directory's size up, which can leave a hole there.
- Inodes.FileSystem.Writei: the inode layer reads and writes the blocks that the buffer cache shows; the bread, log_write and brelse around each access are left out there, `Cache` and `Log` being proved to keep that view; which blocks go to log_write is recorded, and `FsLog` connects them to the log.
- Vm.Machine.Kfree: an address that passes the checks is of a frame that the caller holds; kfree cannot see a second free of the same frame, and no caller in vm.c makes one.
- Vm.Machine.Mappages: the range is not empty and does not wrap around the end of the address space, as in every call of the kernel; the caller holds the frames it maps for the user.
- Vm.Machine.Setupkvm: the linker symbol `data` is a parameter, on a page boundary past the kernel's text.
- Vm.Machine.DropOne: clears the page-table entry before the frame is freed, where vm.c does it after; the two writes are to different frames.
- Umalloc.Heap.Malloc: for sizes whose argument to `sbrk`, an int, is not negative, with `sbrk` giving fresh units above those it gave before.
- Umalloc.Heap.Free: memory is the header fields of each unit; the bytes inside allocated blocks are not modelled.
- ProcSteps.FamilyStep: kernel stacks, page tables and open files of a process are not part of the table that is modelled; whether fork gets them is an event of its own.
- ProcSteps.RunReapedOnce: pids are unbounded; the wrap-around of nextpid is not modelled.
- ProcSteps.StepInv: a table scan is one step; the unlocked writes of fork touch only the slot being filled, which no scan acts on.
- Shell.ParseCmd: the exec command filled in while redirections already refer to it is modelled as a value updated at that place in the tree; `malloc` never fails.
- Grep.Match: characters are compared as such, so the sign of `char` plays no part.
