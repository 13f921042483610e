# xv6c in Dafny

xv6c is a small Unix-like kernel with containers: each container has its own process table, quotas
and root directory.  This project models the parts of it where correctness is hard to see and
proves what they promise, for all inputs, all interleavings of the modelled steps, or all reachable
states.  Where the code does not keep a promise, a concrete run or input shows it and the exact
condition under which the code does is proved.

| file | what it models |
|---|---|
| Journal.dfy, LogSpace.dfy, LogRace.dfy, LogBuffers.dfy, LogProgress.dfy, LogDriver.dfy | the redo log (log.c): as a machine that interleaves processes, commit, recovery and crashes at every block write; which log sizes are safe, when it runs out of buffers, when commit and recovery come to their end; as the loops that run |
| BufferCache.dfy | the buffer cache (bio.c) with its doubly linked list |
| IdeQueue.dfy | the interrupt-driven disk driver (ide.c) against the synchronous one (memide.c) |
| DiskFormat.dfy, FileImage.dfy, DiskBytes.dfy, FileSys.dfy, Directory.dfy | inodes, free map, block mapping and what they are as bytes of the disk; reading, writing and truncating files, directories (fs.c, fs.h) |
| Paging.dfy, Vm.dfy | two-level page tables and the page allocator (vm.c, kalloc.c) |
| ExecStack.dfy | the argument stack of exec (exec.c, copyout in vm.c) |
| Umalloc.dfy | the user-level allocator (umalloc.c) |
| Containers.dfy, ContainerCount.dfy, CountRace.dfy, ContainerCursor.dfy, CursorRace.dfy, Scheduler.dfy, ProcessLife.dfy | processes and containers, the count of processes, the scheduler and its cursors, the life of a process (proc.c, container.c) |
| PipeProtocol.dfy, PipeCalls.dfy | pipes over sleep and wakeup (pipe.c, proc.c, container.c) |
| Paths.dfy | path names and confinement to a container's directory (fs.c, sysfile.c, proc.c) |
| ShellGrammar.dfy, ShellSyntax.dfy, Shell.dfy | the shell's tokenizer, parser and in-place termination of words, and the language it accepts (sh.c) |
| Grep.dfy | the regular expression matcher (grep.c) |
| Common.dfy | what several modules share |

Code that changes things in place is a class or a method with loops, proved against functions of
the old state.  Protocols whose difficulty is interleaving are step machines: `Enabled` says when a
step can be taken, `Apply` what it does, and the theorems quantify over every sequence of steps.
Ghost fields (`owner`, `home`, `ring`, `view` and the like) name what the pointers and counters
stand for.

## Model

| member | source | states |
|---|---|---|
| `Journal.CrashSafety` | log.c:70-122 | After any run of any processes with any number of crashes, also inside commit and inside recovery, the next recovery gives the file system of exactly the first `cut` logged writes, and no operation is on both sides of the cut; for runs in which each log_write still finds a slot when it takes the lock.  LogRace.CrashSafeExactly drops that condition for all logs of at least NBUF blocks |
| `Journal.StepKeeps` | log.c:126-233 | Every step (begin_op, the unlocked tests and the locked half of log_write, end_op, buffer use and eviction, one block write of commit or recovery, crash) keeps the invariant that ties disk, cache, header and history together, if log_write still finds a slot |
| `Journal.GoodRecovers` | log.c:115-122 | A disk in which the committed log is intact recovers to precisely the durable file system |
| `Journal.DurableGrows` | log.c:192-202 | From state to state the durable writes only grow, through crashes and recoveries |
| `Journal.FinishedIsDurable` | log.c:145-174 | When commit is done all logged writes are durable and in their home blocks |
| `Journal.ReadsCurrent` | bio.c:79-90 | A settled block reads as the last logged write to it, although clean buffers are recycled at any time and committed ones are not yet home |
| `LogBuffers.CommitCanProceed` | log.c:177-202 | When no process holds a logged block, commit and recovery can go on if and only if the buffers in use and those of the next step are not more than NBUF; for a log block to be written, if and only if bget has an unused buffer or a clean one that nobody holds |
| `LogBuffers.CommitPanics` | bio.c:78-92 | A run of operations within their budget after which commit finds no buffer although nobody holds one; bget panics before anything has reached the disk |
| `LogProgress.RecoveryCompletes` | log.c:115-122 | After a crash at any point of any run (in a log of at least NBUF blocks, or one in which each log_write still finds its slot), recovery comes to its end in one step for each block in the header and three more; then no operation is in progress, and disk and readers have the file system of exactly the writes that were durable |
| `LogProgress.CommitCompletesExactly` | log.c:177-202 | A commit that is writing the log, in any state of such a run in which no process holds a logged block, can, left alone, come to its end, with all logged writes durable, home and read back, if and only if bget has a buffer for the next log block |
| `LogProgress.StepChanges` | log.c:213-233 | What readers see of a block is changed by its holder alone, and by no eviction, commit or log_write; the history grows by exactly the data the block has at log_write; a write becomes durable only when commit writes the header; a crash keeps the disk and nothing else |
| `LogSpace.SlotInBounds` | log.c:126-141 | In every reachable state, for every size of the log area, lh.n plus the unused budget of all operations in progress is at most LOGSIZE, logged block numbers are distinct, and a process that passed the tests of log_write, however long ago, records its block within the header |
| `LogSpace.AlwaysFits` | log.c:218-230 | In a log larger than LOGSIZE each log_write of each run finds a slot inside the log when it takes the lock, although it tested for one before |
| `LogSpace.SmallLogPanics` | mkfs.c:25 | For a log of at most LOGSIZE blocks there is a run of operations within their budget after which log_write panics |
| `LogSpace.TooBigExactly` | log.c:213-233 | "too big a transaction" is unreachable if and only if the log area is larger than LOGSIZE blocks |
| `LogRace.SmallLogUnsafe` | log.c:218-223 | For a log of fewer than NBUF blocks, a run in which two processes pass the tests when one slot is left, after which commit writes a log block over the block behind the log and recovery gives a file system that is no state of the log |
| `LogRace.CrashSafeExactly` | log.c:177-233 | With NBUF buffers, every run is crash safe if and only if the log area has at least NBUF blocks, as mkfs makes it; every log write of every run stays inside the log area if and only if it has |
| `LogRace.RunBrims` | log.c:177-190 | In such a log a run in which two log_write calls share the last slot leaves commit without a buffer for its first block, until a crash |
| `LogDriver.Log.WriteLog` | log.c:177-190 | Copies all logged blocks to the log, taking buffers from clean free blocks; a crash after any of the n block writes recovers the old file system; panics, before the first write, if and only if there is no such buffer |
| `LogDriver.Log.WriteHeader` | log.c:101-113 | One block write puts exactly the in-memory header on the disk |
| `LogDriver.Log.ReadHeader` | log.c:85-96 | The in-memory header becomes what the disk header records |
| `LogDriver.Log.InstallTrans` | log.c:69-82 | Copies all logged blocks home; after each block write recovery still gives the new file system |
| `LogDriver.Log.Commit` | log.c:192-202 | 2n+2 block writes; a crash after any of the first n recovers the old file system, after any later one the new one; at the end all blocks are home and the log is empty; panics, having written nothing, if and only if blocks are logged and no buffer is unused or clean and free |
| `LogDriver.Log.RecoverFromLog` | log.c:115-122 | Installs the committed transaction; each intermediate disk recovers to the same file system, so recovery can be cut short and repeated |
| `LogDriver.Log.BeginOp` | log.c:125-141 | Admits an operation exactly when no commit is running and the worst case of all operations fits the log |
| `LogDriver.Log.LogAppend` | log.c:223-232 | Under the lock, pins the block and records it once |
| `LogDriver.Log.LogWrite` | log.c:213-233 | Without interference between the two halves: pins the block and records it once; fails, changing nothing, exactly where log.c panics |
| `LogDriver.Log.EndOp` | log.c:145-174 | The last operation out commits the group, unless bget panics; a crash during it recovers either the state before or the state after the whole group |
| `BufferCache.Cache.constructor` | bio.c:38-56 | The list built by binit runs through all buffers, next and prev inverse to each other |
| `BufferCache.Cache.Lookup` | bio.c:68-76 | Finds the block's buffer if and only if there is one |
| `BufferCache.Cache.Victim` | bio.c:78-91 | Among unreferenced clean buffers, the one fully released longest ago; none if and only if there is no such buffer |
| `BufferCache.Cache.Bget` | bio.c:61-93 | A referenced buffer for the block, at most one per block; panics exactly when the block is not cached and no buffer is eligible; the contents readers see do not change |
| `BufferCache.Cache.Bread` | bio.c:96-106 | The locked buffer holds what the plain block array holds |
| `BufferCache.Cache.Iderw` | memide.c:38-60 | A dirty buffer is written, another one read; the contents readers see do not change |
| `BufferCache.Cache.Modify` | fs.c:518-521 | Changes one block of the plain array and no other |
| `BufferCache.Cache.MarkDirty` | log.c:231 | Pins a buffer without changing what readers see |
| `BufferCache.Cache.Bwrite` | bio.c:109-116 | The disk block is the buffer's; what readers see does not change |
| `BufferCache.Cache.Brelse` | bio.c:120-141 | Gives up lock and reference; a fully released buffer moves to the front and all others keep their order |
| `BufferCache.MoveFront` | bio.c:130-138 | The six pointer assignments of brelse keep the list complete, doubly linked and in order of release |
| `BufferCache.Recycle` | bio.c:82-86 | Giving a clean unreferenced buffer to another block loses nothing and keeps one buffer per block |
| `IdeQueue.Driver.Request` | ide.c:137-159 | Appends to an acyclic queue and starts the device if it was quiet; the results of earlier requests stay in their buffers |
| `IdeQueue.Driver.Last` | ide.c:152-155 | The loop over the link fields ends at the last request |
| `IdeQueue.Driver.Work` | ide.c:94-99 | The device serves the head of the queue and the disk becomes what the synchronous driver makes of one more request |
| `IdeQueue.Driver.Interrupt` | ide.c:103-131 | Completes exactly the oldest request, leaving buffer and disk as the synchronous driver would, and starts the next |
| `IdeQueue.Driver.Finished` | ide.c:161-164 | The waiting loop ends only for a request that is no longer queued |
| `IdeQueue.Returned` | memide.c:38-60 | When iderw has returned, the block on disk is what the synchronous driver leaves, if nobody asked for the same block since, and the whole buffer is what it leaves, until the buffer is changed or asked again |
| `IdeQueue.Served` | ide.c:137-164 | Said without either driver: every block of the disk is as the last write that the device has seen left it, or as it was at first; a completed request has made its buffer valid and clean, a write keeps the buffer's data, and a read has got the data of the last write asked for before it |
| `DiskFormat.BitAfter` | fs.c:77-79 | Setting or clearing a bit of the free map changes that bit and no other |
| `DiskFormat.WordAfter` | fs.c:404-414 | Storing a word of an indirect block changes that word and no other |
| `DiskFormat.InodeAfter` | fs.c:239-255 | A packed disk inode reads back as stored and its neighbours in the block are untouched |
| `DiskBytes.InodeBytes` | fs.h:29-42 | Inode i is the 64 bytes from 64 * i on of the inode area: type, major, minor, link count, size and 13 addresses in this order, each low byte first |
| `DiskBytes.UsedBytes` | fs.h:44-48 | Block b is in use if and only if bit b % 8 of byte b / 8 of the free map is 1 |
| `DiskBytes.FileBytes` | mkfs.c:268-291 | Byte off of a file is the byte off % BSIZE of the block that address off / BSIZE of the inode names, and beyond the 12 direct ones of the block that the four bytes from 4 * (off / BSIZE - 12) on of the indirect block name, low byte first |
| `FileSys.FileSystem.Balloc` | fs.c:57-90 | The first free block, marked and zeroed; over quota and out of blocks exactly when they are, with nothing changed |
| `FileSys.FileSystem.Bfree` | fs.c:93-114 | Clears exactly the block's bit |
| `FileSys.FileSystem.Iupdate` | fs.c:239-255 | The disk inode becomes the in-core one; no other inode, block owner or data block changes |
| `FileSys.FileSystem.Bmap` | fs.c:391-419 | The block of a file block, allocating it and the indirect block when missing; ownership stays exact and no byte of any file changes; the quota taken is exactly that of the missing blocks.  Past the quota nothing more is allocated and what it returns is no block of the file |
| `FileSys.FileSystem.Readi` | fs.c:471-495 | Returns -1 for a bad range, else the bytes of the file from off on, cut at its end |
| `FileSys.FileSystem.Writei` | fs.c:500-530 | Returns -1 for a bad range.  Otherwise it reports success, and the file has a block for each of its bytes if and only if the quota covers the missing blocks; then the file is its old bytes with src spliced in at off, the disk inode agrees with the in-core one, and all other files keep their contents |
| `FileSys.FirstByteLost` | fs.c:518-521 | The smallest case past the quota: the first byte of an empty file goes to block 0 |
| `FileSys.HoledWrite` | fs.c:518-521 | Past the quota a missing block of the file stays missing, wherever the data of later blocks goes |
| `FileSys.FileSystem.Itrunc` | fs.c:426-454 | The file is empty, each of its blocks is freed once, and no other file changes; freeing a free block cannot happen |
| `FileSys.NoSharing` | fs.c:391-419 | Addresses in different slots, of one file or of two, are different blocks of the data area, marked used |
| `FileSys.TruncFrees` | fs.c:426-454 | After itrunc exactly the blocks of the file have become free |
| `FileSys.GrowKept` | fs.c:391-419 | Storing a fresh block in an empty slot keeps ownership exact and every other address and data byte |
| `FileImage.AllocOwn` | fs.c:57-90 | balloc hands out a block of the data area that nobody owns |
| `FileImage.DropEntry` | fs.c:444-447 | Freeing an entry of the indirect block keeps ownership exact for everything else |
| `Directory.NameCmp` | fs.c:535-539 | True if and only if two names agree in their first DIRSIZ characters |
| `Directory.DirLookup` | fs.c:543-567 | The inode number and offset of the first entry in use with the name, none if and only if the directory does not map it; nothing changes |
| `Directory.FreeOffset` | fs.c:583-589 | The first unused entry, or the end of the directory |
| `Directory.DirLink` | fs.c:570-597 | Refused if and only if the name is there; else, if it does not panic, the directory is whole if and only if the quota covers the entry, and then maps exactly one more name, no other name and no other file changes, and names stay distinct |
| `Directory.LinkedMap` | fs.c:583-594 | Filling a free entry, or one behind the end, adds one name to the map and changes no other |
| `Directory.LookupBytes` | fs.h:53-56 | A directory maps a name to a number if and only if, of the 16-byte entries that spell the name in bytes 2 to 15, ended by a NUL if it is shorter, the first with a number other than 0 in bytes 0 and 1, low byte first, has this number |
| `Vm.Memory.Kalloc` | kalloc.c:93-120 | The first free page leaves the list; none if and only if the list is empty or the container is at its limit |
| `Vm.Memory.Kfree` | kalloc.c:63-88 | The page returns to the front of the list and no page map changes |
| `Vm.Memory.Freerange` | kalloc.c:49-56 | Exactly the pages wholly inside the range join the free list |
| `Vm.Memory.Walkpgdir` | vm.c:36-56 | Finds the page table of an address; with alloc, it returns none if and only if the table is missing and the free list is empty or the container at its limit; a new table changes no page map |
| `Vm.Memory.Mappages` | vm.c:61-81 | Adds exactly the pages of the range, to consecutive frames, and ends also for a range that ends at 2^32; succeeds if and only if the free pages that the limit allows are at least as many as the page tables missing for the range; on failure a first part of the range is mapped |
| `Vm.Memory.Setupkvm` | vm.c:119-137 | The new directory maps exactly the kernel table; succeeds if and only if 65 pages are to be had, otherwise nothing has changed |
| `Vm.KernelLayout` | vm.c:89-116 | What that table maps each page to |
| `Vm.Memory.Allocuvm` | vm.c:222-250 | Adds zeroed pages for exactly the new range; succeeds if and only if there are pages for the range and for its missing page tables; on failure the old map is restored and every new page is free again, except page tables made on the way |
| `Vm.Memory.Deallocuvm` | vm.c:256-280 | Removes exactly the pages of the range and frees each frame once; jumping over absent page tables leaves out nothing |
| `Vm.Memory.Freevm` | vm.c:284-299 | Every user frame, page table and the directory is back on the free list exactly once; other address spaces keep their maps and data |
| `Vm.Memory.Copyuvm` | vm.c:316-344 | The child maps the same pages with the same flags to frames of its own with the same contents; succeeds if and only if there are pages for the kernel part, the copies and their page tables |
| `Vm.Memory.Clearpteu` | vm.c:303-312 | Takes the user flag from one page and changes nothing else in any map |
| `Paging.LookAfterPte` | vm.c:36-56 | Writing one page table entry changes the mapping of that page in that address space only |
| `Paging.LookAfterTable` | vm.c:45-54 | Hanging an empty page table into a directory changes no mapping |
| `ExecStack.AddressSpace.CopyOut` | vm.c:364-385 | Inside the image it succeeds exactly when every page of the range is the user's, and then changes exactly these bytes, across pages; above KERNBASE it changes nothing, and faults exactly in the hole between physical memory and the devices |
| `ExecStack.KernelPart` | vm.c:348-359 | Above KERNBASE a page is there and not the user's, or lies in that hole together with all pages of its page table, so that walkpgdir returns a null pointer for it |
| `ExecStack.AddressSpace.PushString` | exec.c:77-84 | The string with its NUL lies below the earlier ones, which are kept, if and only if it stays in the stack page; the stack pointer may wrap around |
| `ExecStack.AddressSpace.PushWords` | exec.c:85-93 | The argument vector lies right below the strings; refused exactly when it would leave the stack page |
| `ExecStack.AddressSpace.BuildStack` | exec.c:69-93 | Succeeds if and only if there are at most MAXARG arguments and all data fits the stack page; then the program reads its return address, argc, argv, the pointers ending in a null pointer, and NUL-terminated copies, aligned and not overlapping, in that one page.  It uses a null pointer if and only if an argument makes the stack pointer wrap around into the hole |
| `ExecStack.LongArgument` | exec.c:77-84 | An argument of 64 MB for a program of two pages does that |
| `ExecStack.AtGuard` | exec.c:74-82 | A copy that would begin below the stack page always touches the guard page |
| `ExecStack.TableMapped` | vm.c:348-359 | The user part of any address space of Vm, as a map from page to frame and user flag, is one that exec can work on: no two pages share a frame |
| `Umalloc.Allocator.FindPlace` | umalloc.c:30-32 | The search of free ends at the block behind which the address belongs |
| `Umalloc.Allocator.Free` | umalloc.c:24-44 | The list stays one address-ordered cycle without adjacent free blocks; the released units are in one available block, all other blocks keep their size |
| `Umalloc.Allocator.Morecore` | umalloc.c:46-61 | At least the units asked for join the heap as one available block, or nothing changes |
| `Umalloc.Allocator.Search` | umalloc.c:71-89 | Next fit ends: it finds a block that is large enough, within one lap after morecore; fails exactly when none fits and sbrk refuses |
| `Umalloc.Allocator.Malloc` | umalloc.c:63-90 | A new block of its own, with room for the bytes if and only if there are at most 2^32 - 8; 0 if and only if no free block fits and sbrk refuses; live blocks keep their place and size |
| `Umalloc.RoomExactly` | umalloc.c:69 | Of all 32-bit requests those above 2^32 - 8 bytes, and no others, are given too few units, because the sum wraps around |
| `Umalloc.WrapsAround` | umalloc.c:69 | A request of 2^32 - 1 bytes is given a header and no room |
| `Umalloc.SbrkGrows` | umalloc.c:52-54 | morecore asks sbrk for what it needs if and only if the request is of at most 2^31 - 16 bytes or wraps around; for the others the signed argument of sbrk is zero or negative |
| `Umalloc.UnitsConserved` | umalloc.c:24-90 | Free plus live units are the units obtained from sbrk, and no two blocks overlap |
| `Containers.StepKeeps` | proc.c:165-319 | Every step of fork, exit, wait, sleep, wakeup, the scheduler and the container calls keeps the invariant of all containers, except a store of uproc over a value that has risen since its load, and a call that sets the state of a container without slots |
| `ContainerCount.NeverUndercounts` | container.c:248-250 | uproc is at least the number of sleeping, runnable and running processes after every run in which no store of uproc loses an update |
| `ContainerCount.StepExcess` | proc.c:87 | A store of uproc changes the difference to the processes it should count by exactly loaded minus overwritten value; of all steps only such stores lower it, and exactly when uproc rose between load and store |
| `ContainerCount.ExactCount` | proc.c:190-196 | After any run uproc is the number of processes that live or are being forked, plus the forks whose copy failed, plus the sum of what the stores were off by |
| `ContainerCount.UndercountsExactly` | proc.c:264 | After any run uproc is below the processes it should count if and only if the stores lost more than failed forks left behind |
| `ContainerCount.UndisturbedLossless` | proc.c:87 | No store loses an update in a run in which no other store of the same uproc falls between a load and its store |
| `CountRace.ReclaimedAlive` | proc.c:87 | A run in which two forks load the same uproc, at whose end the scheduler reclaims the root container while initproc runs in it |
| `ContainerCount.ReclaimedEmpty` | container.c:443-460 | In runs without lost updates cexit happens only when no process in the table can still run |
| `Containers.ParentsLive` | proc.c:223-270 | In runs of such steps the parent of every process that lives or waits to be reaped is initproc or a live process of the same table |
| `ContainerCursor.CursorsExactly` | container.c:216-221 | The cursor of every container that can be scheduled is one of its slots in all states of a run if and only if no step of the run sets the state of a container without slots; lost updates of uproc make no difference |
| `ContainerCursor.SlotlessOnly` | container.c:478-481 | When cstart, cpause, cresume or cstop does that first, the container was reclaimed between the test and the store, or it was created without slots and is being started |
| `CursorRace.OffTheTable` | container.c:433-439 | A run in which cstop stores its state into a container reclaimed since its test, after which the cursor stands behind the end of the process table |
| `Scheduler.BoundedWaiting` | container.c:193-255 | Among any mproc visits to a container that stays runnable there is one that examines a given slot, and it runs the process in it if that is runnable |
| `Scheduler.ExaminedOnce` | container.c:216-221 | No slot is examined twice within mproc visits |
| `Scheduler.OnePerVisit` | container.c:223-242 | The processes of a container that a run lets run are at most the visits to it, so a pass over all containers runs at most one process of each |
| `ProcessLife.StatesExactly` | proc.c:223-398 | For every process and step: it sleeps after the step if and only if it has just gone to sleep, or slept and is not the one woken; likewise runnable, running, zombie and unused, each by the steps that lead there and those that lead away |
| `ProcessLife.StagesExactly` | proc.c:36-219 | How far a fork has got with a new process: taken, count loaded, counted, adopted, each until exactly the next step or failure of that fork, with forker and kind unchanged on the way |
| `ProcessLife.ParentsExactly` | proc.c:255-262 | The parent of a process changes only when fork adopts it, to the forker or, across containers, to initproc; when its parent exits, to initproc; and when it is reaped |
| `ProcessLife.TestsExactly` | container.c:466-532 | In which states cstart, cpause, cresume and cstop find a container, and that the last three are called from the root container |
| `ProcessLife.ContainersMade` | container.c:287-321 | A container is in creation from alloccont until ccreate makes it ready or gives it up, and unused again once it is given up or reclaimed |
| `ProcessLife.ContainersSet` | container.c:433-532 | When a container is runnable, paused or stopping: as the last call on it, or the kill of one of its processes over its limits, has set it, until the next |
| `ProcessLife.FieldsExactly` | container.c:216-221 | What each step does to the slots, the process count and the cursor of a container |
| `ProcessLife.RunnableRuns` | container.c:193-255 | A process that is runnable in a container that stays runnable is run within mproc visits of the scheduler to it |
| `ProcessLife.WokenRuns` | container.c:143-158 | So is a process that is woken, yields, or has been forked |
| `PipeProtocol.Fifo` | pipe.c:78-121 | Over every interleaving the bytes read are a prefix of the bytes written, at most PIPESIZE behind, and the wrapping 32-bit counters differ by the bytes in between |
| `PipeProtocol.ReadReturns` | pipe.c:100-121 | piperead returns consecutive bytes of the stream, all it was asked for or all there are, whichever is less, and none for n > 0 only when the write end is closed and everything has been read |
| `PipeProtocol.WriteReturns` | pipe.c:78-98 | When pipewrite returns n, what the caller put into the stream since the call began is exactly its n bytes in order, although other writers interleave |
| `PipeProtocol.CallEnds` | pipe.c:78-121 | pipewrite fails only when the pipe is full and nobody can read or the caller was killed, piperead only when the caller was killed and the pipe is empty but open; calls go to sleep only for a full or an empty pipe, and a kill leaves nobody asleep |
| `PipeCalls.ReadCompletes` | pipe.c:100-121 | An undisturbed piperead of a pipe that is not empty, or not open for writing, runs to its end and takes the next min(n, available) bytes of the stream |
| `PipeCalls.WriteCompletes` | pipe.c:78-98 | An undisturbed pipewrite of as many bytes as there is room for runs to its end and appends exactly them |
| `PipeProtocol.StepKeeps` | pipe.c:59-121 | Every step keeps ring, lock, open ends and reads consistent |
| `PipeProtocol.StepAwaited` | pipe.c:84-97 | A step keeps every sleeper's reason to sleep if and only if it is not a killed writer abandoning a full pipe while a reader sleeps |
| `PipeProtocol.NoLostWakeup` | proc.c:354-398 | In runs without such a step a sleeping process has still reason to sleep or the lock holder has yet to wake it |
| `PipeProtocol.CalmIsPatient` | pipe.c:86-89 | Runs in which no writer is killed are of that kind |
| `PipeProtocol.LostWakeupHappens` | pipe.c:86-89 | A run from a fresh pipe in which a killed writer leaves a reader asleep in front of a full pipe |
| `Paths.SkipElem` | fs.c:650-673 | Iterating it splits a path on runs of slashes, each name cut to DIRSIZ |
| `Paths.Namex` | fs.c:679-723 | Finds exactly the end of the chain of entries that the names spell, starting at the container's root for a path with a leading slash and at the working directory for others; for nameiparent the end of the chain of all names but the last, and that name; none if and only if there is no such chain |
| `Paths.WalksChain` | fs.c:692-717 | The walk ends at an inode if and only if there is a sequence of directories, each with an entry for the next name that leads to the next, where an entry for the root directory leads a confined process nowhere |
| `Paths.NamesExactly` | fs.c:640-673 | The names of a path are its fields between runs of slashes, however many, each cut to DIRSIZ |
| `Paths.StepLaw` | sysfile.c:374-397 | chdir goes where such a chain leads if that is a directory, and else nowhere; fork and cfork start the child where its parent is or at its container's root; nobody else moves |
| `Paths.Confined` | fs.c:711-716 | Through any chdir and fork, and whatever the file system, no path takes a process of a confined container to the root directory |
| `Paths.StaysBelow` | fs.c:695-717 | When directories form a tree and container roots are children of the root, every directory a confined process comes to lies below its container's root |
| `Paths.RunInside` | sysfile.c:374-397 | chdir and fork keep working directories of confined processes off the root directory |
| `ShellGrammar.RoundTrip` | sh.c:344-446 | A printed command, laid out with any white space that keeps its tokens apart, parses to the same tree |
| `ShellGrammar.LexLayout` | sh.c:265-308 | Any such layout of a token sequence has exactly these tokens |
| `ShellGrammar.LineBack` | sh.c:344-359 | The tokens of a printed tree, followed by a closing parenthesis or nothing, parse to the tree |
| `ShellGrammar.Reparses` | sh.c:344-446 | Every tree the parser returns is well formed and is what its own printing parses to |
| `ShellSyntax.ParsesExactly` | sh.c:344-446 | A token sequence parses to a tree, with nothing left over, if and only if it is a way of writing the tree in the grammar of lines, pipelines, blocks, words and the redirections <, > and >>, each with its mode and descriptor |
| `ShellSyntax.WrittenParses` | sh.c:265-308 | The same down to characters: every command so written, with white space that keeps its tokens apart, parses to its tree |
| `ShellSyntax.Characters` | sh.c:262-263 | Which characters are white space and which are symbols |
| `Shell.Parser.GetToken` | sh.c:265-308 | Returns the next token and moves behind it; a word is a longest run of word characters |
| `Shell.Parser.Peek` | sh.c:310-320 | Tells whether the next token begins with one of the symbols, consuming no token |
| `Shell.Parser.ParseRedirs` | sh.c:374-397 | Collects the redirections ahead as the grammar gives them, whose modes and descriptors ShellSyntax.ParsesExactly fixes; panics exactly when a file name is missing |
| `Shell.Parser.ParseArgs` | sh.c:429-445 | Collects words and redirections of a simple command, at most MAXARGS-1 words |
| `Shell.Parser.ParseExec` | sh.c:415-446 | The parse of a simple command or a block, as the grammar gives it |
| `Shell.Parser.ParseBlock` | sh.c:399-413 | The parse of a parenthesized line with redirections |
| `Shell.Parser.ParsePipe` | sh.c:361-372 | The parse of a pipeline |
| `Shell.Parser.ParseLine` | sh.c:344-359 | The parse of a line; the mutual recursion ends on every text |
| `Shell.NulTerminate` | sh.c:449-493 | Writes NULs exactly behind the words of the tree |
| `Shell.ParseCmd` | sh.c:327-342 | The tree of the command line or a panic; every word of it has become a C string of its own and no character of any word is lost |
| `Shell.PrintedParses` | sh.c:327-342 | What parsecmd finds in a buffer with a printed command parses to the command and leaves no rest, so ParseCmd's contract excludes the panic |
| `Grep.Match` | grep.c:72-82 | True if and only if the pattern matches at the beginning (with a leading ^) or at some position |
| `Grep.MatchHere` | grep.c:85-96 | True if and only if the text can be cut into pieces that fit the items of the pattern |
| `Grep.MatchStar` | grep.c:99-106 | True if and only if some run of the character leaves a text that matches the rest |

## Left out

- Boot code, assembly, interrupt controllers, console, segment descriptors, context switch code: hardware; a context switch is a step of the process machine.
- Spinlocks, memory barriers, interrupt nesting: a critical section is one step, except that exit's update of uproc is two.  Updates outside of locks (uproc in fork, the tests of log_write) are steps of their own.
- Port input and output of ide.c and device errors: the device is given a request and later raises one interrupt.
- Panics are preconditions, failing results, or steps that are not enabled.
- dirsize, inode allocation and inode references: namex does not drop every reference it takes, so none are counted.  Paths.dfy takes directories as the maps that Directory.dfy proves them to be.
- Devices behind readi and writei: files of type T_DEV are not modelled.
- sleeplock.c: its blocking shows as "not yet locked" in BufferCache.dfy; the lock itself would only add easy members.
- User programs other than the shell's parser, grep's matcher and the allocator; runcmd; printf.
- The memory of a process beyond its argument stack in exec (program headers, file reading).
- Paths.Namex: path names looked up before the first process exists are left out.
- Directory.DirLookup: directories of whole entries are assumed; for others the source panics.
- Directory.DirLink: directories of whole entries and inode numbers of 16 bits are assumed; others the source truncates or panics on.
- BufferCache.Cache.Bread: does not model waiting for a locked buffer; bget and the lock are separate methods, so other calls may come between them.
- BufferCache.Cache.Brelse: a holder that changed its buffer writes or pins it before it lets go, as every caller in fs.c and log.c does.
- BufferCache.Cache.Bget: device 0 is excluded, because all buffers start out as block 0 of device 0.
- FileSys.FileSystem.Writei: when the disk has no free block balloc panics and no contents are promised; past the quota nothing is said of other files, since data may go to any block that block 0 names.
- FileSys.FileSystem.Readi: files have blocks for all bytes below their size, which every modelled operation within the quota keeps.
- FileSys.FileSystem.Balloc: that the container over quota is killed is a step of Containers.dfy, not of this method.
- Vm.Memory.Kalloc: that the container over its limit is killed is a step of Containers.dfy, not of this method.
- Vm.Memory.Allocuvm: page tables made before a failure stay allocated until freevm, as in vm.c.
- FileSys.FileSystem.Bfree: disk usage is bounded by the quota but not exact, because the source skips some decrements.
- Vm.Memory.Kfree: page usage of containers is bounded but not exact, for the same reason.
- Vm.Memory.Copyuvm: on failure everything but one page that the source forgets to return is restored; that page is the result `stray`.
- Vm.Memory.Deallocuvm: clears an entry before freeing the frame, where the source does the two in the other order.
- IdeQueue.Driver.Interrupt: an interrupt comes only when the device has finished or the queue is empty; spurious ones in between are not modelled.
- Umalloc.Allocator.Malloc: requests of more than 2^31 - 16 and at most 2^32 - 8 bytes that no free block fits are excluded: sbrk is then called with zero or a negative number, which shrinks the heap, and what follows is not modelled.
- ExecStack.AddressSpace.CopyOut: ranges that begin inside the image and leave it are left out; exec's begin and end there, or begin above KERNBASE.
- ExecStack.KernelPart: that no page table is ever made for the hole is taken from setupkvm and the user-side bounds of allocuvm; what the use of the null pointer leads to is not modelled.
- Journal.CrashSafety: runs in which two log_write calls share the last slot are covered by LogRace.CrashSafeExactly, not here.
- LogSpace.SlotInBounds: that real system calls keep to MAXOPBLOCKS log_write calls is an assumption of begin_op and of this model.
- ContainerCursor.CursorsExactly: ccreate's store is taken to find the container as alloccont left it, which only a call that sets the state of a container without slots can change.
- Containers.StepKeeps: the first step of fork finds the container in any state, because allocproc tests the state before it takes the lock; a fork refused by that test is no step.
- Scheduler.BoundedWaiting: the killing of processes of a stopping container is not modelled.
- Paths.StaysBelow: parents of directories do not change during the run.
- Shell.Parser.ParseExec: builds the tree as a value, so the argument list that the source fills in behind redirections already made is assembled at the end.
