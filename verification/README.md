# A verified model of the xv6 kernel's storage, memory and process core

This project models the parts of an xv6 kernel (extended with a virtual file system, ext2, FAT32 and a
two-architecture hardware layer) whose correctness is hardest to see from the code, and proves properties of
the model in Dafny. `dafny verify dfyconfig.toml` checks everything.

| area | source | modules |
|---|---|---|
| write-ahead log | `kernel/log.c` | Log, LogSystem, LogDriver |
| page tables and pages | `kernel/vm.c`, `kernel/kalloc.c`, the two `arch.h` | PageTree, PagePrune, PageSpace, PteBits, Vm |
| user heap | `user/umalloc.c` | FreeList, Malloc |
| buffer cache | `kernel/bio.c` | BufList, Bio |
| xv6 block layer | `kernel/fs.c`, `kernel/xv6fs.c` | FsBlocks, FsFile, FsSpace, FsLogged, Fs |
| block layer on the log | both | FsImage, FsCrash, FsEncode |
| FAT32 | `kernel/fat32.c` | FatDisk, FatChains, FatFile, Fat, FatSync, Lfn, LfnLookup, LfnList, LfnDir |
| virtio | `hal/riscv/hal_virtio.c` | Virtio, VirtioDisk |
| processes | `kernel/proc.c`, `kernel/sleeplock.c` | SleepWakeup, ProcTable |
| ext2 directories | `kernel/ext2.c` | Ext2Recs, Ext2Dir, Ext2Ops |
| path walking | `kernel/vfs.c` | VfsPath, VfsWalk, Vfs |

Bytes and Sets hold what several areas share.

**Form.** Code that changes fields, buffers and lists in place is a class whose methods keep the source's loops
and branches. Each method is specified against values: a flat map for a page table, a byte sequence for a file,
a list of records for a directory block, a state machine for a parser. Exclusive ownership (of blocks, clusters,
descriptors, heap units, pages) is stated with an inverse map from the thing owned to its owner, which makes
"referenced at most once" a lookup and "how many are left" a count. What runs concurrently is a step system:
every step is one lock operation, one block write, one ring access or the code between two of them, an invariant
is kept by every step, and theorems range over all runs. LogDriver and VirtioDisk tie imperative methods to the
steps of LogSystem and Virtio. Memory the source leaves uninitialised is a parameter of the call that reads it.

**Main results.** Crash atomicity of the log at every disk write, also through crashes during recovery, and over
whole runs with group commit: the recoverable disk is the view at the last commit (`Log.CommitAtomic`,
`LogSystem.RunAtomic`), the log refines a disk with atomic commits (`LogSystem.RunRefines`), and file-system
operations run on it keep the invariant of the xv6 block layer through crashes anywhere (`FsCrash.SerialSurvives`).
Page tables refine flat maps, pages are conserved on every failure path, and growing and copying fail exactly for
lack of pages (`Vm.Memory`). The heap stays one ordered ring of disjoint, coalesced blocks (`Malloc.Heap`). The
buffer cache returns the latest contents of every block (`Bio.Bcache`). Files on both file systems are byte
sequences under read, write and truncate, with exclusive block or cluster ownership (`Fs.FileSystem`,
`Fat.FatVolume`, `FatSync.Fwrite`), and every log_write() of a chunk is made within its reservation, so none panics
on an image of any size (`FsLogged.ChunkFits`, `FsCrash.NeverPanics`, `FsEncode.ChunkRuns`). Long names survive the
round trip through printer and parser (`LfnDir.RoundTrip`). Disk requests complete exactly once with their own
buffer and block in every interleaving, and what a write stores is what its buffer held when it was issued
(`Virtio.CompletesOnce`, `Virtio.ReturnsOwnBlock`, `Virtio.WritesIssued`). Sleep and wakeup lose nothing on any
channel (`SleepWakeup.NoLostWakeup`), nor do exit and wait (`ProcTable.NoLostExit`), which free each process once,
off its stack (`ProcTable.ReapsOwnAndOff`). ext2 directory blocks stay exactly tiled (`Ext2Ops.Directory`). Path
walks conserve references and locks across mounts (`Vfs.Vfs.Namei`).

**Where the code falls short of its own promise.** The model follows the code; each case has an exact condition
on what the caller passes in or finds.

- `log_write()` tests for a full log before it looks for a block to absorb, so it can panic without needing space
  (`LogSystem.WritePanicsIff`, `LogSystem.FullLogPanics`; `LogSystem.FullLogExample` reaches it).
- `malloc()` asks `sbrk()` exactly when no free block fits, and then for something else than was needed exactly if
  the request is above 2^31 - 32 bytes: to shrink the process, or for 0 or 16 bytes at the very top
  (`Malloc.Heap.Malloc`, `Malloc.SbrkGrantsRequest`, `Malloc.SbrkWraps`).
- `writei()` documents its result as the bytes written, but a source fault strictly inside a block that the free
  blocks suffice for leaves the bytes before the fault in the file (`Fs.SpillIff`, `Fs.PartialWrite`).
- A FAT sector and its copy can lie in one buffer, which `write_fat()` would lock twice: exactly on volumes
  with more than one FAT, of one sector each, the first an even sector (`FatDisk.CopiesShareBlock`).
- `fread()` tests its clamp modulo 2^32, so near 4 GiB it can return bytes past the file size (`Fat.ClampedIff`,
  `Fat.WrapReadsPastSize`).
- `dlookup()` compares against a buffer it has not initialised and does not ask whether a run was complete. Its
  result depends on that memory exactly when it reaches a torn entry (`LfnLookup.DependsIff`), and a name just
  written is found by every later call exactly when there is none before it (`LfnLookup.LookupFindsRun`;
  `LfnLookup.TornExample`).
- `freaddir()` does not stop at the last-entry flag, so an unrelated entry can lengthen a name whose length is a
  multiple of 13 (`LfnList.ReaddirVerbatimIff`, `LfnList.OrphanExample`).
- `hal_disk_rw()` computes the sector in 32 bits, which is the block's own exactly below block 2^31
  (`Virtio.SectorExact`).
- `vfs_namei()` ignores the result of looking up ".." at a mountpoint, so a failure can continue at a stale vnode:
  exactly when some element slips (`VfsWalk.DanglingIff`; `Vfs.DanglingExample` is a whole call).

## Model

| member | source | states |
|---|---|---|
| Log.InstallAgain | xv6-riscv-xv6-riscv-rev5/kernel/log.c:67-84 | Installing a log over any partial install of the same log reaches the same disk. |
| Log.RecoverResumes | xv6-riscv-xv6-riscv-rev5/kernel/log.c:118-124 | A crash after any number of recovery writes does not change the disk that recovery produces. |
| Log.RecoverIdempotent | xv6-riscv-xv6-riscv-rev5/kernel/log.c:66-124 | Any sequence of interrupted recoveries followed by a complete one gives the disk of a single complete recovery. |
| Log.BeforeHeader | xv6-riscv-xv6-riscv-rev5/kernel/log.c:180-204 | Before the header write only log blocks differ from the old disk and the header is empty. |
| Log.HeaderWritten | xv6-riscv-xv6-riscv-rev5/kernel/log.c:104-115 | The header write makes header and log blocks describe the whole transaction. |
| Log.AfterHeader | xv6-riscv-xv6-riscv-rev5/kernel/log.c:195-204 | After the header write the disk is a partial install of the logged transaction. |
| Log.RecoverUncommitted | xv6-riscv-xv6-riscv-rev5/kernel/log.c:118-124 | Recovery from a crash before the header write changes no home block. |
| Log.RecoverMidInstall | xv6-riscv-xv6-riscv-rev5/kernel/log.c:118-124 | Recovery from a crash after the header write yields the transaction applied. |
| Log.CommitAtomic | xv6-riscv-xv6-riscv-rev5/kernel/log.c:66-124 | A crash between any two block writes of commit(), then any number of crashes in recovery: every home block is old if the header write was not reached, and the transaction is wholly applied if it was. |
| LogSystem.BeginKeeps | xv6-riscv-xv6-riscv-rev5/kernel/log.c:128-143 | An admitted begin_op() keeps the reservation: logged blocks plus all unused allowances fit in the log. |
| LogSystem.WriteKeeps | xv6-riscv-xv6-riscv-rev5/kernel/log.c:216-236 | log_write(), absorbing or appending, keeps distinct logged blocks and the reservation. |
| LogSystem.EndKeeps | xv6-riscv-xv6-riscv-rev5/kernel/log.c:148-176 | end_op() keeps the invariant; commit starts only when no operation is outstanding. |
| LogSystem.CrashKeeps | xv6-riscv-xv6-riscv-rev5/kernel/log.c:54-63 | After a crash anywhere the system is in a state from which recovery is defined. |
| LogSystem.StepKeeps | xv6-riscv-xv6-riscv-rev5/kernel/log.c:128-236 | Every begin, write, end, disk write and crash keeps the invariant of the log. |
| LogSystem.StepAtomic | xv6-riscv-xv6-riscv-rev5/kernel/log.c:128-236 | What a crash plus recovery would produce changes only at the commit's header write, and then to exactly what the operations had built. |
| LogSystem.StepView | xv6-riscv-xv6-riscv-rev5/kernel/log.c:148-236 | What operations read changes only by their own writes and by crashes; commit is invisible to readers. |
| LogSystem.RunAtomic | xv6-riscv-xv6-riscv-rev5/kernel/log.c:128-236 | In every run with crashes anywhere, the recoverable disk is the view at the last header write of a commit (at the start if there was none), a moment with no operation in progress and no recovery under way: every operation is durable entirely or not at all, and a committed one stays durable. |
| LogSystem.RefinesStep | xv6-riscv-xv6-riscv-rev5/kernel/log.c:128-236 | One step of the log is one step of an abstract disk with atomic commits. |
| LogSystem.RunRefines | xv6-riscv-xv6-riscv-rev5/kernel/log.c:128-236 | In every run the log refines a disk pair (durable, current): writes change the current disk only, a commit copies it to the durable one at once, a crash drops it. |
| FsImage.ConsistentAt | xv6-riscv-xv6-riscv-rev5/kernel/log.c:118-236 | For any property of the home blocks that holds at the start and is kept by the operations between two quiet moments: it holds of what recovery would produce at every point of every run. |
| FsImage.CrashConsistent | xv6-riscv-xv6-riscv-rev5/kernel/log.c:118-236 | That property holds after every crash and recovery, and of every view with no operation in progress, also for crashes during recovery. |
| FsImage.SameImage | xv6-riscv-xv6-riscv-rev5/kernel/fs.c:29-48 | The file system's blocks, bitmap and inodes are read off the home blocks alone. |
| FsImage.FsSurvives | xv6-riscv-xv6-riscv-rev5/kernel/fs.c:42-48 | The invariant of the xv6 block layer (bitmap exact, blocks owned once, sizes mapped), read off the disk bytes, survives every crash and recovery in every run, with any interleaving of operations, if each batch without a crash keeps it; FsCrash.SerialSurvives discharges the condition for operations one at a time. |
| FsCrash.NeverPanics | xv6-riscv-xv6-riscv-rev5/kernel/log.c:216-236 | In every run, whatever other operations do, an operation that had allowance left at each of its calls makes its next log_write() without a panic. |
| FsCrash.ImageAfter | xv6-riscv-xv6-riscv-rev5/kernel/fs.c:42-48 | An operation that logs all it changes leaves a consistent file system on the disk that operations see. |
| FsCrash.StepsKeep | xv6-riscv-xv6-riscv-rev5/kernel/log.c:128-236 | begin_op(), the calls and end_op() of such an operation lead from one consistent view to the next. |
| FsCrash.SerialSurvives | xv6-riscv-xv6-riscv-rev5/kernel/log.c:118-236 | Runs of file-system operations one at a time, with crashes anywhere, also inside an operation, inside commit and inside recovery: what recovery produces satisfies the invariant of the xv6 block layer. Of the operations only what the methods of Fs.FileSystem ensure is assumed, and that their buffers hold the state they left, which FsEncode.ChunkOnDisk builds. |
| FsCrash.OpRuns | xv6-riscv-xv6-riscv-rev5/kernel/log.c:128-236 | From a quiet moment at which begin_op() does not wait, an operation whose calls have allowance left runs to its end without a wait or a panic. |
| FsEncode.InodeBack | xv6-riscv-xv6-riscv-rev5/kernel/fs.c:227-242 | The inode block that iupdate() writes reads back as the inodes. |
| FsEncode.BuiltBuffers | xv6-riscv-xv6-riscv-rev5/kernel/fs.c:67-106 | So do the buffers of the bitmap and of the indirect and data blocks. |
| FsEncode.WroteAfter | xv6-riscv-xv6-riscv-rev5/kernel/fs.c:529-562 | What an operation without a spill wrote to a file is what is read off the disk afterwards, and no other byte of a file differs. |
| FsEncode.ChunkOnDisk | xv6-riscv-xv6-riscv-rev5/kernel/xv6fs.c:143-152 | Every chunk on a consistent disk is such an operation, with allowance left at every call; -1 exactly for a range out of bounds, and unless the source faults the file as read off the disk has exactly the bytes counted overwritten. |
| FsEncode.ChunkRuns | xv6-riscv-xv6-riscv-rev5/kernel/xv6fs.c:143-152 | On a consistent disk a chunk runs from begin_op() to end_op() without a panic and leaves a consistent disk on which, unless the source faults, exactly the bytes counted are written in the file and no byte of another differs. |
| LogSystem.ReservationSuffices | xv6-riscv-xv6-riscv-rev5/kernel/log.c:216-236 | An operation with allowance left never meets a panic in log_write(), and never runs during a commit. |
| LogSystem.WritePanicsIff | xv6-riscv-xv6-riscv-rev5/kernel/log.c:216-236 | log_write() panics exactly when the log is full or no operation is open, also for a block that would be absorbed; the log is full only when every open operation has used its allowance. |
| LogSystem.FullLogPanics | xv6-riscv-xv6-riscv-rev5/kernel/log.c:221-232 | In a full log rewriting an already logged block panics: the full test precedes absorption. |
| LogSystem.FullLogExample | xv6-riscv-xv6-riscv-rev5/kernel/log.c:221-232 | A run of begin_op() and log_write() calls reaches such a full log on every disk large enough. |
| LogDriver.TraceAtomic | xv6-riscv-xv6-riscv-rev5/kernel/log.c:180-204 | Every disk that exists between two writes of the commit loops recovers to all old or all new home blocks. |
| LogDriver.LogDevice.WriteHead | xv6-riscv-xv6-riscv-rev5/kernel/log.c:104-115 | Writes the header block for the current list and nothing else. |
| LogDriver.LogDevice.WriteLog | xv6-riscv-xv6-riscv-rev5/kernel/log.c:180-192 | The loop writes each pinned buffer to its log slot, in order. |
| LogDriver.LogDevice.InstallTrans | xv6-riscv-xv6-riscv-rev5/kernel/log.c:67-84 | The loop copies every log slot home, in order, and unpins only outside recovery. |
| LogDriver.LogDevice.LogTransaction | xv6-riscv-xv6-riscv-rev5/kernel/log.c:195-200 | Everything up to and including the header write. |
| LogDriver.LogDevice.InstallAndErase | xv6-riscv-xv6-riscv-rev5/kernel/log.c:200-203 | The install and the header write that ends the transaction. |
| LogDriver.LogDevice.ReadHead | xv6-riscv-xv6-riscv-rev5/kernel/log.c:88-98 | The logged block numbers on the disk. |
| LogDriver.LogDevice.Commit | xv6-riscv-xv6-riscv-rev5/kernel/log.c:195-204 | Produces exactly the write sequence whose prefixes CommitAtomic covers. |
| LogDriver.LogDevice.RecoverFromLog | xv6-riscv-xv6-riscv-rev5/kernel/log.c:118-124 | Leaves the device idle with the recovered disk. |
| LogDriver.LogDevice.BeginOp | xv6-riscv-xv6-riscv-rev5/kernel/log.c:128-143 | Waits exactly when committing or when the reservation would not fit. |
| LogDriver.LogDevice.Find | xv6-riscv-xv6-riscv-rev5/kernel/log.c:225-229 | The absorption scan returns the first slot of the block, or the length. |
| LogDriver.LogDevice.LogWrite | xv6-riscv-xv6-riscv-rev5/kernel/log.c:216-236 | The method is the Write step of the system, or its panic. |
| LogDriver.LogDevice.LastOut | xv6-riscv-xv6-riscv-rev5/kernel/log.c:168-175 | The last operation out commits everything logged and leaves the device idle. |
| LogDriver.LogDevice.EndOp | xv6-riscv-xv6-riscv-rev5/kernel/log.c:148-176 | Only the last operation out writes to the disk; it commits everything logged. |
| PageTree.IndicesDetermineKey | xv6-riscv-xv6-riscv-rev5/hal/riscv/arch.h:378-384 | Two pages with the same index at every level have the same key. |
| PageTree.ValidPagesDistinct | xv6-riscv-xv6-riscv-rev5/hal/loongarch/memlayout.h:81-91 | Distinct valid pages have distinct index vectors on 3 and on 4 levels, across the user and the high kernel-stack window. |
| PageTree.PathExists | xv6-riscv-xv6-riscv-rev5/kernel/vm.c:79-99 | If the bottom table for a page exists, so does every table above it. |
| PageTree.AddRoot | xv6-riscv-xv6-riscv-rev5/kernel/vm.c:162-171 | A new root maps nothing and leaves every other map as it was. |
| PageTree.AddTable | xv6-riscv-xv6-riscv-rev5/kernel/vm.c:79-99 | Hanging an empty table below an entry leaves every flat map as it was. |
| PageTree.SetEntry | xv6-riscv-xv6-riscv-rev5/kernel/vm.c:130-158 | Writing a bottom entry changes the flat map of its tree at its key only. |
| PagePrune.PrunedNext | xv6-riscv-xv6-riscv-rev5/kernel/vm.c:247-263 | Freeing the subtree of one entry and clearing it completes one round of freewalk(). |
| PagePrune.EmptyTreeBare | xv6-riscv-xv6-riscv-rev5/kernel/vm.c:247-263 | A page table that maps nothing has no leaf, so freewalk() does not panic. |
| PagePrune.OtherTreesOk | xv6-riscv-xv6-riscv-rev5/kernel/vm.c:268-273 | With one whole tree removed every other tree is untouched. |
| PteBits.TableEntryReads | xv6-riscv-xv6-riscv-rev5/hal/riscv/arch.h:363-375 | On both encodings a table entry is valid, no leaf, and leads back to its page. |
| PteBits.LeafEntryReads | xv6-riscv-xv6-riscv-rev5/hal/loongarch/arch.h:410-449 | On both encodings a leaf is valid and leads back to its page whatever its permissions. |
| PteBits.LeafRecognised | xv6-riscv-xv6-riscv-rev5/hal/loongarch/arch.h:445-449 | A mapped entry is recognised as a leaf always on LoongArch, on RISC-V exactly if some access is allowed. |
| PteBits.FlagsRoundTrip | xv6-riscv-xv6-riscv-rev5/hal/loongarch/arch.h:415-442 | The permissions read back from a leaf are those it was made with. |
| PteBits.CopyKeepsPermissions | xv6-riscv-xv6-riscv-rev5/kernel/vm.c:282-309 | Mapping a copy with the flags read from the original gives equal entries but for the page. |
| PteBits.AccessesRoundTrip | xv6-riscv-xv6-riscv-rev5/hal/loongarch/arch.h:415-442 | Both encodings represent exactly the accesses asked for. |
| Vm.AddsUndone | xv6-riscv-xv6-riscv-rev5/kernel/vm.c:200-242 | Unmapping and freeing the pages added so far restores every flat map. |
| Vm.CopiesUndone | xv6-riscv-xv6-riscv-rev5/kernel/vm.c:282-309 | Undoing a partial copy restores every flat map. |
| PageSpace.GainedSize | xv6-riscv-xv6-riscv-rev5/kernel/vm.c:79-99 | A tree that grows only on the paths of some pages gains at most the tables missing there, and all of them exactly if none is missing any more. |
| Vm.Counted | xv6-riscv-xv6-riscv-rev5/kernel/kalloc.c:46-81 | Free, table and data pages add up to the pool. |
| Vm.TablesGained | xv6-riscv-xv6-riscv-rev5/kernel/vm.c:79-99 | The tables gained for a set of pages are as many as were missing exactly if every bottom table exists. |
| Vm.Memory.constructor | xv6-riscv-xv6-riscv-rev5/kernel/kalloc.c:26-39 | Every page of the range is free, none is in use. |
| Vm.Memory.Kalloc | xv6-riscv-xv6-riscv-rev5/kernel/kalloc.c:68-81 | Pops the first free page and fills it with 5s; null exactly when none is free; free, table and data pages stay a partition. |
| Vm.Memory.Kfree | xv6-riscv-xv6-riscv-rev5/kernel/kalloc.c:46-62 | Pushes the page; the partition is kept. |
| Vm.Memory.Uvmcreate | xv6-riscv-xv6-riscv-rev5/kernel/vm.c:162-171 | A root that maps nothing, or null exactly when out of memory. |
| Vm.Memory.Walk | xv6-riscv-xv6-riscv-rev5/kernel/vm.c:79-99 | Finds or creates the bottom table of a page without changing any translation, creating no table off the page's own path; panics exactly for an invalid address, fails only when out of memory or, without alloc, when the table is missing. |
| Vm.Memory.NewTable | xv6-riscv-xv6-riscv-rev5/kernel/vm.c:91-96 | A zeroed table page hung under an entry changes no translation. |
| Vm.Memory.LoadPte | xv6-riscv-xv6-riscv-rev5/kernel/vm.c:186-190 | The entry found for a page is the flat map at its key. |
| Vm.Memory.Walkaddr | xv6-riscv-xv6-riscv-rev5/kernel/vm.c:105-122 | The physical page behind a user page, or 0 for an invalid, kernel-only or out-of-range address. |
| Vm.Memory.MapPage | xv6-riscv-xv6-riscv-rev5/kernel/vm.c:146-151 | One round maps one page, or says why not. |
| Vm.Memory.MapOne | xv6-riscv-xv6-riscv-rev5/kernel/vm.c:130-158 | mappages() of one unmapped user page succeeds, or no page is free and its bottom table is missing. |
| Vm.Memory.UnmapPage | xv6-riscv-xv6-riscv-rev5/kernel/vm.c:184-195 | One round unmaps one page and, if asked, frees it. |
| Vm.Memory.Mappages | xv6-riscv-xv6-riscv-rev5/kernel/vm.c:130-158 | For any range: adds exactly its pages, or a prefix of them with the reason: a misaligned or empty range, an invalid address or a page already mapped panics, out of memory fails. |
| Vm.Memory.Uvmunmap | xv6-riscv-xv6-riscv-rev5/kernel/vm.c:177-196 | Removes exactly its range and, if asked, frees exactly the pages it mapped; stops in a panic exactly for a misaligned start or at the first invalid address. |
| Vm.Memory.Uvmdealloc | xv6-riscv-xv6-riscv-rev5/kernel/vm.c:231-242 | Unmaps and frees exactly the pages between the two sizes. |
| Vm.Memory.MapNew | xv6-riscv-xv6-riscv-rev5/kernel/vm.c:209-221 | One round of uvmalloc(): a fresh zeroed page mapped, or given back, the latter exactly when fewer pages are free than the page and its missing tables need. |
| Vm.Memory.Ungrow | xv6-riscv-xv6-riscv-rev5/kernel/vm.c:212-221 | uvmdealloc() on the failure path takes back every page mapped so far. |
| Vm.Memory.GrowOne | xv6-riscv-xv6-riscv-rev5/kernel/vm.c:210-222 | One round adds one page, or the whole growth needed more pages than were free and everything is undone. |
| Vm.Memory.Uvmalloc | xv6-riscv-xv6-riscv-rev5/kernel/vm.c:201-224 | Adds zeroed pages for the new range, or returns every page and leaves the map as it was; it fails exactly when fewer pages are free than the new pages and the tables missing on their paths. |
| Vm.Memory.Uvmcopy | xv6-riscv-xv6-riscv-rev5/kernel/vm.c:282-309 | Copies every mapped page with equal bytes and permissions, or gives back every page and mapping; it fails exactly when fewer pages are free than the mapped pages and the tables the new tree misses for them. |
| Vm.Memory.Freewalk | xv6-riscv-xv6-riscv-rev5/kernel/vm.c:247-263 | Frees each table of the subtree exactly once and nothing else. |
| Vm.Memory.Uvmfree | xv6-riscv-xv6-riscv-rev5/kernel/vm.c:268-273 | Frees every data and table page of one tree exactly once; other trees keep their maps. |
| FreeList.BlocksDisjoint | xv6-riscv-xv6-riscv-rev5/user/umalloc.c:24-90 | Distinct blocks, free or allocated, share no unit. |
| FreeList.SearchStops | xv6-riscv-xv6-riscv-rev5/user/umalloc.c:29-32 | The exit test of the search in free() holds at the freed block's place in the address-ordered ring and nowhere else. |
| FreeList.FreeNeither | xv6-riscv-xv6-riscv-rev5/user/umalloc.c:33-43 | Freeing a block that touches no neighbour keeps the list circular, ordered, spaced and disjoint. |
| FreeList.FreeUpper | xv6-riscv-xv6-riscv-rev5/user/umalloc.c:33-43 | The same when it absorbs the block after it. |
| FreeList.FreeLower | xv6-riscv-xv6-riscv-rev5/user/umalloc.c:33-43 | The same when the block before absorbs it. |
| FreeList.FreeBoth | xv6-riscv-xv6-riscv-rev5/user/umalloc.c:33-43 | The same when all three become one. |
| Malloc.SbrkGrantsRequest | xv6-riscv-xv6-riscv-rev5/user/umalloc.c:46-61 | The argument that reaches sbrk() is what morecore() asks for exactly for requests of at most 2^31 - 32 bytes: it passes through a signed 32-bit argument. |
| Malloc.SbrkWraps | xv6-riscv-xv6-riscv-rev5/user/umalloc.c:46-61 | Every larger request reaches sbrk() less 2^32: it asks to shrink the process exactly below 0xFFFFFFE1 bytes, and for 0 or 16 bytes from there on. |
| Malloc.SbrkShrinks | xv6-riscv-xv6-riscv-rev5/user/umalloc.c:46-61 | One byte more and sbrk() is asked to shrink the process by 2 GiB. |
| Malloc.AllocExact | xv6-riscv-xv6-riscv-rev5/user/umalloc.c:75-85 | Taking a whole free block keeps the heap invariant. |
| Malloc.AllocSplit | xv6-riscv-xv6-riscv-rev5/user/umalloc.c:75-85 | Cutting the tail off a free block keeps the heap invariant. |
| Malloc.AddCore | xv6-riscv-xv6-riscv-rev5/user/umalloc.c:46-61 | Memory fresh from sbrk() joins the heap as one block. |
| Malloc.NoneLeft | xv6-riscv-xv6-riscv-rev5/user/umalloc.c:74-89 | When the search returns to freep every free block is too small. |
| Malloc.Heap.FindPlace | xv6-riscv-xv6-riscv-rev5/user/umalloc.c:29-32 | The search loop ends at the place of the freed block. |
| Malloc.Heap.JoinUpper | xv6-riscv-xv6-riscv-rev5/user/umalloc.c:33-42 | Joining the block after, and perhaps the one before. |
| Malloc.Heap.JoinNone | xv6-riscv-xv6-riscv-rev5/user/umalloc.c:36-42 | Linking in without joining the block after, perhaps joining the one before. |
| Malloc.Heap.Free | xv6-riscv-xv6-riscv-rev5/user/umalloc.c:24-44 | Keeps one circular address-ordered list, no two touching free blocks, units conserved; exactly that block stops being allocated. |
| Malloc.Heap.Morecore | xv6-riscv-xv6-riscv-rev5/user/umalloc.c:46-61 | On success the new memory is free and large enough; allocated blocks are untouched. |
| Malloc.Heap.Search | xv6-riscv-xv6-riscv-rev5/user/umalloc.c:74-89 | One trip around the ring finds a large enough block or shows there is none. |
| Malloc.Heap.Take | xv6-riscv-xv6-riscv-rev5/user/umalloc.c:75-84 | Takes exactly the requested units out of a block that is large enough. |
| Malloc.Heap.Malloc | xv6-riscv-xv6-riscv-rev5/user/umalloc.c:63-90 | For every 32-bit request: asks the kernel exactly when no free block is large enough; then a request above 2^31 - 32 bytes goes wrong exactly if sbrk() does not fail. Otherwise null exactly when refused, else a new block of the requested units disjoint from all others; units are conserved up to the growth. |
| BufList.Inverse | xv6-riscv-xv6-riscv-rev5/kernel/bio.c:36-53 | next and prev are mutually inverse over the list. |
| BufList.Unlink | xv6-riscv-xv6-riscv-rev5/kernel/bio.c:120-140 | Unlinking a buffer leaves a list of all the others. |
| BufList.PushFront | xv6-riscv-xv6-riscv-rev5/kernel/bio.c:120-140 | Relinking at the front leaves a list with the buffer most recent. |
| Bio.Recycle | xv6-riscv-xv6-riscv-rev5/kernel/bio.c:75-86 | Recycling an unreferenced buffer makes its old block read as on the disk and changes no other block; so nothing changes exactly when the buffer equals the disk. |
| Bio.ModifyView | xv6-riscv-xv6-riscv-rev5/kernel/bio.c:110-115 | A holder changing its buffer changes the contents of that block only. |
| Bio.Bcache.constructor | xv6-riscv-xv6-riscv-rev5/kernel/bio.c:36-53 | binit() links all buffers in one list. |
| Bio.Bcache.FindCached | xv6-riscv-xv6-riscv-rev5/kernel/bio.c:64-73 | The first loop finds the block's buffer, if it is cached. |
| Bio.Bcache.FindUnused | xv6-riscv-xv6-riscv-rev5/kernel/bio.c:75-86 | The least recently used buffer without references, if any. |
| Bio.Bcache.Bget | xv6-riscv-xv6-riscv-rev5/kernel/bio.c:59-89 | One buffer per block: the cached one, or a recycled one; no block's contents change. |
| Bio.Bcache.Acquire | xv6-riscv-xv6-riscv-rev5/kernel/bio.c:69-71 | Takes the sleep-lock of a referenced buffer, or waits exactly if it is held; no block's contents change. |
| Bio.Bcache.Fill | xv6-riscv-xv6-riscv-rev5/kernel/bio.c:98-104 | The locked buffer then holds the latest contents of its block. |
| Bio.Bcache.Bread | xv6-riscv-xv6-riscv-rev5/kernel/bio.c:93-106 | No such device, no unreferenced buffer, a wait for the holder of the buffer, or the locked buffer with the latest contents of its block; the contents of no block change. |
| Bio.Bcache.Bwrite | xv6-riscv-xv6-riscv-rev5/kernel/bio.c:110-115 | The disk takes the buffer's contents; panics exactly for a caller without the lock. |
| Bio.Bcache.Modify | xv6-riscv-xv6-riscv-rev5/kernel/bio.c:108-115 | A holder may change its buffer; only that block's contents change for readers. |
| Bio.Bcache.Bpin | xv6-riscv-xv6-riscv-rev5/kernel/bio.c:143-147 | Pinning changes no block's contents. |
| Bio.Bcache.Unlock | xv6-riscv-xv6-riscv-rev5/kernel/bio.c:122-125 | The first critical section of brelse(): the caller's sleep-lock is released, a panic exactly for a caller without it. |
| Bio.Bcache.Drop | xv6-riscv-xv6-riscv-rev5/kernel/bio.c:127-139 | The second: one reference less; the last moves the buffer to the front. Unreferenced buffers stay equal to the disk exactly if this one is. |
| Bio.Bcache.MoveFront | xv6-riscv-xv6-riscv-rev5/kernel/bio.c:129-137 | The relinking makes the buffer the first of the list and keeps the order of the others. |
| Bio.Bcache.Brelse | xv6-riscv-xv6-riscv-rev5/kernel/bio.c:120-140 | Both sections: no block's contents change, the last release moves the buffer to the front, and unreferenced buffers stay equal to the disk exactly if this one was written or is still referenced. |
| Bio.Bcache.Bunpin | xv6-riscv-xv6-riscv-rev5/kernel/bio.c:150-154 | No block's contents change; unreferenced buffers stay equal to the disk exactly if this was not the last reference to an unwritten change. |
| FsBlocks.SetBitOne | xv6-riscv-xv6-riscv-rev5/kernel/fs.c:77-80 | Marking a block sets its bit and no other. |
| FsBlocks.ClearBitOne | xv6-riscv-xv6-riscv-rev5/kernel/fs.c:97-103 | Freeing a block clears its bit and no other. |
| FsBlocks.PutGet | xv6-riscv-xv6-riscv-rev5/kernel/fs.c:431-437 | A word of an indirect block reads back and disturbs no other. |
| FsBlocks.ReferencedOnce | xv6-riscv-xv6-riscv-rev5/kernel/fs.c:405-444 | No data or indirect block is referenced from two slots. |
| FsBlocks.AttachAddr | xv6-riscv-xv6-riscv-rev5/kernel/fs.c:411-427 | Attaching a zeroed free block keeps exclusive ownership and a bitmap that marks exactly metadata and referenced blocks. |
| FsBlocks.AttachEntry | xv6-riscv-xv6-riscv-rev5/kernel/fs.c:428-438 | The same for an entry of the indirect block. |
| FsBlocks.DetachAddr | xv6-riscv-xv6-riscv-rev5/kernel/fs.c:455-474 | Freeing and clearing a slot keeps them; the freed bit was set. |
| FsBlocks.DetachEntry | xv6-riscv-xv6-riscv-rev5/kernel/fs.c:462-469 | The same for an entry of the indirect block. |
| FsFile.BmapAddr | xv6-riscv-xv6-riscv-rev5/kernel/fs.c:406-444 | Allocation by bmap() changes no byte and no size of any file. |
| FsFile.BmapEntry | xv6-riscv-xv6-riscv-rev5/kernel/fs.c:428-438 | The same through the indirect block. |
| FsFile.StoreBlock | xv6-riscv-xv6-riscv-rev5/kernel/fs.c:539-551 | Storing into a mapped block changes those bytes of that file and no byte of another. |
| FsFile.WroteContent | xv6-riscv-xv6-riscv-rev5/kernel/fs.c:529-562 | A write is the overwrite of the file's byte sequence; every other file keeps its contents. |
| FsFile.BlankImage | xv6-riscv-xv6-riscv-rev5/kernel/fs.c:42-48 | A freshly made image satisfies the invariant. |
| FsSpace.FreeIs | xv6-riscv-xv6-riscv-rev5/kernel/fs.c:67-106 | Free and owned blocks add up to the data area. |
| FsSpace.SpaceUsed | xv6-riscv-xv6-riscv-rev5/kernel/fs.c:405-444 | The blocks a write attaches are exactly those the bitmap lost. |
| FsSpace.HadRoom | xv6-riscv-xv6-riscv-rev5/kernel/fs.c:405-444 | A write that mapped a whole span had at least as many free blocks as the span wanted, the indirect block included. |
| FsSpace.HadNoRoom | xv6-riscv-xv6-riscv-rev5/kernel/fs.c:405-444 | A write that stopped at an unmapped block on a full disk had fewer. |
| FsLogged.LogsMore | xv6-riscv-xv6-riscv-rev5/kernel/fs.c:539-551 | What the rounds of writei() log adds up to: bitmap blocks of blocks gained, the file's blocks in the range, its indirect block. |
| FsLogged.ChunkGains | xv6-riscv-xv6-riscv-rev5/kernel/xv6fs.c:140-146 | A chunk of at most 3072 bytes gains at most four blocks: one that touches four file blocks starts inside a mapped one. |
| FsLogged.ChunkLogs | xv6-riscv-xv6-riscv-rev5/kernel/fs.c:539-551 | Before the inode a chunk logs at most five blocks and min(4, bitmap blocks of the image) bitmap blocks: six with a one-block bitmap, nine on an image of any size. |
| FsLogged.ChunkFits | xv6-riscv-xv6-riscv-rev5/kernel/xv6fs.c:136-156 | With the inode's block last, every log_write() of a chunk is made with fewer than ten blocks logged, on an image of any size; in all a chunk logs at most seven blocks with a one-block bitmap, and ten in general. |
| FsLogged.ForMore | xv6-riscv-xv6-riscv-rev5/kernel/fs.c:539-551 | The rounds of writei() log nothing but what they need, and every bitmap byte and block they change, but for a block a faulting source left half written. |
| Fs.AllFreed | xv6-riscv-xv6-riscv-rev5/kernel/fs.c:449-476 | The bits that differ after truncation are exactly those of the inode's blocks. |
| Fs.SpillIff | xv6-riscv-xv6-riscv-rev5/kernel/fs.c:539-562 | More bytes change than are counted exactly when the source faults strictly inside a block that is mapped or that there were free blocks for. |
| Fs.AllIff | xv6-riscv-xv6-riscv-rev5/kernel/fs.c:539-562 | Everything is written exactly when the source does not fault and there were free blocks for the span. |
| Fs.RoomInside | xv6-riscv-xv6-riscv-rev5/kernel/fs.c:539-562 | Inside the file there is always room, so there a fault inside a block is the whole condition. |
| Fs.FileSystem.FindFree | xv6-riscv-xv6-riscv-rev5/kernel/fs.c:72-88 | The scan over bitmap blocks finds the first clear bit. |
| Fs.FileSystem.Balloc | xv6-riscv-xv6-riscv-rev5/kernel/fs.c:67-89 | The first free block, marked and zeroed; 0 exactly when the disk is full. |
| Fs.FileSystem.Bfree | xv6-riscv-xv6-riscv-rev5/kernel/fs.c:93-106 | Clears one bit; every call in the model meets the precondition, so the panic is unreachable. |
| Fs.FileSystem.Bmap | xv6-riscv-xv6-riscv-rev5/kernel/fs.c:406-444 | Returns an existing mapping untouched; otherwise attaches a zeroed block or reports a full disk; other slots and all bytes unchanged; logs only its own blocks. |
| Fs.FileSystem.AllocAddr | xv6-riscv-xv6-riscv-rev5/kernel/fs.c:411-427 | Fills an empty direct slot or the missing indirect block, or the disk is full. |
| Fs.FileSystem.AllocEntry | xv6-riscv-xv6-riscv-rev5/kernel/fs.c:431-438 | Fills an empty entry of the indirect block, or the disk is full. |
| Fs.FileSystem.MapEntry | xv6-riscv-xv6-riscv-rev5/kernel/fs.c:428-438 | The indirect part of bmap(). |
| Fs.FileSystem.TruncDirect | xv6-riscv-xv6-riscv-rev5/kernel/fs.c:455-460 | Every direct block is freed and its slot cleared. |
| Fs.FileSystem.TruncIndirect | xv6-riscv-xv6-riscv-rev5/kernel/fs.c:462-472 | Every block named by the indirect block is freed, then the indirect block; its stale words no longer matter. |
| Fs.FileSystem.Itrunc | xv6-riscv-xv6-riscv-rev5/kernel/fs.c:449-476 | Empties the inode and frees exactly its blocks; other files unchanged; logs bitmap blocks and the inode, and all that changes. |
| Fs.FileSystem.Readi | xv6-riscv-xv6-riscv-rev5/kernel/fs.c:495-519 | Returns the file's bytes clamped to its size, with the 32-bit overflow test and destination faults; never allocates, changes nothing. |
| Fs.FileSystem.ReadBlock | xv6-riscv-xv6-riscv-rev5/kernel/fs.c:504-508 | One round finds its block mapped and returns that stretch of the file. |
| Fs.FileSystem.WriteBlock | xv6-riscv-xv6-riscv-rev5/kernel/fs.c:540-551 | One round maps its block and stores its bytes, or the disk is full. |
| Fs.FileSystem.WriteBlocks | xv6-riscv-xv6-riscv-rev5/kernel/fs.c:539-551 | The loop stops at the end, at a full disk, or at the last block boundary before a fault. |
| Fs.FileSystem.NextBlock | xv6-riscv-xv6-riscv-rev5/kernel/fs.c:539-551 | One round and what it adds to the bytes written, the blocks gained and the blocks logged, or the reason it is the last. |
| Fs.FileSystem.Writei | xv6-riscv-xv6-riscv-rev5/kernel/fs.c:529-562 | Rejects exactly the out-of-range writes; otherwise overwrites the file, keeping every block below the size mapped. All is written exactly when the source does not fault and the free blocks suffice; the bytes changed exceed the count returned exactly when the source faults strictly inside a block for which they suffice. Both conditions are on the state before the call. |
| Fs.PartialWrite | xv6-riscv-xv6-riscv-rev5/kernel/fs.c:543-546 | A source fault one byte into a block: 0 is returned and the byte, which was another, has changed. |
| Fs.FileSystem.WriteChunk | xv6-riscv-xv6-riscv-rev5/kernel/xv6fs.c:143-152 | One chunk in its own log operation: every log_write() has allowance left on an image of any size, at most seven blocks with a one-block bitmap, and all that changes is logged but what a faulting source spilled; short only for a fault or a full disk. |
| Fs.FileSystem.NextChunk | xv6-riscv-xv6-riscv-rev5/kernel/xv6fs.c:142-152 | One round either writes its chunk whole, or the call as a whole could not have been accepted. |
| Fs.FileSystem.Xv6fsWrite | xv6-riscv-xv6-riscv-rev5/kernel/xv6fs.c:136-156 | All of the data is written at the offset, or -1 and a prefix of it; success exactly for a count of 0, or a positive one when the range is allowed, the source does not fault and the free blocks suffice, judged before the call; -1 for a negative count. Every log operation it makes has allowance left at each call. |
| FatDisk.SectorPosFlat | xv6-riscv-xv6-riscv-rev5/kernel/fat32.c:43-48 | Sector and offset through 1024-byte blocks is the flat byte position. |
| FatDisk.CopiesShareBlock | xv6-riscv-xv6-riscv-rev5/kernel/fat32.c:72-83 | The volumes the model excludes are exactly those with two copies on which some FAT sector and its copy lie in one buffer, which write_fat() would lock twice. |
| FatDisk.PutEntry | xv6-riscv-xv6-riscv-rev5/kernel/fat32.c:72-83 | One copy of one entry replaced: no other entry and no byte outside the FAT changes. |
| FatDisk.ClustersApart | xv6-riscv-xv6-riscv-rev5/kernel/fat32.c:62-64 | Bytes of different clusters are different bytes of the disk. |
| FatDisk.StoreKeepsFat | xv6-riscv-xv6-riscv-rev5/kernel/fat32.c:49-60 | A write into the data area leaves the FAT as it was. |
| FatChains.Disjoint | xv6-riscv-xv6-riscv-rev5/kernel/fat32.c:90-101 | No cluster is in two chains or twice in one. |
| FatChains.FreeUnowned | xv6-riscv-xv6-riscv-rev5/kernel/fat32.c:90-96 | A free entry belongs to no chain. |
| FatChains.Append | xv6-riscv-xv6-riscv-rev5/kernel/fat32.c:701-706 | Linking a fresh end-marked cluster keeps all chains in range, acyclic, terminated and disjoint. |
| FatChains.Drop | xv6-riscv-xv6-riscv-rev5/kernel/fat32.c:97-101 | A file that gives up its chain owns none of its clusters; other chains are kept. |
| FatChains.StorePiece | xv6-riscv-xv6-riscv-rev5/kernel/fat32.c:708-715 | Data stored in one cluster changes those bytes of that file and no other. |
| FatFile.EntryWritten | xv6-riscv-xv6-riscv-rev5/kernel/fat32.c:72-83 | write_fat() changes one entry, equally in both copies, under its old top four bits. |
| FatFile.WroteNext | xv6-riscv-xv6-riscv-rev5/kernel/fat32.c:708-717 | Writes of adjacent ranges compose, while the chain grows. |
| FatFile.WroteContent | xv6-riscv-xv6-riscv-rev5/kernel/fat32.c:698-725 | A write that starts inside the file is the overwrite of its byte sequence. |
| FatFile.WroteOthers | xv6-riscv-xv6-riscv-rev5/kernel/fat32.c:698-725 | Every other file keeps its contents. |
| Fat.FatVolume.ReadFat | xv6-riscv-xv6-riscv-rev5/kernel/fat32.c:65-71 | The low 28 bits of the entry. |
| Fat.FatVolume.WriteFat | xv6-riscv-xv6-riscv-rev5/kernel/fat32.c:72-83 | Changes one table entry; copies stay equal, reserved bits and data stay; on every volume but those. |
| Fat.FatVolume.AllocClus | xv6-riscv-xv6-riscv-rev5/kernel/fat32.c:90-96 | The first free cluster, end-marked; 0 exactly when there is none; chains kept. |
| Fat.FatVolume.FreeChain | xv6-riscv-xv6-riscv-rev5/kernel/fat32.c:97-101 | Terminates, frees exactly the clusters of the chain and nothing else. |
| Fat.FatVolume.Ftrunc | xv6-riscv-xv6-riscv-rev5/kernel/fat32.c:1006-1009 | The part before sync_dirent(): the file becomes empty, its clusters free, other files unchanged. |
| Fat.FatVolume.Swrite | xv6-riscv-xv6-riscv-rev5/kernel/fat32.c:49-60 | Writes one sector range, and its twin exactly for sectors of the first FAT. |
| Fat.FatVolume.Grow | xv6-riscv-xv6-riscv-rev5/kernel/fat32.c:703-706 | Extends a chain by one cluster, or the volume is full. |
| Fat.FatVolume.Begin | xv6-riscv-xv6-riscv-rev5/kernel/fat32.c:701 | The first cluster of a file that has none, or the volume is full. |
| Fat.FatVolume.Locate | xv6-riscv-xv6-riscv-rev5/kernel/fat32.c:698-706 | Reaches the cluster of the offset, extending the chain, changing no byte of any file. |
| Fat.FatVolume.WritePiece | xv6-riscv-xv6-riscv-rev5/kernel/fat32.c:710-714 | One round stores its bytes in the file and touches no other byte; a data sector is never mirrored. |
| Fat.FatVolume.Advance | xv6-riscv-xv6-riscv-rev5/kernel/fat32.c:716 | At the end of a cluster the chain is followed, or extended if more is to come. |
| Fat.FatVolume.WriteLoop | xv6-riscv-xv6-riscv-rev5/kernel/fat32.c:707-717 | Replaces exactly the bytes it counts, across sectors and clusters; the branch for a cluster past the end at the top of the loop is never taken. |
| Fat.FatVolume.Fwrite | xv6-riscv-xv6-riscv-rev5/kernel/fat32.c:698-718 | The part before sync_dirent(): for an offset within the file, replaces exactly the bytes written and leaves every other file alone; short only when the volume is full, -1 for a fault or no cluster. The size update wraps at 32 bits. |
| Fat.FatVolume.Fread | xv6-riscv-xv6-riscv-rev5/kernel/fat32.c:652-669 | The file's bytes from the offset, clamped as the 32-bit test clamps them and by the chain, up to a destination fault. |
| Fat.FatVolume.Seek | xv6-riscv-xv6-riscv-rev5/kernel/fat32.c:656-658 | The skip loop reaches the cluster that holds the offset. |
| Fat.FatVolume.ReadPiece | xv6-riscv-xv6-riscv-rev5/kernel/fat32.c:660-665 | One round returns those bytes of the file. |
| Fat.ClampedIff | xv6-riscv-xv6-riscv-rev5/kernel/fat32.c:654-655 | The clamp to file_size holds exactly when offset plus count does not wrap, or nothing lies past file_size. |
| Fat.WrapReadsPastSize | xv6-riscv-xv6-riscv-rev5/kernel/fat32.c:654-655 | A one-byte tail of a nearly 4 GiB file read with a huge count returns 1024 bytes. |
| Fat.BlankVolume | xv6-riscv-xv6-riscv-rev5/kernel/fat32.c:1028-1049 | A volume of empty files satisfies the invariant. |
| FatSync.PatchedReads | xv6-riscv-xv6-riscv-rev5/kernel/fat32.c:491-496 | The patched entry reads back as the size and first cluster given, and no other byte of it differs. |
| FatSync.SeekEntry | xv6-riscv-xv6-riscv-rev5/kernel/fat32.c:482-490 | The cluster walk reaches the entry's sector, or fails exactly when the directory's chain ends before it. |
| FatSync.SyncDirent | xv6-riscv-xv6-riscv-rev5/kernel/fat32.c:478-497 | The entry in the parent directory records size and first cluster of the file; no other byte of any file and no FAT entry changes; fails, changing nothing, exactly when the chain ends before the entry. |
| FatSync.Sync | xv6-riscv-xv6-riscv-rev5/kernel/fat32.c:719-723 | Done for files and not for directories; every other file and directory keeps its clusters and every byte of them, and of the parent only the entry's fields change. |
| FatSync.Fwrite | xv6-riscv-xv6-riscv-rev5/kernel/fat32.c:698-725 | The whole of fwrite(): the bytes written replace exactly those of the file, a write that does not fail leaves the parent's entry with the new size and first cluster, every other file and directory keeps its clusters and every byte of them, also past its size, and of the parent only the entry's fields change. |
| FatSync.Ftrunc | xv6-riscv-xv6-riscv-rev5/kernel/fat32.c:1006-1013 | The whole of ftrunc(): exactly the file's clusters become free, the parent's entry says that it is empty, and every other file and directory keeps its clusters and every byte of them. |
| Lfn.LongEntryReads | xv6-riscv-xv6-riscv-rev5/kernel/fat32.c:525-538 | An entry built from 13 characters reads back as those characters, checksum and attribute. |
| Lfn.RunEntryReads | xv6-riscv-xv6-riscv-rev5/kernel/fat32.c:525-538 | Entry s of a run carries number s, the last flag only on the first written, and its slice of the name. |
| Lfn.DecodeName | xv6-riscv-xv6-riscv-rev5/kernel/fat32.c:334-344 | A name followed by a terminator or by nothing decodes to itself in both readers. |
| LfnLookup.WalksPast | xv6-riscv-xv6-riscv-rev5/kernel/fat32.c:269-288 | An entry that neither ends the directory nor matches is passed. |
| LfnLookup.ReadsRun | xv6-riscv-xv6-riscv-rev5/kernel/fat32.c:292-319 | The entries of a run leave the whole padded name pending, whatever state and memory precede them. |
| LfnLookup.ScanAt | xv6-riscv-xv6-riscv-rev5/kernel/fat32.c:265-382 | dlookup() returns the first entry that matches, before any end marker. |
| LfnLookup.FitsAny | xv6-riscv-xv6-riscv-rev5/kernel/fat32.c:116-125 | Comparing against a partly written buffer: what matches for some contents of the rest fits, what fails for some misses. |
| LfnLookup.FitsSome | xv6-riscv-xv6-riscv-rev5/kernel/fat32.c:116-125 | A name that fits is matched for some contents of the unwritten rest. |
| LfnLookup.MissesSome | xv6-riscv-xv6-riscv-rev5/kernel/fat32.c:116-125 | A name that misses is not matched for some contents of it. |
| LfnLookup.DependsIff | xv6-riscv-xv6-riscv-rev5/kernel/fat32.c:259-344 | The result depends on what the uninitialised buffer held exactly when the scan reaches a torn entry: a short entry whose pending run is partly unwritten and can both match and not match. |
| LfnLookup.WholeNotTorn | xv6-riscv-xv6-riscv-rev5/kernel/fat32.c:321-344 | A short entry after a run read down to its first entry, of at most twenty, is not torn. |
| LfnLookup.FindsRunIff | xv6-riscv-xv6-riscv-rev5/kernel/fat32.c:252-382 | With a run in place every dlookup() finds its short entry, in any memory, exactly when no entry before it can match in any. |
| LfnLookup.AbsentReachedIff | xv6-riscv-xv6-riscv-rev5/kernel/fat32.c:252-382 | After one failed lookup that is so exactly when no entry before it is torn. |
| LfnLookup.TornExample | xv6-riscv-xv6-riscv-rev5/kernel/fat32.c:259-344 | A directory with a truncated run: the lookup before the write fails and the one after it returns the wrong entry. |
| LfnLookup.LookupFindsRun | xv6-riscv-xv6-riscv-rev5/kernel/fat32.c:252-382 | A name one dlookup() did not find is written by dwrite_lfn() with no end marker before it. Every later dlookup(), each with its own uninitialised buffer, then finds it at its short entry exactly when no entry before it is torn; for every length 1 to 255. |
| LfnList.RunChars | xv6-riscv-xv6-riscv-rev5/kernel/fat32.c:775-820 | Walking back over the run collects the padded name, then continues with what precedes it. |
| LfnList.ReaddirVerbatimIff | xv6-riscv-xv6-riscv-rev5/kernel/fat32.c:735-852 | freaddir() reports the name verbatim exactly when its length is not a multiple of 13 or what precedes the run, read as its continuation, spells nothing. |
| LfnList.ReaddirVerbatim | xv6-riscv-xv6-riscv-rev5/kernel/fat32.c:735-852 | Without an entry of the same checksum numbered one higher before the run, every name is reported verbatim. |
| LfnList.OrphanLengthens | xv6-riscv-xv6-riscv-rev5/kernel/fat32.c:775-803 | Such an entry lengthens a name of a multiple of 13 characters: the backward walk does not stop at the last-entry flag. |
| LfnList.OrphanExample | xv6-riscv-xv6-riscv-rev5/kernel/fat32.c:775-803 | A three-entry directory in which a 13-character name is not reported verbatim. |
| LfnList.RunIsSkipped | xv6-riscv-xv6-riscv-rev5/kernel/fat32.c:741-757 | From inside the run the next short entry is the run's own. |
| LfnDir.LfnChecksum | xv6-riscv-xv6-riscv-rev5/kernel/fat32.c:129-134 | The loop computes the rotating checksum. |
| LfnDir.Ncasecmp | xv6-riscv-xv6-riscv-rev5/kernel/fat32.c:116-125 | Equality up to ASCII case. |
| LfnDir.StoreChars | xv6-riscv-xv6-riscv-rev5/kernel/fat32.c:302-308 | The loops store an entry's characters at its place in the buffer. |
| LfnDir.Uname | xv6-riscv-xv6-riscv-rev5/kernel/fat32.c:513-521 | The name, a terminator if there is room, then padding. |
| LfnDir.DecodeBuf | xv6-riscv-xv6-riscv-rev5/kernel/fat32.c:334-344 | The decoding loop of dlookup(). |
| LfnDir.DecodeDirBuf | xv6-riscv-xv6-riscv-rev5/kernel/fat32.c:829-836 | The decoding loop of freaddir(). |
| LfnDir.Directory.DwriteLfn | xv6-riscv-xv6-riscv-rev5/kernel/fat32.c:502-544 | Writes the run of the name and its short entry, touching no other entry; fails exactly when the chain is too short. |
| LfnDir.Directory.Dlookup | xv6-riscv-xv6-riscv-rev5/kernel/fat32.c:252-382 | The loop computes the lookup state machine over the entries and the call's own uninitialised buffer, for every sequence number. |
| LfnDir.Directory.Freaddir | xv6-riscv-xv6-riscv-rev5/kernel/fat32.c:735-852 | The next short entry and its reported name. |
| LfnDir.Directory.LongName | xv6-riscv-xv6-riscv-rev5/kernel/fat32.c:765-843 | The backward walk computes the reported name over its own buffer. |
| LfnDir.RoundTrip | xv6-riscv-xv6-riscv-rev5/kernel/fat32.c:502-544 | dwrite_lfn() after a dlookup() that found nothing, then dlookup() and freaddir(), each with its own uninitialised buffer, give back the entry and the name if no entry before it is torn and none continues the run. |
| Virtio.NotThree | xv6-riscv-xv6-riscv-rev5/hal/riscv/hal_virtio.c:229-240 | Three chains would need nine of the eight descriptors. |
| Virtio.SectorExact | xv6-riscv-xv6-riscv-rev5/hal/riscv/hal_virtio.c:247 | The sector of a block, computed in 32 bits, is its own exactly below block 2^31; above it is that of the block 2^31 lower. |
| Virtio.QueuedPut | xv6-riscv-xv6-riscv-rev5/hal/riscv/hal_virtio.c:300-301 | Filling the slot behind a queue overwrites none of its entries, at any 16-bit position. |
| Virtio.QueuedPush | xv6-riscv-xv6-riscv-rev5/hal/riscv/hal_virtio.c:300-306 | Publishing the slot appends it to the queue, also across the 16-bit wrap. |
| Virtio.QueuedPop | xv6-riscv-xv6-riscv-rev5/hal/riscv/hal_virtio.c:343-355 | Advancing the index removes the oldest entry. |
| Virtio.TakesFirst | xv6-riscv-xv6-riscv-rev5/hal/riscv/hal_virtio.c:300-306 | The slot the device reads next holds the oldest offered chain. |
| Virtio.LeadsToOwn | xv6-riscv-xv6-riscv-rev5/hal/riscv/hal_virtio.c:266-294 | From a live head the descriptors lead to the request's own header, buffer and status byte. |
| Virtio.SeesFirst | xv6-riscv-xv6-riscv-rev5/hal/riscv/hal_virtio.c:343-350 | Every used id names a live request with status 0 and its buffer recorded, so the handler does not panic. |
| Virtio.StepKeeps | xv6-riscv-xv6-riscv-rev5/hal/riscv/hal_virtio.c:243-358 | Every driver, device and interrupt step, and every store of an owner into a buffer that is not in flight, keeps the protocol invariant. |
| Virtio.RunKeeps | xv6-riscv-xv6-riscv-rev5/hal/riscv/hal_virtio.c:243-358 | The invariant holds in every interleaving from initialisation on. |
| Virtio.Partition | xv6-riscv-xv6-riscv-rev5/hal/riscv/hal_virtio.c:183-240 | Free descriptors and chains in flight partition the table; at most two chains. |
| Virtio.CompletesOnce | xv6-riscv-xv6-riscv-rev5/hal/riscv/hal_virtio.c:243-358 | Each request is reported at most once, and every request hal_disk_rw() returned from was reported. |
| Virtio.ReportsOwn | xv6-riscv-xv6-riscv-rev5/hal/riscv/hal_virtio.c:343-355 | The handler clears the flag of the reported request's own buffer and of no other. |
| Virtio.TransfersOwn | xv6-riscv-xv6-riscv-rev5/hal/riscv/hal_virtio.c:266-294 | The device moves exactly the sector of the request, as the 32-bit product gives it, to or from the request's own buffer. |
| Virtio.StepBack | xv6-riscv-xv6-riscv-rev5/hal/riscv/hal_virtio.c:243-358 | Between its transfer and its release no step changes a request or the contents of its buffer. |
| Virtio.ReturnsOwnBlock | xv6-riscv-xv6-riscv-rev5/hal/riscv/hal_virtio.c:243-358 | In every run, when hal_disk_rw() can return, the request's transfer is a step of the run, and a read buffer holds what its sector held then; a write stored its buffer there. |
| Virtio.BufferKept | xv6-riscv-xv6-riscv-rev5/hal/riscv/hal_virtio.c:243-358 | No step but its own transfer of a read changes the buffer of a request in flight. |
| Virtio.HoldsIssued | xv6-riscv-xv6-riscv-rev5/hal/riscv/hal_virtio.c:243-358 | In every run, while a write is in flight its buffer holds what it held when hal_disk_rw() was called. |
| Virtio.WritesIssued | xv6-riscv-xv6-riscv-rev5/hal/riscv/hal_virtio.c:243-358 | In every run, a write that hal_disk_rw() can return from put into its sector what its buffer held when the request was issued. |
| VirtioDisk.Disk.AllocDesc | xv6-riscv-xv6-riscv-rev5/hal/riscv/hal_virtio.c:184-193 | The first free descriptor, or -1 exactly when none is free. |
| VirtioDisk.Disk.FreeDesc | xv6-riscv-xv6-riscv-rev5/hal/riscv/hal_virtio.c:197-209 | Frees an allocated descriptor without meeting a panic. |
| VirtioDisk.Disk.GiveBack | xv6-riscv-xv6-riscv-rev5/hal/riscv/hal_virtio.c:234-237 | The loop returns exactly the descriptors already taken. |
| VirtioDisk.Disk.Format | xv6-riscv-xv6-riscv-rev5/hal/riscv/hal_virtio.c:274-294 | The three descriptors of a request. |
| VirtioDisk.Disk.Alloc3Desc | xv6-riscv-xv6-riscv-rev5/hal/riscv/hal_virtio.c:229-240 | The three lowest free descriptors, or everything given back exactly when fewer than three are free. |
| VirtioDisk.Disk.FreeChain | xv6-riscv-xv6-riscv-rev5/hal/riscv/hal_virtio.c:213-224 | Follows the next flags and frees exactly the three descriptors. |
| VirtioDisk.Queue.LayOut | xv6-riscv-xv6-riscv-rev5/hal/riscv/hal_virtio.c:255-301 | Allocation, formatting and the ring slot are the Prepare step; refused exactly when fewer than three descriptors are free. |
| VirtioDisk.Queue.FillSlot | xv6-riscv-xv6-riscv-rev5/hal/riscv/hal_virtio.c:266-301 | Formatting the descriptors and filling the ring slot is the Prepare step. |
| VirtioDisk.Queue.StartRw | xv6-riscv-xv6-riscv-rev5/hal/riscv/hal_virtio.c:243-310 | Allocation, formatting and publication are the Prepare and Publish steps. |
| VirtioDisk.Queue.Report | xv6-riscv-xv6-riscv-rev5/hal/riscv/hal_virtio.c:343-355 | One round of the handler is the Intr step. |
| VirtioDisk.Queue.Interrupt | xv6-riscv-xv6-riscv-rev5/hal/riscv/hal_virtio.c:324-358 | The loop reports every posted completion and nothing else. |
| VirtioDisk.Queue.EndRw | xv6-riscv-xv6-riscv-rev5/hal/riscv/hal_virtio.c:312-321 | After the wait, freeing the chain is the Finish step. |
| SleepWakeup.StepKeeps | xv6-riscv-xv6-riscv-rev5/kernel/proc.c:543-588 | With any number of channels, locks and conditions: every step of sleep(), wakeup(), acquiresleep(), releasesleep(), scheduling and killing keeps the invariant. |
| SleepWakeup.RunKeeps | xv6-riscv-xv6-riscv-rev5/kernel/proc.c:543-588 | The invariant holds in every run. |
| SleepWakeup.NoLostWakeup | xv6-riscv-xv6-riscv-rev5/kernel/proc.c:543-588 | In every run, for every channel: when its condition holds and its lock is free, no process is asleep on it or bound to fall asleep. |
| SleepWakeup.WakeupFinds | xv6-riscv-xv6-riscv-rev5/kernel/proc.c:575-588 | A wakeup() under the condition's lock finds every process that has entered sleep() on the channel asleep on it or already woken, and leaves none asleep. |
| SleepWakeup.WakeupSpares | xv6-riscv-xv6-riscv-rev5/kernel/proc.c:575-588 | A wakeup() wakes nobody who sleeps on another channel. |
| SleepWakeup.ReleaseWakesAll | xv6-riscv-xv6-riscv-rev5/kernel/sleeplock.c:33-40 | When a waker that made the condition true releases the lock, nobody is left asleep on the channel. |
| SleepWakeup.OneOwner | xv6-riscv-xv6-riscv-rev5/kernel/sleeplock.c:21-40 | In every run each sleep-lock has at most one owner, and is not marked free while it has one. |
| ProcTable.StepKeeps | xv6-riscv-xv6-riscv-rev5/kernel/proc.c:260-588 | Every step of scheduler(), sched(), yield(), sleep(), wakeup(), kfork(), kexit() and kwait() keeps the invariant of the process table; sleep() in kwait() is its separate steps, and waking is by channel. |
| ProcTable.RunKeeps | xv6-riscv-xv6-riscv-rev5/kernel/proc.c:260-588 | The invariant holds in every run from userinit() on. |
| ProcTable.OneCpu | xv6-riscv-xv6-riscv-rev5/kernel/proc.c:422-488 | A running process is on exactly one CPU. |
| ProcTable.ParentsLive | xv6-riscv-xv6-riscv-rev5/kernel/proc.c:311-364 | Nobody's parent is a zombie or unused, whoever holds wait_lock, and initproc lives. |
| ProcTable.ReapedOnce | xv6-riscv-xv6-riscv-rev5/kernel/proc.c:369-413 | No pid is reaped twice, and only exited processes are reaped. |
| ProcTable.ReapsOwnAndOff | xv6-riscv-xv6-riscv-rev5/kernel/proc.c:369-413 | kwait() frees only a zombie whose current parent is the caller and whose kernel stack no CPU is on. |
| ProcTable.NoLostExit | xv6-riscv-xv6-riscv-rev5/kernel/proc.c:310-413 | In every run, when wait_lock is free no process asleep in kwait(), or bound to sleep there, has a zombie child. |
| Ext2Recs.SplitAt | xv6-riscv-xv6-riscv-rev5/kernel/ext2.c:379-409 | At a record boundary the rest is tiled and the records split there. |
| Ext2Recs.SamePrefix | xv6-riscv-xv6-riscv-rev5/kernel/ext2.c:415-487 | What lies before a boundary depends only on the bytes before it. |
| Ext2Recs.SameSuffix | xv6-riscv-xv6-riscv-rev5/kernel/ext2.c:415-487 | What lies behind depends only on the bytes behind it. |
| Ext2Recs.WriteRec | xv6-riscv-xv6-riscv-rev5/kernel/ext2.c:442-450 | A record written over its range stands in front of the untouched rest. |
| Ext2Dir.ReusedBlock | xv6-riscv-xv6-riscv-rev5/kernel/ext2.c:442-450 | Reusing a deleted record keeps the tiling, adds the name and leaves other names. |
| Ext2Dir.SplitBlockAdds | xv6-riscv-xv6-riscv-rev5/kernel/ext2.c:451-464 | Splitting a record keeps the tiling, adds the name and leaves other names. |
| Ext2Dir.AddedGrow | xv6-riscv-xv6-riscv-rev5/kernel/ext2.c:473-487 | A record in a new block adds the name and leaves other names. |
| Ext2Dir.ListedBetween | xv6-riscv-xv6-riscv-rev5/kernel/ext2.c:432-487 | An entry added to the records of one block is added to the listing of the directory. |
| Ext2Dir.ClearedOne | xv6-riscv-xv6-riscv-rev5/kernel/ext2.c:806-807 | Clearing the first entry of a name leaves every other name as it was. |
| Ext2Ops.NameMatches | xv6-riscv-xv6-riscv-rev5/kernel/ext2.c:394-396 | The comparison of stored and given name is equality. |
| Ext2Ops.LookupBlock | xv6-riscv-xv6-riscv-rev5/kernel/ext2.c:392-405 | The first live record of a block with the name; none for the empty name. |
| Ext2Ops.AddInBlock | xv6-riscv-xv6-riscv-rev5/kernel/ext2.c:432-467 | Uses the first record with room; fails exactly when none has. |
| Ext2Ops.ClearInBlock | xv6-riscv-xv6-riscv-rev5/kernel/ext2.c:762-807 | Clears the first live record of the block with the name, and only that. |
| Ext2Ops.Directory.DirLookup | xv6-riscv-xv6-riscv-rev5/kernel/ext2.c:379-409 | The inode of the first entry with the name, 0 for none and for the empty name. |
| Ext2Ops.Directory.DirAdd | xv6-riscv-xv6-riscv-rev5/kernel/ext2.c:415-487 | Every block stays tiled; an absent name then finds its inode, other names are unaffected, and the listing has exactly one entry more, that one; grows by one block exactly when no record has room; fails exactly when that is impossible. |
| Ext2Ops.Directory.Clear | xv6-riscv-xv6-riscv-rev5/kernel/ext2.c:756-809 | Removes exactly the first entry with the name from the live ones; other names unaffected; fails exactly for an absent name. |
| Ext2Ops.Directory.Empty | xv6-riscv-xv6-riscv-rev5/kernel/ext2.c:781-798 | The test of a directory says empty exactly when no live entry but the dots is in it. |
| Ext2Ops.Directory.Unlink | xv6-riscv-xv6-riscv-rev5/kernel/ext2.c:746-843 | Fails, changing nothing, exactly for an absent name, or a directory that cannot be read or is not empty; else exactly that entry goes, a directory gives up two links of its own and one of its parent, a file one, and the inode is orphaned exactly when none is left. |
| Ext2Ops.Directory.Readdir | xv6-riscv-xv6-riscv-rev5/kernel/ext2.c:647-678 | The next live entry from an offset and the offset behind it, or -1 exactly at the end or for a failing copy; the inode is cut to 16 bits. |
| Ext2Ops.Directory.List | xv6-riscv-xv6-riscv-rev5/kernel/ext2.c:647-678 | Repeated readdir visits each live entry exactly once, in order, with its name and inode. |
| VfsPath.Skipelem | xv6-riscv-xv6-riscv-rev5/kernel/vfs.c:304-319 | Returns the path's elements in order, each cut to 255 characters; the rest is empty exactly after the last. |
| VfsWalk.StepSlips | xv6-riscv-xv6-riscv-rev5/kernel/vfs.c:346-382 | One element leaves the walk dangling exactly when it slips: a .. at a covered mount root whose lookup fails, storing nothing, while next holds an earlier value. |
| VfsWalk.DanglingIff | xv6-riscv-xv6-riscv-rev5/kernel/vfs.c:337-384 | A walk ends dangling exactly when one of its elements slips, judged from the vnodes, mounts, path and back-end answers before the call. |
| VfsWalk.NeverDangling | xv6-riscv-xv6-riscv-rev5/kernel/vfs.c:337-384 | If no .. meets a failing lookup, or no mount has a mountpoint, no walk dangles. |
| VfsWalk.EarlierResult | xv6-riscv-xv6-riscv-rev5/kernel/vfs.c:340-382 | From the second element on next always holds an earlier value, so there every such failure slips. |
| Vfs.Exchange | xv6-riscv-xv6-riscv-rev5/kernel/vfs.c:218-272 | Giving up the older of two references leaves the newer. |
| Vfs.Vfs.Vget | xv6-riscv-xv6-riscv-rev5/kernel/vfs.c:218-224 | One more reference. |
| Vfs.Vfs.Vput | xv6-riscv-xv6-riscv-rev5/kernel/vfs.c:250-272 | One fewer reference; the last one clears the slot. |
| Vfs.Vfs.Lookup | xv6-riscv-xv6-riscv-rev5/kernel/vfs.c:372-377 | A back end's lookup succeeds exactly when it has a vnode to give, adding one reference to it; a failing one stores null or nothing. |
| Vfs.Vfs.LookupMount | xv6-riscv-xv6-riscv-rev5/kernel/vfs.c:58-68 | The mount that covers a directory, or none. |
| Vfs.Vfs.CrossMount | xv6-riscv-xv6-riscv-rev5/kernel/vfs.c:325-334 | The result is the root of the mount that covers the directory, with the reference exchanged, or the directory itself. |
| Vfs.Vfs.PathStart | xv6-riscv-xv6-riscv-rev5/kernel/vfs.c:289-301 | One reference to the root of the first mount for an absolute path, else to the current directory, or null. |
| Vfs.Vfs.UpFromRoot | xv6-riscv-xv6-riscv-rev5/kernel/vfs.c:354-370 | Crossing back out of a mount exchanges references and holds one lock at a time; what a failed lookup leaves in next is null or its earlier value, by the back end. |
| Vfs.Vfs.GiveUp | xv6-riscv-xv6-riscv-rev5/kernel/vfs.c:348-350 | Unlocks and releases, restoring every count. |
| Vfs.Vfs.Step | xv6-riscv-xv6-riscv-rev5/kernel/vfs.c:346-382 | One element is one step of the walk on values: null with everything restored, or exactly the walk's reference. |
| Vfs.Vfs.Namei | xv6-riscv-xv6-riscv-rev5/kernel/vfs.c:337-384 | Terminates with the result of the walk on values; reference counts change by +1 on the result and 0 elsewhere, at most one vnode lock held and none at return; dangling exactly when some element of the path slips. |
| Vfs.Vfs.NameiParent | xv6-riscv-xv6-riscv-rev5/kernel/vfs.c:387-442 | The same for the parent, with the last element of the path. |
| Vfs.DanglingExample | xv6-riscv-xv6-riscv-rev5/kernel/vfs.c:354-370 | A whole call, /d/.. across a mount with a failing lookup, returns a vnode on which the walk has no reference. |

## Left out

- FsImage.FsSurvives: that a batch of interleaved operations keeps the invariant is a hypothesis; `FsCrash.SerialSurvives` discharges it for operations one at a time, whose block writes are the calls that `Fs.FileSystem` logs.
- Vm.Memory.Uvmunmap: with `do_free` every page of the range is mapped once, as in user page tables; a page mapped twice would be freed twice.
- Vm.Memory.Uvmalloc: user sizes, and a range not mapped yet, which is what its callers pass.
- Malloc.Heap.Malloc: once `sbrk()` granted something else than was needed the model stops, since what `morecore()` then links in is not the heap's.
- Malloc.Heap.Morecore: fresh memory is a parameter; that `sbrk()` returns memory above and apart from the heap is assumed of the kernel.
- Bio.Bcache.Bread: a wait for the buffer's holder ends the call in the model; what happens then is the subject of SleepWakeup.
- Bio.Bcache.Bunpin: the last reference is dropped by a caller while nobody holds the buffer, as the log does after `brelse()`.
- Fs.FileSystem.Writei: bytes that landed past the count are unlogged in the source; the model keeps them in the cached blocks and does not model their later eviction.
- Fs.FileSystem.Xv6fsWrite: the vnode's cached size is not modelled.
- Fat.FatVolume.WriteFat: volumes on which a FAT sector shares a buffer with its copy are excluded, since the source deadlocks there; `FatDisk.CopiesShareBlock` is the exact condition.
- FatSync.SyncDirent: the entry lies in a directory other than the file itself, and a file's parent has clusters; read and write errors of the device are not modelled.
- LfnDir.Directory.Dlookup: entries are taken in chain order, without the cluster walk; characters past the 260th are not stored, as in the source, but the decoding reads on behind the source's buffer, and what is there is part of the uninitialised memory; sequence number 0 stores before the buffer, which the model drops.
- LfnDir.Directory.LongName: decoding a run of more than 20 entries reads on behind the source's buffer, and what is there is part of the uninitialised memory.
- LfnDir.Directory.DwriteLfn: the run's slots are given; how `dfree()` finds or grows them is not modelled.
- Ext2Ops.Directory.DirAdd: names of 1 to 255 characters, which is what path elements are cut to; the allocation of a new block is a parameter.
- Ext2Ops.Directory.Unlink: times, and the write-back and freeing of the inode, are not modelled.
- Virtio.StepKeeps: memory is sequentially consistent; fences, feature negotiation and device errors are not modelled.
- VirtioDisk.Queue.StartRw: the wait for descriptors is the failure result; each buffer has at most one request, as its sleep-lock ensures.
- ProcTable.StepKeeps: user memory, files, exit status and kill flags are not modelled.
- SleepWakeup.StepKeeps: conditions are single bits that their lock guards; liveness and fairness are not claimed.
- Vfs.Vfs.Namei: once the walk is at a stale vnode it stops in the model, since what follows is undefined; mount and unmount during a walk are not modelled.
- Spin locks, interrupt nesting, assembly, trap entry, drivers other than virtio, ELF loading, system-call dispatch, the console and user programs are hardware access or plumbing without a hard property.
- Inode allocation and directories of the xv6 file system, ext2 files and block allocation, FAT32 short-name generation and directory growth would add members of the same kind as those modelled.
- Timestamps, stat, device nodes and superblock counters carry no invariant of interest.
