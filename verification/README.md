# bestOS, verified

A Dafny model of the hard parts of the bestOS kernel (x86-64), with proofs. Every model follows
the C code branch by branch: what the code does step by step in memory is a class or a method with
loops and invariants, proved against functions that say what the state means; the theorems about
those functions and about whole runs are lemmas.

| Modules | C code | What is proved |
|---|---|---|
| `BoundaryTags`, `TagSteps`, `HeapLayout`, `LibAlloc`, `ByteCopy` | `src/lib/alloc.c` | malloc, free and realloc over two linked structures that share their nodes: page runs tiled by the chain of their tags, free lists exact, no two free neighbours, cache counters exact, blocks disjoint and undisturbed |
| `Pmm` | `src/kernel/arch/memory/pmm.c` | the frame bitmap refines a set of clear frames; over any run of single pages no frame is handed out twice; the exact conditions under which its shortcuts are harmless |
| `PageTables`, `Paging`, `PageRuns` | `src/kernel/arch/memory/vmm.c` | the lazily built radix trees, in the same memory as all data, refine a flat map from pages to frames; tables are only ever made in frames that were clear |
| `Isolation`, `AddressSpaces`, `Mmap` | `src/kernel/arch/memory/vmm.c`, `task_init` | no frame is reachable from the lower halves of two address spaces, and none that is reachable is clear or holds a table; the kernel's direct map and how far it reaches; new address spaces; what any run of mmap calls leaves |
| `Elf` | `src/kernel/elf.c` | after loading, every byte of every segment reads back through the page tables, from frames that are the process's alone |
| `InitialStack` | `sched_new_elf_process` | a start-up reader recovers argc, argv, envp and auxv from the built stack |
| `Processes` | `pmm_initialize`, `vmm_initialize`, `sched_new_elf_process`, `vmm_mmap` | the steps put together, from power-up to a process whose program, arguments and mapped memory read back through its own pages |
| `Scheduler`, `ContextSwitch` | `src/kernel/sched.c`, `src/kernel/arch/interrupts.c` | exact round-robin fairness, and what removal does to it; one shared register frame behaves like independent machines, whatever steps they take and whoever comes and goes |
| `Vec` | `src/lib/vec.c`, `src/lib/vec.h` | overlapping byte moves refine sequence operations; amortised cost of pushes; when swapsplice is right |
| `Paths`, `Vfs` | `src/lib/str.c`, `src/kernel/fs/vfs.c` | tokens, segments and names of paths; path resolution is a walk; which creations keep every older path, whatever malloc's blocks held before |
| `Ustar` | `src/kernel/fs/ustar.c` | walking an archive visits exactly its members |

`Basics` holds the constants and small definitions that several modules share.
`dafny verify dfyconfig.toml` checks the whole project.

## How the models are built

- The heap keeps the fields of its headers in a map from addresses to records, `Heap.tags`, and
  bytes in an array. `HeapLayout.PayloadsApart` shows that no payload overlaps a header, so keeping
  the two apart loses nothing. The magic number, which `free` looks for at any address it is given,
  is four bytes of that array; `HeapLayout.ClientsKeepMarks` shows that clients who write into
  their own blocks never touch one. The page allocator's answer is a parameter `base`: a run that
  overlaps none the heap holds (`TagSteps.FreshRun`).
- Physical memory is one map from frame numbers to 512 words. Page tables are such words, and data
  are their bytes (`PageTables.ByteAt`, `PageTables.PutByte`), so a `memcpy` could hit a table; that
  it does not is proved. A ghost `Forest` names the table each frame holds, and the slots of the
  upper half in which address spaces have parted. Addresses in the direct map are the physical
  addresses they stand for; the ghost constant `Mapper.reach` says how many pages it maps, and
  `Mapper.Valid` holds only while every table and every clear frame lies below it.
  `AddressSpaces.KernelMapped` says of the page tables that they do map so many, and
  `Processes.Sound` puts the two together.
- A VfsNode is a record in a map from addresses. malloc's answers are parameters, and so is what a
  block holds before the code sets its fields (`Vfs.Block`).
- Ghost insertion stamps order each free list; they are what makes following `next` terminate.

## Where the code does less than one would expect

Each of these is a theorem with its exact condition, and a lemma with an input that fails.

- `pmm_allocate` looks at one bit only (`src/kernel/arch/memory/pmm.c:62`). The count of usable
  pages stays right exactly when the whole run was clear (`Pmm.FrameAllocator.Allocate`); with
  frames 1 and 3 clear, two pages take frame 2 from its owner (`Pmm.TwoPagesOverlap`).
- The bitmap is short of bits for some memory sizes (`Pmm.BitmapCovers`), 0x8001 frames among them
  (`Pmm.OneBitShort`).
- `vmm_initialize` maps every usable range from address 0 on, not from its base, so the direct map
  ends at 4 GiB or at the length of the longest range (`AddressSpaces.DirectMap`). With 256 MiB low
  and 1 GiB from 4 GiB on, frames are handed out that the kernel cannot reach
  (`AddressSpaces.HighMemoryUnreachable`).
- `task_init` reaches the new top-level table at MMAP_KERNEL_BASE, where only 128 MiB are mapped: it
  finishes if and only if the frame behind the four of the stack, and the kernel's own table, lie
  below 0x8000 (`AddressSpaces.KernelFrames`, `AddressSpaces.NewTask`). With the least clear frame
  at 0x7ffc it faults (`AddressSpaces.TableOutOfReach`).
- `elf_load_program` stops at the first PT_INTERP header when nobody wants the interpreter's path,
  so later segments stay unloaded: all are reached if and only if the path is wanted or none stands
  behind a PT_INTERP (`Elf.LoadsReached`, `Elf.NothingReached`).
- `task_init` never sets `used_pages`, which decides where the mappings of a process begin. Its first
  mapping misses its stack if and only if it ends below it or begins above it
  (`Processes.MissesStack`); with 0x7ffffeffa in the block, the mapping replaces the stack
  (`Processes.StackReplaced`).
- `interrupts_handler` reads `intno` again after it has switched frames. When the frame it switched
  to holds 0x42 it dispatches a system call instead of acknowledging the timer
  (`ContextSwitch.TimerDispatches`). Only a first frame can: `task_init` takes a Task from malloc and
  sets rsp, rip, rflags, cs and ss, but leaves `intno` as it finds it
  (`ContextSwitch.FirstSwitchDispatches`).
- `sched_remove` leaves `index` alone. It runs past the queue after the process at its end exits
  (`Scheduler.RemoveKeepsBound`, `Scheduler.LastOneExits`), and otherwise the process behind one that
  exits is passed over (`Scheduler.RemovePassesOver`): of the next round it gets what is left of the
  running time slice, and fairness holds again from the next switch on (`Scheduler.RemovedFair`).
- `vec_swapsplice_` loses other elements than the chosen ones when tail and hole overlap
  (`Vec.SwapSpliceExact`): of a, b and c without the first two, b stays (`Vec.WrongOneStays`).
- `vfs_get_parent` does not look at the first segment of a path (`Vfs.FirstSegmentIgnored`,
  `Vfs.RelativePath`), dereferences NULL when an inner directory is missing (`Vfs.ParentIsWalk`,
  `Vfs.LostPathFaults`), and starts over at every empty segment (`Vfs.ParentIsLanding`,
  `Vfs.DoubleSlash`).
- `vfs_open` never sets `points_to` of a file it creates. Opened again without O_CREAT, the path
  gives the same node if and only if malloc's block held NULL there, or the node's own address
  (`Vfs.CreateThenReopen`); it can give the root (`Vfs.StaleAlias`). `vfs_mkdir` leaves `points_to`
  of the directory and `children` of its entries as they are (`Vfs.MadeDirectory`).
- A file created in an alias such as `/d/..` becomes a child of the alias and is lost when a file of
  that name is created in the directory itself: `Vfs.AdoptedKeeps`, and in a tree that
  `vfs_mkdir` and `vfs_open` build, `Vfs.MakesD`, `Vfs.MakesX`, `Vfs.ShadowedPathIsLost`.
- `basename` returns a relative path whole, slashes and all: `Paths.Basename`, `Vfs.RelativeBase`.
- `getsize` reads sizes modulo 2^32 (`Ustar.SizeRoundTrip`): 4 GiB read as 0 (`Ustar.HugeFile`).

## Model

| member | source | states |
|---|---|---|
| `BoundaryTags.Log2Unique` | src/lib/alloc.c:35-38 | n is the class of a size if and only if 2^n <= size < 2^(n+1), as the comment on getexp promises |
| `BoundaryTags.ClassBounds` | src/lib/alloc.c:294-299 | every size below 2^31 has a class inside the array of lists |
| `BoundaryTags.ClassIs` | src/lib/alloc.c:294-296 | list 8 holds everything below 512 bytes, list c everything from 2^c to 2^(c+1) - 1 |
| `LibAlloc.Heap.GetExp` | src/lib/alloc.c:39-63 | the shifting loop finds that class, and -1 below 256 |
| `LibAlloc.Heap.InsertTag` | src/lib/alloc.c:133-155 | the tag becomes the head of the list of its own class, the old head points back at it, no other tag changes |
| `LibAlloc.Heap.RemoveTag` | src/lib/alloc.c:157-170 | both list neighbours and the head skip the tag, no other tag changes |
| `LibAlloc.Heap.MeltLeft` | src/lib/alloc.c:172-183 | a tag and its left neighbour become one chain link of their joint size |
| `LibAlloc.Heap.AbsorbRight` | src/lib/alloc.c:185-198 | the right neighbour leaves its list, then the chain |
| `LibAlloc.Heap.SplitTag` | src/lib/alloc.c:200-225 | the tag keeps exactly its payload; the rest is a listed tag behind it, filed under its own class; chain, lists and ownership are in order again |
| `TagSteps.UnlinkedListed` | src/lib/alloc.c:157-170 | taking a tag out keeps every free list a well-linked list of its class |
| `TagSteps.LinkedListed` | src/lib/alloc.c:146-154 | so does putting one in |
| `TagSteps.MergedChained` | src/lib/alloc.c:174-182 | merging two neighbours keeps the physical chain: sizes, split links, order, run bounds |
| `TagSteps.SplitChained` | src/lib/alloc.c:202-220 | so does splitting a tag in two |
| `TagSteps.MeltSound` | src/lib/alloc.c:401-408 | melt_left changes the size of a tag that is still filed under its old class; with the remove_tag that follows, the whole invariant holds again |
| `TagSteps.AbsorbSound` | src/lib/alloc.c:411-417 | absorb_right keeps the whole invariant |
| `TagSteps.CutSound` | src/lib/alloc.c:345-363 | malloc's split keeps the whole invariant |
| `TagSteps.GrownSound` | src/lib/alloc.c:247-260 | a fresh page run joins the heap and disturbs no block |
| `TagSteps.ReleasedSound` | src/lib/alloc.c:428-447 | the tag handed to liballoc_free is the base of a run, with exactly the page count the run was obtained with, and the rest stays in order |
| `TagSteps.LeftOfFree` | src/lib/alloc.c:401 | left of a free tag no tag is free, so the melt loop cannot go on |
| `TagSteps.WholeIffAlone` | src/lib/alloc.c:425 | a merged tag spans its run if and only if the client holds nothing else of that run |
| `HeapLayout.RunsTiled` | src/lib/alloc.c:172-225 | every page run is tiled exactly by the chain of its tags: each starts where the one before ends, split links are mutual inverses, sizes add up to the run, no tag is missing |
| `HeapLayout.ListsExact` | src/lib/alloc.c:133-170 | every free list is an acyclic doubly linked list that holds exactly the tags of its class |
| `HeapLayout.FreeOrLive` | src/lib/alloc.c:400-417 | every tag is either in the client's hands or listed under max(8, getexp(real_size - 48)), and no two neighbours are both free |
| `HeapLayout.PayloadsApart` | src/lib/alloc.c:335-375 | payloads overlap neither one another nor any header |
| `HeapLayout.ClientsKeepMarks` | src/lib/alloc.c:387-393 | whatever clients write into their own blocks, every tag keeps the magic number that free tests |
| `HeapLayout.StampKeeps` | src/lib/alloc.c:205-207 | the magic number of a split-off tag is written into no block and over no other header |
| `LibAlloc.Heap.constructor` | src/lib/alloc.c:21-31 | the statics before the first call satisfy the invariant |
| `LibAlloc.Heap.Initialize` | src/lib/alloc.c:281-292 | the first call empties lists that were empty and keeps the invariant |
| `LibAlloc.Heap.AllocateNewTag` | src/lib/alloc.c:229-271 | a zeroed run of `PagesFor` pages becomes one tag with its magic number; no block is disturbed |
| `LibAlloc.LeastPages` | src/lib/alloc.c:236-245 | that page count is the least, from 16 up, that holds the request and its header of 48 bytes |
| `LibAlloc.Heap.FindFit` | src/lib/alloc.c:298-312 | the first tag of the list with room for the request and another header, or NULL if and only if there is none |
| `BoundaryTags.ChosenIs` | src/lib/alloc.c:298-312 | in numbers: the chosen tag is the first of the list with 96 bytes more than the request, and a new one if and only if none has as much |
| `LibAlloc.Heap.TakeTag` | src/lib/alloc.c:325-331 | the tag leaves its list and the cache counter still counts the whole runs |
| `LibAlloc.Heap.Carve` | src/lib/alloc.c:335-363 | the block keeps the whole tag when less than 256 bytes, without a header, would be left over, and just what it needs otherwise; then and only then the rest becomes one listed tag more; no other block is disturbed |
| `LibAlloc.Heap.Malloc` | src/lib/alloc.c:273-375 | a block that was not in use holds the request; it is the first fit of its class or a new run, of that size or cut down to the request exactly as above; the invariant holds; all other blocks keep place, room and contents |
| `LibAlloc.Heap.Coalesce` | src/lib/alloc.c:400-417 | both melt loops end after at most one round and leave no free neighbour |
| `LibAlloc.Heap.Retire` | src/lib/alloc.c:419-455 | the merged tag is listed, or its run goes back when five whole runs of its class are cached; the counters stay exact |
| `LibAlloc.Heap.ReleaseRun` | src/lib/alloc.c:431-438 | liballoc_free is only called with the base of a run and its own page count |
| `LibAlloc.Heap.Free` | src/lib/alloc.c:377-463 | exactly that block is gone, all others keep place and room; NULL and addresses without the magic number in memory change nothing; the page runs afterwards are told in the client's terms |
| `BoundaryTags.RunsWithoutIs` | src/lib/alloc.c:422-447 | which that is: the run goes back exactly when the block was the last one in it and five whole runs of its class are cached |
| `LibAlloc.Heap.Realloc` | src/lib/alloc.c:479-506 | the first min(old, new) bytes move along and no other block changes; size 0 frees, NULL allocates |
| `ByteCopy.CopyWords` | src/lib/alloc.c:74-97 | the word-then-byte copy is the simultaneous copy for every length |
| `ByteCopy.MemCpy` | src/lib/mem.c:15-26 | memcpy is the simultaneous copy where the ranges allow it |
| `ByteCopy.MemMove` | src/lib/vec.c:10-30 | memmove is the simultaneous copy however the ranges overlap |
| `Pmm.BitAfterSet` | src/kernel/arch/memory/pmm.c:7 | BIT_SET sets one bit and keeps all others |
| `Pmm.BitAfterClear` | src/kernel/arch/memory/pmm.c:8 | BIT_CLEAR clears one bit and keeps all others |
| `Pmm.FrameAllocator.SetPage` | src/kernel/arch/memory/pmm.c:26-30 | exactly one frame leaves the set of clear frames |
| `Pmm.FrameAllocator.ClearPage` | src/kernel/arch/memory/pmm.c:20-24 | exactly one frame joins it |
| `Pmm.FrameAllocator.Free` | src/kernel/arch/memory/pmm.c:41-48 | exactly the run becomes clear; the counter stays right if and only if none of it was clear |
| `Pmm.FrameAllocator.Allocate` | src/kernel/arch/memory/pmm.c:50-79 | the run starts at the least clear frame; NULL exactly for no pages, too many pages or no clear frame; the counter stays right if and only if the whole run was clear |
| `Pmm.PageRuns` | src/kernel/arch/memory/pmm.c:41-149 | from the state pmm_initialize leaves, over any run of single pages handed out and freed as the contracts of Allocate and Free say, every managed frame is clear or in use and never both, the bitmap's own frames are never handed out, and the counter is the number of clear frames |
| `Pmm.TwoPagesOverlap` | src/kernel/arch/memory/pmm.c:58-74 | a request for two pages takes a frame that is in use |
| `Pmm.BitmapCovers` | src/kernel/arch/memory/pmm.c:113 | the bitmap has a bit for every frame if and only if the frame count is a multiple of 8 or its eighth does not fill whole pages |
| `Pmm.BitmapSizeIs` | src/kernel/arch/memory/pmm.c:113 | the bitmap is the least number of whole pages with room for an eighth of the frames, rounded down |
| `Pmm.TopIs` | src/kernel/arch/memory/pmm.c:97-111 | the highest address is the end of some range of a type that counts, and no such range ends above it |
| `Pmm.UsableIs` | src/kernel/arch/memory/pmm.c:140-149 | the usable frames are exactly the whole pages of the ranges of type 1 |
| `Pmm.OneBitShort` | src/kernel/arch/memory/pmm.c:113 | 0x8001 frames get 0x8000 bits |
| `Pmm.ShrunkMap` | src/kernel/arch/memory/pmm.c:131-137 | taking the bitmap's pages off one range takes exactly their frames off the map |
| `Pmm.FrameAllocator.Reserve` | src/kernel/arch/memory/pmm.c:127-138 | the bitmap goes to the first usable range that can hold it |
| `Pmm.FrameAllocator.Initialize` | src/kernel/arch/memory/pmm.c:90-149 | the clear frames are exactly the usable ones without those of the bitmap, which come off the first range that can hold it, and the counter is their number |
| `PageTables.SamePage` | src/kernel/arch/memory/vmm.c:9 | the four indices determine, and are determined by, address bits 12 to 47 |
| `PageTables.WalkIsLookup` | src/kernel/arch/memory/vmm.c:14-23 | the processor's walk through memory and the lookup in the forest of tables agree |
| `PageTables.TablesDistinct` | src/kernel/arch/memory/vmm.c:16-20 | no frame holds two tables |
| `PageTables.UpperHalfShared` | src/kernel/sched.c:46-49 | every address space shows the upper half as the kernel's does, but for slots in which it has parted from it |
| `PageTables.TableAdded` | src/kernel/arch/memory/vmm.c:16-20 | a new table keeps the forest and changes no lookup |
| `PageTables.LeafSet` | src/kernel/arch/memory/vmm.c:47 | a leaf entry changes the lookups of one page, and of that page only in the address spaces that share its table |
| `PageTables.TablesKept` | src/kernel/arch/memory/vmm.c:14-23 | what leaves the frames of all tables alone keeps the forest and every translation |
| `PageTables.RootAdded` | src/kernel/sched.c:42-49 | a new top-level table with the kernel's upper entries joins the forest |
| `Paging.FlagsMasked` | src/kernel/arch/memory/vmm.c:22 | masking off nine bits gives the address of the table |
| `Paging.Mapper.constructor` | src/kernel/arch/memory/vmm.c:85 | the kernel's top-level table, in the least clear frame, is a forest alone |
| `Paging.Mapper.AllocateZero` | src/kernel/arch/memory/pmm.c:81-88 | exactly the frames of the answer are zeroed, whatever they held; when they hold no table the forest stays in order and no translation changes |
| `Paging.Mapper.GetNextLevel` | src/kernel/arch/memory/vmm.c:14-23 | the table below, found or made in a frame that was clear; no translation changes, in the upper half too, with any number of address spaces |
| `Paging.Mapper.Map` | src/kernel/arch/memory/vmm.c:35-51 | the page leads to the frame wherever its table is shared; every other page of every address space leads where it led; one clear frame is taken for each table that was missing and no data changes |
| `Paging.Mapper.Unmap` | src/kernel/arch/memory/vmm.c:53-65 | the page leads nowhere; every other page leads where it led |
| `Paging.PartedIs` | src/kernel/arch/memory/vmm.c:16-20 | a new table makes address spaces part in the upper half exactly when its slot had no table and was not already parted |
| `Paging.TrimmedReady` | src/kernel/arch/memory/pmm.c:58-74 | frames taken one by one from the least up shorten the run that is ready there by no more than their number |
| `PageRuns.MapThenUnmap` | src/kernel/arch/memory/vmm.c:35-65 | mapping and unmapping an unmapped page restores every translation |
| `PageRuns.LowerRunsArePrivate` | src/kernel/arch/memory/vmm.c:35-65 | any run of maps and unmaps in the lower half of one address space leaves its upper half and all other address spaces alone |
| `PageRuns.LeavesAt` | src/kernel/arch/memory/vmm.c:67-73 | each page of a mapped run leads to its own frame |
| `PageRuns.LeavesOutside` | src/kernel/arch/memory/vmm.c:67-73 | all other pages lead where they led |
| `PageRuns.MapRange` | src/kernel/arch/memory/vmm.c:67-73 | the range is mapped page by page, nothing else changes, and exactly the missing tables are made, for which alone it needs clear frames |
| `PageRuns.FewTables` | src/kernel/arch/memory/vmm.c:14-23 | these are at most one for each block of 512 pages that the run touches, one for each of 512 such blocks, and one for each of 512 of those |
| `PageRuns.TablesBound` | src/kernel/arch/memory/vmm.c:14-23 | so n pages take no more than n/512 + n/512^2 + n/512^3 + 6 tables, wherever they lie |
| `AddressSpaces.MapKernel` | src/kernel/arch/memory/vmm.c:85-101 | the kernel's address space: 128 MiB at MMAP_KERNEL_BASE, the direct map from MMAP_IO_BASE on, nothing else in the upper half and nothing below; its tables and no others are made, for which alone it needs clear frames |
| `AddressSpaces.DirectPagesIs` | src/kernel/arch/memory/vmm.c:88-101 | the direct map ends at 4 GiB or at the end of the longest usable range, rounded up to pages, whichever is more |
| `AddressSpaces.DirectMap` | src/kernel/arch/memory/vmm.c:88-101 | MMAP_IO_BASE + x leads to x, present and writable, if and only if x lies below the end of the direct map |
| `AddressSpaces.KernelImage` | src/kernel/arch/memory/vmm.c:87 | MMAP_KERNEL_BASE + x leads to x, present and writable, for every x below 128 MiB |
| `AddressSpaces.KernelFrames` | src/kernel/sched.c:42-44 | the frame fr is reached at MMAP_KERNEL_BASE if and only if it lies in the first 128 MiB; no other address of that form is mapped |
| `AddressSpaces.HighMemoryUnreachable` | src/kernel/arch/memory/vmm.c:90-101 | usable memory above 4 GiB that the kernel cannot reach |
| `AddressSpaces.AddRoot` | src/kernel/sched.c:42-49 | it finishes if and only if the kernel reaches the new table and its own; then there is a new address space with an empty lower half and the kernel's upper half, and all others are unchanged |
| `AddressSpaces.NewTask` | src/kernel/sched.c:34-59 | it finishes if and only if the frame behind those of the stack, and the kernel's table, lie below 0x8000; then the address space of the new process is the kernel's upper half and four zeroed stack pages below USER_STACK_TOP, nothing else, in frames that were clear, are taken and hold no table, and isolation is kept; otherwise five frames are lost and nothing else changes |
| `AddressSpaces.TableOutOfReach` | src/kernel/sched.c:34-49 | with 16 clear frames from 0x7ffc on the new table lands in frame 0x8000, out of reach |
| `Isolation.FreshRunIsolated` | src/kernel/arch/memory/vmm.c:132-141 | mapping fresh frames, one to a page, keeps every frame of a lower half to one page of one address space, taken, and no table |
| `Isolation.QuietIsolated` | src/kernel/sched.c:42-49 | so does adding tables and an address space with an empty lower half |
| `Isolation.WritesKeepTables` | src/kernel/elf.c:51-52 | then a byte written through a page of a lower half changes no table and no translation |
| `Isolation.WritesStayPrivate` | src/kernel/elf.c:51-52 | and nothing that is read through any other page of any lower half |
| `Mmap.Map` | src/kernel/arch/memory/vmm.c:106-143 | the least number of pages that hold the size asked for lead, from the returned address on, to frames of their own, zeroed and fresh; the address is the hint for MAP_FIXED and otherwise the next place, and used_pages follows; everything else leads where it led; isolation is kept |
| `Mmap.RangesDisjoint` | src/kernel/arch/memory/vmm.c:125-130 | the ranges of successive calls for one process lie above ALLOC_BASE, each with all its bytes after those before, whatever used_pages was to begin with |
| `Mmap.RangesKept` | src/kernel/arch/memory/vmm.c:106-143 | over any run of calls for any processes, every page of every range handed out so far leads to its own frame, zeroed as it was mapped, taken, and no table |
| `Mmap.BytesKept` | src/kernel/arch/memory/vmm.c:106-143 | so every byte of every range, up to the size asked for, is mapped and reads zero |
| `Mmap.RangeFramesDiffer` | src/kernel/arch/memory/vmm.c:106-143 | and no frame is behind two of these pages, of one process or of two |
| `Mmap.CallsKeepApart` | src/kernel/arch/memory/vmm.c:106-143 | and isolation holds after every call |
| `Elf.ReachedAll` | src/kernel/elf.c:17-25 | all headers are read if and only if the caller takes the interpreter's path or no header names one |
| `Elf.LoadsReached` | src/kernel/elf.c:17-25 | all PT_LOAD headers are read if and only if the caller takes the interpreter's path or none stands behind a PT_INTERP |
| `Elf.NothingReached` | src/kernel/elf.c:17-25 | of a program whose interpreter is named first nothing is loaded otherwise |
| `Elf.SegmentPlace` | src/kernel/elf.c:41-49 | byte o of a segment is on page (misalign + o) / 4096 of its run, for any misalignment |
| `Elf.PageCountIs` | src/kernel/elf.c:41-42 | a segment takes the pages from that of its first byte to that of its last, no more; an empty one takes none, or one when it does not begin on a page boundary |
| `Elf.SegmentTranslates` | src/kernel/elf.c:44-51 | the virtual address of a segment's byte leads to where memcpy and memset put it |
| `Elf.LoadSegment` | src/kernel/elf.c:39-53 | reading the segment through the page tables gives the file's bytes, then zeros, from fresh frames that hold no table; tables, other data and isolation are kept |
| `Elf.AllOutside` | src/kernel/elf.c:46-49 | segments that share no page: no byte of one lies in a page of the other |
| `Elf.StaysLoaded` | src/kernel/elf.c:39-53 | a loaded segment stays readable when fresh frames are mapped elsewhere |
| `Elf.LoadProgram` | src/kernel/elf.c:17-58 | wherever each segment in turn finds a clear run for its pages and frames for its tables: all segments read back at once; no page outside the image and no other address space changes; isolation is kept; entry point, AT_PHDR, AT_PHENT, AT_PHNUM and interpreter path are those of the headers |
| `Elf.ImageReads` | src/kernel/elf.c:51-52 | what that says of a byte: at base + vaddr + o the process reads byte o of the segment in the file, and zero behind file_size |
| `Elf.PhdrAddressIs` | src/kernel/elf.c:13-37 | at_phdr is 0 without a PT_PHDR header and otherwise what the last one says |
| `Elf.InterpreterPathIs` | src/kernel/elf.c:19-32 | the path is what the last PT_INTERP header says |
| `Elf.OneRunIsEnough` | src/kernel/elf.c:39-53 | one clear run for all pages and tables at the least clear frame is more than enough |
| `InitialStack.WordRoundTrip` | src/kernel/sched.c:227-231 | a stored word reads back |
| `InitialStack.PushStrings` | src/kernel/sched.c:200-213 | the strings stand one below the other with their terminators |
| `InitialStack.PushPointers` | src/kernel/sched.c:237-251 | the pointers stand in order, each counted from the user's stack top |
| `InitialStack.StringFound` | src/kernel/sched.c:200-242 | each pointer's offset is that of its own string |
| `InitialStack.StackParses` | src/kernel/sched.c:193-257 | the start-up reader recovers argc, all argv and envp strings through their pointers, both NULL markers and the auxiliary vector |
| `InitialStack.BuildStack` | src/kernel/sched.c:193-257 | the built stack is one the reader recovers everything from, no larger than alignment demands, and rsp is 16-byte aligned |
| `InitialStack.StackLayout` | src/kernel/sched.c:223-253 | word by word from rsp on: argc, argv and NULL, envp and NULL, then 22, 21, 20 and 10 with the values of AT_PHNUM, AT_PHENT, AT_PHDR and AT_ENTRY, and zero |
| `Processes.WordStored` | src/kernel/sched.c:227-253 | a word pushed byte by byte is the word the processor reads there |
| `Processes.StringsReadBack` | src/kernel/sched.c:193-257 | through the page tables of the new process, the words that argv and envp hold are addresses at which exactly the strings given stand, terminated |
| `Processes.NewProcess` | src/kernel/sched.c:150-257 | task_init, loading and the stack one after the other: in a new address space all segments read back, and start-up code finds its arguments and, under 10, 20, 21 and 22, the entry point and header address that the loader returned, 56 and the number of program headers; all other address spaces are as they were, isolation is kept, and it finishes exactly when task_init does |
| `Processes.StillStarts` | src/kernel/arch/memory/vmm.c:106-143 | memory mapped on other pages leaves program, arguments and stack as they are |
| `Processes.MissesStack` | src/kernel/arch/memory/vmm.c:125-130 | a range has no page of the stack if and only if it ends below the stack or begins above it |
| `Processes.StackReplaced` | src/kernel/sched.c:26-34 | a leftover used_pages with which it has |
| `Processes.Launch` | src/kernel/arch/memory/vmm.c:106-143 | a process and its first mapping, in whatever state the kernel is, as long as it is sound: it is sound again, the pages from the place on that used_pages gives, as many as the size takes, are zeroed frames of their own, and the program can still start unless they replace pages of its own |
| `Processes.Boot` | src/kernel/main.c:70-71 | from the bootloader's memory map to a running process with a mapping: the direct map reaches all that the mapper hands out, address spaces are apart, and with enough clear frames below 0x8000 task_init finishes |
| `Scheduler.Sched.TickOnce` | src/kernel/sched.c:85-112 | the statics change as the specification says on which fairness and context switching are proved, and the task returned is the current one |
| `Scheduler.Sched.PushTask` | src/kernel/sched.c:120-128 | a process joins the end of the queue, and all other statics stay |
| `Scheduler.PushedLast` | src/kernel/sched.c:120-128 | it stands last, all others keep their places, and the one that is due stays due unless the index is at the end of the queue |
| `Scheduler.NewcomerWaits` | src/kernel/sched.c:85-128 | every process from the index on is returned before the new one is, at the tick given by its place |
| `Scheduler.ServedInTurn` | src/kernel/sched.c:85-112 | places are served one after the other: before place j is first returned, only places before it are |
| `Scheduler.Sched.RemoveTask` | src/kernel/sched.c:130-135 | the first occurrence leaves the queue, the index stays |
| `Scheduler.TickReady` | src/kernel/sched.c:94-111 | 0 <= index <= length and a counter in 0..9 survive every tick |
| `Scheduler.PushReady` | src/kernel/sched.c:125 | and every push |
| `Scheduler.RemoveKeepsBound` | src/kernel/sched.c:98-133 | removing keeps the bound if and only if the process is not queued or the index is not at the end |
| `Scheduler.LastOneExits` | src/kernel/sched.c:98-133 | it is lost when the process at the end of the queue exits |
| `Scheduler.RemovePassesOver` | src/kernel/sched.c:96-133 | the next switch stays as it was if and only if the removed process stands behind the one that is due or only that one is left; when it stands before, the due one is passed over |
| `Scheduler.RemovedRunning` | src/kernel/sched.c:96-133 | after the running process is removed the statics are those of a queue in which the process behind it is running |
| `Scheduler.RemovedFair` | src/kernel/sched.c:85-135 | of the next 10 n ticks, n processes being left, each gets exactly 10, but the one behind the removed one only what was left of the time slice; from the next switch on the state is one for which FairWindow holds |
| `Scheduler.FairWindow` | src/kernel/sched.c:85-118 | any 10 n ticks in a row return each of n distinct processes exactly 10 times |
| `ContextSwitch.Cpu.Handle` | src/kernel/arch/interrupts.c:25-58 | a timer interrupt is a save, a pick and a restore once scheduling has started; what follows depends on the frame that is then live |
| `ContextSwitch.Projection` | src/kernel/arch/interrupts.c:25-40 | over any interleaving of arbitrary steps, timer interrupts, new and removed processes, each one's registers are those of a solo run of its own steps |
| `ContextSwitch.Resumes` | src/kernel/arch/interrupts.c:29-39 | a process resumes with exactly the registers it had when it was interrupted |
| `ContextSwitch.TimerDispatches` | src/kernel/arch/interrupts.c:39-53 | a timer interrupt is taken for a system call if and only if it switches to another process whose initial frame holds 0x42 |
| `ContextSwitch.FirstSwitchDispatches` | src/kernel/arch/interrupts.c:39-53 | such a switch, to the only process there is |
| `Vec.MoveRefines` | src/lib/vec.c:100-121 | a byte move between element boundaries is the move of the elements |
| `Vec.TimesIsProduct` | src/lib/vec.c:100-102 | the byte offset of element i is i * memsz |
| `Vec.Vector.Expand` | src/lib/vec.c:32-45 | room for one more, contents unchanged |
| `Vec.Vector.ReservePo2` | src/lib/vec.c:61-70 | enough room, and a new capacity is the least power of two that is |
| `Vec.Vector.Push` | src/lib/vec.h:34-35 | the element is appended |
| `Vec.PushesAreCheap` | src/lib/vec.c:34-43 | n pushes from empty copy fewer than 2 n elements and leave a capacity that is a power of two below 2 n |
| `Vec.Vector.Insert` | src/lib/vec.c:94-104 | the element is inserted at its index |
| `Vec.Vector.Splice` | src/lib/vec.c:106-113 | exactly the range is removed |
| `Vec.Vector.SwapSplice` | src/lib/vec.c:115-122 | the last elements are moved over the range, as the overlapping byte move does it |
| `Vec.SwapSpliceExact` | src/lib/vec.c:115-122 | for distinct elements, exactly the chosen ones are removed if and only if tail and hole are disjoint or identical |
| `Vec.WrongOneStays` | src/lib/vec.c:115-122 | of a, b and c without the first two, b stays |
| `Vec.SwapSpliceRemoves` | src/lib/vec.c:115-122 | for any elements, that condition is enough |
| `Vec.Vector.Swap` | src/lib/vec.c:124-143 | swapping bytes swaps the elements |
| `Vec.Vector.Find` | src/lib/vec.h:90-100 | the first index of the element, or -1 if it is not there |
| `Vec.Vector.Remove` | src/lib/vec.h:102-109 | the first occurrence is removed, everything else stays |
| `Vec.Vector.Reverse` | src/lib/vec.h:111-119 | the elements are reversed |
| `Vec.Vector.PushArr` | src/lib/vec.h:75-85 | all elements are appended in order |
| `Paths.StrLen` | src/lib/str.c:4-12 | the distance to the first NUL |
| `Paths.StrChr` | src/lib/str.c:67-77 | the first occurrence of the character, NUL included, or NULL if there is none |
| `Paths.StrStr` | src/lib/str.c:26-42 | the first occurrence of the string, or NULL if there is none |
| `Paths.Tokenizer.StrTok` | src/lib/str.c:80-105 | each call hands out the part before the next slash and leaves the part behind it; what was handed out before stays as it is |
| `Paths.ParsePath` | src/kernel/fs/vfs.c:92-108 | the tokens are the segments of the path |
| `Paths.JoinSplit` | src/kernel/fs/vfs.c:92-108 | joining the segments gives the path back and no segment holds a slash |
| `Paths.SplitJoin` | src/kernel/fs/vfs.c:92-108 | there is no other way to take a path apart |
| `Paths.StrDup` | src/lib/str.c:107-122 | a fresh copy that reads as the same string |
| `Paths.Basename` | src/lib/str.c:44-65 | the last segment of an absolute path longer than "/"; any other path is returned whole |
| `Vfs.RelativeBase` | src/lib/str.c:44-65 | a/b is returned whole |
| `Paths.Dirname` | src/lib/str.c:123-154 | the path up to its last slash, or "/" |
| `Paths.DirectoryAndBase` | src/lib/str.c:44-154 | directory and last segment of an absolute path make up the path |
| `Vfs.FileTree.FindNode` | src/kernel/fs/vfs.c:110-132 | the first child of that name, through the alias first |
| `Vfs.FileTree.GetParent` | src/kernel/fs/vfs.c:134-168 | for every path the answer is the directory, NULL or a NULL dereference as `Vfs.Landing` tells them apart |
| `Vfs.ParentIsWalk` | src/kernel/fs/vfs.c:140-162 | for a path with a leading slash and no empty inner segment the loop is the walk down all components but the last, and it dereferences NULL if and only if that walk is lost before the last directory |
| `Vfs.LostPathFaults` | src/kernel/fs/vfs.c:140-162 | /a/b/c without /a ends in a NULL dereference |
| `Vfs.ParentIsLanding` | src/kernel/fs/vfs.c:134-168 | every path: the walk starts over at each empty segment; what stands before it matters only in that it must exist, and a last segment right behind it is itself looked up |
| `Vfs.DoubleSlash` | src/kernel/fs/vfs.c:152-160 | the directory of /a//b is taken to be /b |
| `Vfs.FirstSegmentIgnored` | src/kernel/fs/vfs.c:140-151 | the first segment of a path plays no part in its resolution |
| `Vfs.RelativePath` | src/kernel/fs/vfs.c:140-151 | x/f is the child f of the root, whether or not there is an x |
| `Vfs.FileTree.Open` | src/kernel/fs/vfs.c:175-239 | answer and new state as the lemmas below tell them; where aliases hold no children nothing that was found is lost; pointers stay valid if and only if the file's block brings no bad one along |
| `Vfs.OpenAnswers` | src/kernel/fs/vfs.c:175-239 | for every path: EISDIR if and only if the node is a directory and O_DIRECTORY is clear, ENOENT if and only if there is no directory to look in, or no node and O_CREAT is clear, a fault if and only if the walk faults, and no node changes then; otherwise a node opens, an existing one or its alias's target with its mode set and nothing else changed, or a new file, with its name, kind, parent and mode, at the end of the directory |
| `Vfs.OpenAbsolute` | src/kernel/fs/vfs.c:175-239 | for an absolute path that directory is where the walk ends |
| `Vfs.AdoptedFind` | src/kernel/fs/vfs.c:222 | which lookups a new child answers; all others are as they were |
| `Vfs.AdoptedKeeps` | src/kernel/fs/vfs.c:110-132 | adding a child keeps every successful lookup if and only if no alias of the directory holds that name itself |
| `Vfs.OpenKeeps` | src/kernel/fs/vfs.c:175-239 | a call breaks a pointer if and only if it creates a file in a block whose leftover pointers are bad, and loses a path if and only if it creates a file that shadows one |
| `Vfs.CreateThenReopen` | src/kernel/fs/vfs.c:199-238 | creating a file on a fresh path and opening that path again gives the same node if and only if the second call has O_CREAT or the block's leftover points_to is NULL or the node itself |
| `Vfs.StaleAlias` | src/kernel/fs/vfs.c:208-236 | a file in a block whose points_to still leads to the root opens as the root |
| `Vfs.PathsStay` | src/kernel/fs/vfs.c:199-238 | while aliases hold no children, every path that led to a node leads to the same node after any call |
| `Vfs.AliasesStayEmpty` | src/kernel/fs/vfs.c:214-222 | aliases go on holding no children if and only if no file is created in one, or in a block whose leftovers make it one |
| `Vfs.MakesD` | src/kernel/fs/vfs.c:11-63 | what vfs_mkdir of /d makes of the empty tree |
| `Vfs.MakesX` | src/kernel/fs/vfs.c:199-222 | and what vfs_open of /d/../x makes of that: the file is a child of the alias |
| `Vfs.ShadowedPathIsLost` | src/kernel/fs/vfs.c:112-129 | in that tree /d/../x leads to another file once /x is created |
| `Vfs.FileTree.MkDir` | src/kernel/fs/vfs.c:11-63 | answer and new state as `Vfs.MakeAnswers` tells them; where aliases hold no children nothing that was found is lost; pointers stay valid if and only if the three blocks bring no bad one along |
| `Vfs.MakeAnswers` | src/kernel/fs/vfs.c:11-63 | for every path, "/" too: ENOENT if and only if there is no parent, and no node changes then; otherwise the new directory hangs in it, with its name and parent, ".." that leads to the parent and "." that leads to itself as its children, and nothing else changed |
| `Vfs.MadeDirectory` | src/kernel/fs/vfs.c:19-48 | the new directory is found at its path; "." leads to it, ".." to its parent, every older path stays and aliases hold no children, if and only if the fields that vfs_mkdir leaves alone read as empty and the parent is no alias |
| `Vfs.DirectoryKeeps` | src/kernel/fs/vfs.c:19-48 | a new directory breaks a pointer if and only if one of its blocks brings a bad one along; whatever they bring, no path is lost where aliases hold no children |
| `Ustar.GetSize` | src/kernel/fs/ustar.c:23-34 | the digits' octal value in wrapping 32-bit arithmetic, whatever the characters |
| `Ustar.SizeRoundTrip` | src/kernel/fs/ustar.c:23-34 | getsize inverts eleven-digit octal printing if and only if the size is below 2^32 |
| `Ustar.Fifteen` | src/kernel/fs/ustar.c:23-34 | 00000000017 reads as 15 |
| `Ustar.NegativeDigit` | src/kernel/fs/ustar.c:23-34 | a character above 127 counts as a negative digit |
| `Ustar.HugeFile` | src/kernel/fs/ustar.c:23-34 | 2^32 reads as 0 |
| `Ustar.CreateFiles` | src/kernel/fs/ustar.c:36-86 | the loop makes exactly the visits of the walk |
| `Ustar.HeaderLayout` | src/kernel/fs/ustar.c:11-21 | name, size and type stand at 0, 124 and 156 of a header |
| `Ustar.WalkVisits` | src/kernel/fs/ustar.c:42-83 | walking an archive visits exactly its members, in order, each with its path, kind, size and data address |
| `Ustar.DataInPlace` | src/kernel/fs/ustar.c:72-82 | visit i makes the directory of that name without its last character, or the file with its size and the address at which its bytes are; both paths begin with a slash |

## Left out

- Locks: the guarded sections are short and run on one processor; each operation is one atomic step.
- Out of memory: malloc, realloc and the page allocator are assumed to succeed where the kernel does not look, so the paging and loading methods ask for enough clear frames; `liballoc_alloc` adds an offset to a NULL answer (src/kernel/main.c:25-28).
- Sizes whose request and header, rounded up to pages, reach 2^31: getexp shifts a signed 1 by 31, which C leaves undefined.
- calloc: malloc and a fill.
- Uninitialised memory: `init` of a VfsNode, which only tmpfs reads, is left out. `points_to`, `children`, `used_pages` and `intno` are whatever malloc's block holds.
- LibAlloc.Heap.Free: a pointer must be NULL, live, or without the magic number in front of it. Anything else passes the test and is treated as a header: a block freed twice, or an address at which a client, or an old header, left the four bytes.
- Pmm.FrameAllocator.Allocate: a run must end inside the bitmap, where the code would write beyond it; `usable_pages` is an unbounded integer, so a count that a partly taken run makes too small becomes negative instead of wrapping.
- Elf.LoadProgram: each segment must find the frames it takes clear, in one run from the least clear frame on (`Elf.SegmentsReady`), because `pmm_allocate` does not look at more than the first frame of a run; file_size <= memory_size and disjoint page ranges are asked of the file.
- AddressSpaces.NewTask: the same is asked for its four stack frames.
- Processes.NewProcess: one run for stack, tables and all segments together is asked for; the stack is built in a zeroed buffer and copied into its zeroed frames, where the code builds it in place; reading the file, the standard streams, the interpreter's own image and the initial registers are left out. It asks that no segment has a page of the stack.
- Processes.Boot: the direct map must reach all usable frames, as `InReach` demands; the heap, the drivers and the file system, which take frames in between, are left out.
- Freeing a process: `sys_exit` frees the stack and the top-level table of the process that runs on them (src/kernel/syscalls.c:186-187); isolation is proved for processes that have not exited.
- The section-header loop of the ELF loader (src/kernel/elf.c:60-79).
- Paging.Mapper.Map: flags are below 0x200 with bit 0 set, physical addresses page-aligned, as all callers have it; effective permissions, which also depend on the flags of the first mapping under a table, are not stated.
- The rest of `task_init`: pid, descriptors and the initial rsp, rip, rflags, cs and ss, which are plain assignments.
- TLB flushes, CR3 writes, port I/O, the PIC, GDT, IDT and SSE set-up: hardware effects without logic.
- FPU state in the timer path: it is stored through a pointer field.
- Mmap.Map: a mapping that is not anonymous waits for ever and is not modelled.
- Scheduler.Sched.TickOnce: with an empty queue the code waits for an interrupt; the method asks for a process in the queue.
- `sys_execve` and `sys_close`, which set index, tick and files directly.
- InitialStack.BuildStack: strings and pointers must fit the stack of 0x4000 bytes.
- Paths.Tokenizer.StrTok: the only delimiter is "/", as in every call.
- Vfs.FileTree.MkDir: mount points are not modelled; the node that vfs_mkdir abandons when there is no parent is not counted.
- `tmpfs_read` and `tmpfs_write`: every write grows the size by its count, even over old bytes, so no byte-sequence file stands behind them; `devfs`; the user programs.
- Ustar.CreateFiles: the copied path is taken as terminated, which the code leaves to chance; each visit stands for a call of vfs_mkdir or tmpfs_create_file.
- Vec: int overflow of lengths and byte counts; `vec_compact_`, `vec_sort` and the one-line accessors.
