# Toystar: a verified model of its memory, scheduling and name-resolution core

Toystar is a small x86_64 kernel. This project models, in Dafny, the parts of it that work by rewriting linked
structures in place and are right only because of an invariant that no single function states:

- **The kernel heap** (`Wrappers`, `Arith`, `Bytes`, `BuddySpec`, `BuddyAllocator`). `BuddySpec` describes the arena as a tiling by
  blocks and one list per order. `BuddyAllocator` is the allocator itself: headers are bytes of memory, the lists are the
  `next` words in them, and every pointer is an address. The main result is the invariant behind `try_to_merge`: between
  calls no list holds two buddies, so during a free only the pushed head can have one.
- **Physical frames** (`Bitmap`, `PmmSpec`, `Pmm`). The bitmap allocator against a flat account of outstanding runs.
- **Page tables** (`PageTables`, `Vmm`, `AddressSpaces`). Tables are bytes in frames; the tree they form refines one flat
  map per address space, over any run of operations on any number of page maps.
- **Programs** (`Elf`, `Programs`, `Stores`). The program-header loop on top of the two, down to the byte the processor
  reads; programs that are loaded and destroyed beside each other; and where their stores can go.
- **The scheduler** (`SchedSpec`, `Scheduler`). A transition system with any number of cores, with the gap between the
  release of the lock and the publication of the choice as a phase of its own. New threads may join any process, which is
  more than the source does, so the theorems also cover processes with several threads.
- **Mounts** (`SiblingTree`, `MountTree`, `Vfs`). The tree of path fragments against a flat table of mounts.
- **tmpfs** (`TmpfsSpec`, `TmpfsCreation`, `Tmpfs`). Path resolution against an index from (directory, name) to entry.

A module named `…Spec` (or `MountTree`, `TmpfsCreation`, `PageTables`) holds states as values, the steps on them and the
theorems about all runs. The class beside it changes its fields as the source does, and its `ensures` say that each method
is such a step.

Where the code does less than its documentation or its author meant, the model follows the code:

- `map_range_raw` includes the page at its upper end, so a range maps one page more than it is long
  (src/kernel/memory/vmm.cpp:82). The loader and `destroy` are shown right all the same. The extra page maps the
  frame behind the segment's run, and `ExtraMapped` says exactly when mapping the segment makes that frame one of its own
  page tables; in memory that is taken from the bottom it does (`ExtraIsTable`,
  `FirstSegment`). The page is open to stores of the program if the segment is writable, so that programs are not always
  kept apart: `LoadedReaches` says which frames a loaded program can store to, `HarmlessIff` and `LoadContainedIff` give
  the exact conditions, `RunSafe` what holds where they are met, and `ExtraHandedOn` with `StoreLost` the failing case.
- The presence test `!entry & 1` is `entry == 0` (src/kernel/memory/vmm.cpp:54). It is sound because interior entries are
  0 or present, an invariant of `PageTables.TreeOk`.
- `split_block`'s guard joins two conditions that exclude each other (src/kernel/memory/heap.cpp:88), so it never refuses.
- `kfree` turns away a pointer above the arena only if it is more than 2^20 past its start
  (src/kernel/memory/heap.cpp:211-213). The address just past the arena passes the test and is taken for a block
  (`PastTheEnd`), so `destroy`, which ends with a `delete` of the root table, needs a root that does not lie there.
- `krealloc` copies the old block's full size when the request is larger (src/kernel/memory/heap.cpp:242-243), which
  reaches past the old payload by a header. It stays inside the new block, so no other live block is touched. If there is no new block
  it copies to address 0 (src/kernel/memory/heap.cpp:240-246); the model calls that a fault.
- A heap whose base is page aligned but not 1 MB aligned does not always coalesce: `CoalescesIffAligned` says exactly when.
- A mount hides older mounts below its target. The tree resolves a path by the *latest* matching mount, and this is the
  longest match exactly when parents are mounted first (`LongestIffParentsFirst`; `ChildFirst` is a concrete case).
- tmpfs creates `/x/y` as `/y` if the root has no entry `x`; if there is a `/y` already it is made a second time, and its
  path leads to the new one (`TwoMissing`). It opens a file `/a` under the path `/a/a`
  (`OpenedBeyond`), refuses an entry that has its directory's name (`OwnNameRefused`), makes a directory below a file
  (`BelowMade`), and cannot reach a name that begins with a dot by a relative path. `PlacedIff`, `GoodIff`, `RunGoodIff`,
  `OpenedIff`, `AllowedIff` and `LocateRelative` give the exact conditions.

## Model

| member | source | states |
|---|---|---|
| `Arith.XorWithPowerOfTwo` | src/kernel/memory/heap.cpp:70 | the bitwise exclusive or with `1 << order` is one addition or one subtraction of that power, for every address |
| `BuddySpec.SplitTiled` | src/kernel/memory/heap.cpp:98-108 | splitting keeps the blocks an exact tiling of the arena and every list a list of distinct blocks of its order |
| `BuddySpec.MergeTiled` | src/kernel/memory/heap.cpp:129-163 | taking a list's head and its buddy off the list and pushing their union one order up keeps the tiling and the lists |
| `BuddySpec.Granular` | src/kernel/memory/heap.cpp:98-108 | every block starts a multiple of 32 bytes above the start of the arena |
| `BuddySpec.CascadeInv` | src/kernel/memory/heap.cpp:228 | merging upward from a list whose head alone may have a buddy ends with no list holding two buddies, and changes no block in use |
| `BuddySpec.FreeCorrect` | src/kernel/memory/heap.cpp:210-231 | a free keeps the whole invariant and takes exactly one block out of use, whatever is merged on the way |
| `BuddySpec.RequestOrderMeaning` | src/kernel/memory/heap.cpp:176-181 | the order chosen is the least, from 4 on, whose blocks hold the bytes and the 24-byte header; it is at least 5 |
| `BuddySpec.MallocCorrect` | src/kernel/memory/heap.cpp:187-203 | allocation fails exactly when no block of sufficient order is free, and then changes nothing; otherwise it hands out the start of the first block of the smallest sufficient list, cut to the order asked for, with every other live block as it was |
| `BuddySpec.RunInv` | src/kernel/memory/heap.cpp:29-231 | after any sequence of allocations and releases: blocks tile the 1 MB arena without overlap or gap, lists hold distinct blocks of their order, and no list holds two buddies |
| `BuddySpec.NothingInUse` | src/kernel/memory/heap.cpp:113-173 | with a 1 MB aligned base and nothing in use, the arena is one free block of order 20 |
| `BuddySpec.RunCoalesces` | src/kernel/memory/heap.cpp:29-231 | any run over an aligned arena that has released everything is back at the state of construction |
| `BuddySpec.UnalignedStaysSplit` | src/kernel/memory/heap.cpp:70 | for a base that is not 1 MB aligned, a run that releases everything and ends split |
| `BuddySpec.CoalescesIffAligned` | src/kernel/memory/heap.cpp:29-231 | for a page-aligned base, releasing everything always restores the arena if and only if the base is 1 MB aligned |
| `BuddyAllocator.BuddyAllocator.constructor` | src/kernel/memory/heap.cpp:29-43 | the first header and bucket spell out one free block of order 20 |
| `BuddyAllocator.BuddyAllocator.FindBuddy` | src/kernel/memory/heap.cpp:49-85 | the position on the list of the buddy of the i-th block, -1 if it is not there; memory is only read |
| `BuddyAllocator.BuddyAllocator.SplitBlock` | src/kernel/memory/heap.cpp:87-111 | the header writes carry out exactly one split, or nothing on an empty bucket; no byte of a live block changes |
| `BuddyAllocator.BuddyAllocator.Unlink` | src/kernel/memory/heap.cpp:129-145 | the walk with `p` and `buddyBlock` takes exactly the head and its buddy off the list |
| `BuddyAllocator.BuddyAllocator.MergeAt` | src/kernel/memory/heap.cpp:129-165 | one merge in memory is one merge of the tiling; the walk goes on at the head of what is left |
| `BuddyAllocator.BuddyAllocator.TryToMerge` | src/kernel/memory/heap.cpp:113-173 | on a list whose head alone may have a buddy, the whole walk, its drifting index included, merges that pair once or finds nothing, never follows null, and leaves the lower list free of buddies |
| `BuddyAllocator.OnlyTheHead` | src/kernel/memory/heap.cpp:125-153 | if the walk finds a buddy at all, it is at its first step, for the head, before anything was merged |
| `BuddyAllocator.BuddyAllocator.Refill` | src/kernel/memory/heap.cpp:188-197 | the search and the splits downward are first fit and splitting down; nothing changes if there is no larger block |
| `BuddyAllocator.BuddyAllocator.Kmalloc` | src/kernel/memory/heap.cpp:175-208 | the allocator in memory does what the specified allocation does, returns the address past the header or null, and changes no byte of a live block; the address is 24 past a multiple of 32, counted from the start of the arena |
| `BuddyAllocator.BuddyAllocator.Kfree` | src/kernel/memory/heap.cpp:210-231 | exactly the pointers below the arena or more than 2^20 above its start are ignored; a pointer that was handed out is freed as specified, with no byte of the remaining live blocks changed |
| `BuddyAllocator.PastTheEnd` | src/kernel/memory/heap.cpp:211-226 | the address just past the arena passes the guard although no block can start a header before it; the link that would be written for it lies inside the last block |
| `BuddyAllocator.IgnoredIff` | src/kernel/memory/heap.cpp:211-213 | of the page addresses outside the arena, the one just past it is the only one that is not ignored |
| `BuddyAllocator.BuddyAllocator.Krealloc` | src/kernel/memory/heap.cpp:233-250 | with a new block: it is disjoint from all others in use; byte x of the new payload is byte x of the old one for every x below the request that lies in the old block (24 + x below 2^order); other payloads are unchanged and the old block is released; without one: a fault exactly if bytes were asked for, and otherwise the old block is released |
| `BuddyAllocator.PayloadWritten` | src/kernel/memory/heap.cpp:200-207 | whatever an owner writes into a payload leaves the allocator's headers and lists as they are |
| `PmmSpec.AllocInv` | src/kernel/memory/pmm.cpp:82-87 | taking a free run keeps: a page is marked exactly if reserved or outstanding; the run is disjoint from all outstanding ones |
| `PmmSpec.FreeInv` | src/kernel/memory/pmm.cpp:106-116 | returning an outstanding run keeps the same, and its pages were all marked |
| `PmmSpec.FreeCountRun` | src/kernel/memory/pmm.cpp:85-87 | marking a run moves exactly its length between free and taken |
| `PmmSpec.RunInv` | src/kernel/memory/pmm.cpp:73-128 | over any run of matched calls outstanding runs are disjoint, a page is taken exactly if reserved or outstanding, and free plus outstanding pages are constant |
| `Pmm.PhysicalMemory.SetBit` | src/klibc/bitmap.hpp:9-11 | sets the bit of one page, most significant bit first, and no other |
| `Pmm.PhysicalMemory.ClearBit` | src/klibc/bitmap.hpp:17-19 | clears the bit of one page and no other |
| `Pmm.PhysicalMemory.IsBitSet` | src/klibc/bitmap.hpp:21-27 | reads the bit of a page |
| `Pmm.PhysicalMemory.Alloc` | src/kernel/memory/pmm.cpp:73-104 | the lowest free run of that many pages, marked and zeroed, nothing else changed; none exactly if there is no such run or zero pages are asked for |
| `Pmm.PhysicalMemory.Free` | src/kernel/memory/pmm.cpp:106-116 | clears the bits of the run and no others |
| `Pmm.PhysicalMemory.GetAvailableMemory` | src/kernel/memory/pmm.cpp:118-128 | the number of free pages times the page size |
| `PageTables.PageIsNumber` | src/kernel/memory/vmm.hpp:36-50 | the four indices agree for two addresses exactly if bits 12 to 47 do |
| `PageTables.WalkTree` | src/kernel/memory/vmm.cpp:98-113 | the processor's four-level walk ends on the entry the tree gives, and faults exactly where a table is missing |
| `PageTables.StoreTree` | src/kernel/memory/vmm.cpp:49-64 | a store by user code passes only if the page's entry is present, writable and user-accessible, and outside the shared slots that is all it takes |
| `PageTables.TableLinked` | src/kernel/memory/vmm.cpp:54-60 | hanging a zeroed frame at an empty entry keeps the tree and the translation of every page |
| `PageTables.LeafWritten` | src/kernel/memory/vmm.cpp:78 | writing a last-level entry changes the translation of that page and of no other |
| `Vmm.PageMap.constructor` | src/kernel/memory/vmm.cpp:35-43 | a new page map translates nothing outside slots 256 and 511 and in these what the kernel's map translates; it takes one frame |
| `Vmm.PageMap.Adopt` | src/kernel/memory/vmm.cpp:20-33 | the kernel's page map, taken over from the boot loader as found |
| `Vmm.PageMap.GetNextLevel` | src/kernel/memory/vmm.cpp:49-64 | the table behind an entry; if the entry is 0 a zeroed one is allocated, in the lowest free frame, and put on record; no translation changes |
| `Vmm.PageMap.MapPage` | src/kernel/memory/vmm.cpp:66-79 | the page's entry becomes frame and flags, every other page translates as before, and only own tables and free frames were touched |
| `Vmm.PageMap.UnmapPage` | src/kernel/memory/vmm.cpp:87-90 | the page's entry becomes 0, every other page translates as before |
| `Vmm.PageMap.MapRangeRaw` | src/kernel/memory/vmm.cpp:81-85 | each of length/4096 + 1 pages is mapped to its frame, the one at the upper end included, and no other page changes; exactly the missing tables are made, in the lowest free frames |
| `Vmm.PageMap.MapRange` | src/kernel/memory/vmm.cpp:115-126 | the same, with the range put on record |
| `Vmm.PageMap.VirtualToPhysical` | src/kernel/memory/vmm.cpp:98-113 | the frame the page is mapped to - its entry without the low 12 bits -, 0 if none; tables may be added but no translation changes, and nothing at all if they exist |
| `Vmm.PageMap.Destroy` | src/kernel/memory/vmm.cpp:156-172 | for ranges backed by runs of their own, every frame of a range and every recorded table frame becomes free once and nothing else does; the root goes to the heap, which leaves heap and memory as they are if the root is not the address just past the arena, and its frame stays taken |
| `Vmm.TakenIff` | src/kernel/memory/pmm.cpp:78-87 | when k frames are taken one by one, a free frame is among them exactly if fewer than k free frames lie below it |
| `AddressSpaces.Bystander` | src/kernel/memory/vmm.cpp:49-90 | a page map that takes no part in a step stays well formed and apart, translates as before, and its program's bytes are unchanged |
| `AddressSpaces.SharedUntouched` | src/kernel/memory/vmm.cpp:38-42 | operations outside slots 256 and 511 leave these slots' translations as they were |
| `AddressSpaces.StepRefines` | src/kernel/memory/vmm.cpp:35-172 | each operation - new map, page set or cleared, lookup, segments loaded with their extra pages, program memory written by the kernel, store of a contained program, map destroyed - does to the page maps what it does to one flat map per address space |
| `AddressSpaces.RunRefines` | src/kernel/memory/vmm.cpp:35-172 | so does any sequence of operations on any number of page maps in which the programs that store are contained |
| `AddressSpaces.Isolation` | src/kernel/memory/vmm.cpp:35-172 | whatever is done with other page maps, and wherever contained programs store, a page map that is not itself changed translates every page as before, and the frames of its program hold the same bytes |
| `AddressSpaces.SharedAlike` | src/kernel/memory/vmm.cpp:38-42 | throughout any run the shared slots translate alike in all page maps, and as at the beginning |
| `AddressSpaces.DestroyWorldOk` | src/kernel/memory/vmm.cpp:156-172 | what a destroyed page map gives back belongs to no other: all others stay as they are |
| `AddressSpaces.ProcessorSees` | src/kernel/memory/vmm.cpp:98-113 | the walk from a page map's root finds the flat map's entry, or faults where that is 0 |
| `AddressSpaces.BootWorld` | src/kernel/memory/vmm.cpp:20-42 | the state these theorems start from exists: a kernel map with empty tables in slots 256 and 511, in any memory of at least four frames, stands for flat maps that map nothing |
| `Elf.LoadSegment` | src/kernel/loader/elf.cpp:46-68 | a segment is loaded exactly if it has pages, its bytes are in the file and a run is free; then it and all earlier segments are in memory and mapped, in the lowest run, with exactly that run and the missing tables taken; otherwise nothing is kept; no frame of anyone else is written |
| `Elf.ExtraMapped` | src/kernel/loader/elf.cpp:67-68 | the extra page maps the frame behind the run with the segment's protection; mapping makes that frame a table of the page map if and only if it was free with fewer free frames below it than tables were missing, and leaves it free if it was free otherwise |
| `Elf.PageCountLeast` | src/kernel/loader/elf.cpp:46-47 | a segment is given n pages or fewer exactly if its end lies within n pages from the start of its first page |
| `Elf.ExtraIsTable` | src/kernel/loader/elf.cpp:49-68 | with all frames below the run taken, the one behind it free and a table missing, the extra page maps a table of its own page map |
| `Elf.FirstSegment` | src/kernel/loader/elf.cpp:49-68 | the first segment loaded into a new page map where exactly the lowest frames are taken gets the next frames, and its extra page maps a table |
| `Elf.StaysLoaded` | src/kernel/loader/elf.cpp:67-68 | mapping a later segment, with its extra page, leaves an earlier one loaded |
| `Elf.Load` | src/kernel/loader/elf.cpp:41-71 | on success every byte of every loadable segment reads, through the page tables, as the file's byte or zero, in runs of frames of its own that the recorded ranges describe, and exactly these runs and tables were taken of the free frames; failure is due to a segment that has no pages, is not in the file or finds no run; either way the pages translate as the loaded segments and their extra pages say, all others as before, and nothing outside free frames and own tables is written; the program can read every address of every loadable segment, and its stores to it pass exactly if bit 1 of the header's flags is set |
| `Elf.LoadedReads` | src/kernel/loader/elf.cpp:41-69 | address vaddr + k of a loaded segment translates to file byte offset + k for k below filesz and to zero from there up to memsz |
| `Elf.LoadedAccess` | src/kernel/loader/elf.cpp:64-68 | through the processor's walk user code can read every address of a loaded segment, and a store of user code to it passes if and only if the write bit of the header's flags is set |
| `Elf.LoadedBacked` | src/kernel/loader/elf.cpp:67-68 | the ranges a load leaves on record meet what `destroy` needs |
| `Programs.LoadIsStep` | src/kernel/loader/elf.cpp:41-71 | what a successful load promises makes it the step that maps its segments: other programs are left alone |
| `Programs.SetIsStep` | src/kernel/memory/vmm.cpp:66-90 | what `map_page` and `unmap_page` promise makes them steps that set one page |
| `Programs.LookIsStep` | src/kernel/memory/vmm.cpp:98-113 | what a lookup promises makes it a step that changes no translation |
| `Programs.NewIsStep` | src/kernel/memory/vmm.cpp:35-43 | what the constructor promises makes it the step that adds a page map |
| `Programs.DestroyIsStep` | src/kernel/memory/vmm.cpp:156-172 | so does what the destruction of a loaded program promises |
| `Programs.LoadThenDestroy` | src/kernel/memory/vmm.cpp:156-172 | loading a program into a new page map and destroying it leaves exactly the frames taken that were taken before |
| `Programs.StaysReadable` | src/kernel/loader/elf.cpp:41-69 | a loaded program reads its file's bytes and then zeros at every address, whatever other programs are loaded, map, unmap and are destroyed meanwhile, if those that store are contained when they do; and it keeps being able to store exactly where its headers have the write bit |
| `Stores.ContainedIff` | src/kernel/memory/vmm.cpp:66-85 | a program can store to its own frames only, if and only if each open entry outside the shared slots leads to one of them or out of the memory |
| `Stores.LoadedReaches` | src/kernel/loader/elf.cpp:64-68 | a program loaded into an empty page map can store to a frame if and only if it holds a page of a segment whose header has the write bit, or lies behind the extra page of one on which no later segment begins |
| `Stores.LoadContainedIff` | src/kernel/loader/elf.cpp:64-68 | loading leaves a program contained if and only if the frames behind those extra pages are its own |
| `Stores.HarmlessIff` | src/kernel/loader/elf.cpp:64-68 | no store of a program disturbs any other address space if and only if none of the frames it can store to is a table, a root or part of the program of another |
| `Stores.StepSafe` | src/kernel/memory/vmm.cpp:35-172 | an operation that opens pages to a program's own frames only keeps every program contained |
| `Stores.RunSafe` | src/kernel/memory/vmm.cpp:35-172 | from a state in which all programs are contained, any run of such operations and of any stores by any programs keeps them contained |
| `Stores.SafeStaysReadable` | src/kernel/loader/elf.cpp:41-69 | in such a run a loaded program reads its file's bytes wherever and whatever other programs store, with the access its headers ask for |
| `Stores.BootSafe` | src/kernel/memory/vmm.cpp:20-42 | a state these runs may start from exists |
| `Stores.ExtraHandedOn` | src/kernel/loader/elf.cpp:49-68 | the failing case: if an open page leads to a free frame and the frame is handed to another program's segment, the first program can store to it, is not contained and not harmless |
| `Stores.LowestNext` | src/kernel/memory/pmm.cpp:78-94 | the next segment gets exactly the frame where the free ones begin |
| `Stores.StoreLost` | src/kernel/loader/elf.cpp:64-68 | and then one store makes the other program read something else than its file |
| `SchedSpec.LockedInv` | src/kernel/scheduler/scheduler.cpp:277-342 | the locked section keeps the invariant, whichever branch it takes and whatever phases the other cores are in |
| `SchedSpec.DyingDies` | src/kernel/scheduler/scheduler.cpp:296-334 | a core whose thread was told to die releases the lock with that thread dead and on no queue, and with the first waiting thread chosen if there is one |
| `SchedSpec.RunInv` | src/kernel/scheduler/scheduler.cpp:265-355 | so does every interleaving of the cores' steps |
| `SchedSpec.NoThreadLostOrDuplicated` | src/kernel/scheduler/scheduler.cpp:265-347 | from any state that meets the invariant, whatever the number of threads per process: every queued thread is on the queue once and waiting, or the thread of exactly one core and running, also between the release of the lock and publication |
| `SchedSpec.ProcessRunningIffThreadRunning` | src/kernel/scheduler/scheduler.cpp:311-342 | from any such state, whenever the lock is free a process is marked running exactly if one of its threads is, however many it has |
| `SchedSpec.TogetherInv` | src/kernel/scheduler/scheduler.cpp:265-271 | the states these theorems start from include any number of queued threads of one process |
| `SchedSpec.SiblingTakesOver` | src/kernel/scheduler/scheduler.cpp:311-340 | a thread that gives way to another of its own process leaves the process as it was when the lock is released, though its status is set to waiting in between |
| `SchedSpec.ExecutesAtHome` | src/kernel/scheduler/scheduler.cpp:344-349 | over any run a thread executes with the number, the page map and the directory that its process had all along |
| `SchedSpec.RunAgrees` | src/kernel/scheduler/scheduler.cpp:296-317 | over any run the saved and live registers of every thread are those of a machine in which each thread has registers of its own |
| `SchedSpec.ResumedWithOwnContext` | src/kernel/scheduler/scheduler.cpp:296-354 | a thread is resumed with exactly the registers it last had, on whichever core and whatever happened in between |
| `SchedSpec.ChildResumesFromFork` | src/kernel/scheduler/scheduler.cpp:400-419 | a forked child first runs with its parent's frame at the fork, except rax = 0 |
| `SchedSpec.CreatedFirstRuns` | src/kernel/scheduler/scheduler.cpp:101-132 | whatever happens in between, the thread of a created process first runs at the rip and with the cs asked for, rflags 0x202 with interrupts enabled, all other registers 0; a user program with ss 0x23 at the upper end 0x8_0000_8000 of the user stack, a kernel one with ss 0x10 at the direct-map address of the given stack; with the page map, the directory and the number of its process |
| `SchedSpec.MovesUp` | src/klibc/queue.hpp:46-60 | each locked section on any core moves a waiting thread up by one place, whatever is queued meanwhile |
| `SchedSpec.ChosenAfterItsTurn` | src/kernel/scheduler/scheduler.cpp:293-340 | a thread at position k is chosen by exactly the k+1-st locked section from now on |
| `Scheduler.Scheduler.CreateProcess` | src/kernel/scheduler/scheduler.cpp:101-143 | one process with one waiting thread, its number, page map and directory, and registers to begin with as `CreatedFirstRuns` takes them up; nothing, and false, if a number or an identifier is missing |
| `Scheduler.Scheduler.Queue` | src/kernel/scheduler/scheduler.cpp:265-271 | the thread goes to the end of the queue; the invariant is kept |
| `Scheduler.Scheduler.ForkThread` | src/kernel/scheduler/scheduler.cpp:400-416 | one more waiting thread of the child process, with the caller's registers and rax = 0 |
| `Scheduler.Scheduler.SyscallFork` | src/kernel/scheduler/scheduler.cpp:376-420 | the child process with its thread on the queue and its number as the caller's result, -1 if there was none left, which is not looked at; without a thread identifier the child stays without thread and the result is -1; the caller goes on with that result, 2^64 - 1 for -1, in rax |
| `Scheduler.Scheduler.ProcessStatus` | src/kernel/scheduler/scheduler.cpp:319-328 | the scan finds running exactly if some thread of the process is |
| `Scheduler.Scheduler.RescheduleLocked` | src/kernel/scheduler/scheduler.cpp:277-342 | the assignments of the locked section, in their order, make the one specified step, dying threads included |
| `Scheduler.Scheduler.PublishChoice` | src/kernel/scheduler/scheduler.cpp:344-349 | the core records its thread, that thread's process, page map and directory, and nothing else changes |
| `Scheduler.Scheduler.SwitchContext` | src/kernel/scheduler/scheduler.cpp:354 | the core's registers become the saved ones of the chosen thread |
| `Scheduler.Scheduler.Reschedule` | src/kernel/scheduler/scheduler.cpp:273-355 | the three steps in sequence: the first waiting thread runs, or with an empty queue the core goes on as it was |
| `SiblingTree.AddChild` | src/kernel/fs/vfs.cpp:83-89 | linking a new object in front of its siblings is the insertion on values |
| `MountTree.Inserted` | src/kernel/fs/vfs.cpp:59-89 | after a mount every path the target leads into ends at the new node with the rest after the target, and every other path ends where it did |
| `MountTree.InsertOrdered` | src/kernel/fs/vfs.cpp:63-89 | the place found keeps siblings ordered: none leads into a newer one |
| `MountTree.LookupName` | src/kernel/fs/vfs.cpp:113-134 | in any mount tree the names down to the node found, followed by `fs_path`, give back the path |
| `MountTree.MountRepresents` | src/kernel/fs/vfs.cpp:59-89 | mounting adds one row to the flat table that the tree stands for, for all paths at once |
| `MountTree.LongestIffParentsFirst` | src/kernel/fs/vfs.cpp:59-145 | the mount found is the longest match for every path if and only if every target below a later mount is mounted again after it |
| `MountTree.TreeMatchesLongest` | src/kernel/fs/vfs.cpp:112-145 | then a lookup returns the file system of the longest target m with m and a slash a prefix of the path, the root's otherwise, and the rest of the path |
| `MountTree.ChildFirst` | src/kernel/fs/vfs.cpp:63-89 | mounting /a/b and then /a: the path /a/b/x goes to the latter though the former is longer |
| `Vfs.MountTable.AddFs` | src/kernel/fs/vfs.cpp:21-25 | the file system is registered last, the mounts stay |
| `Vfs.MountTable.FindFs` | src/kernel/fs/vfs.cpp:33-38 | the first file system of that name, if there is one |
| `Vfs.MountTable.Mount` | src/kernel/fs/vfs.cpp:28-94 | succeeds exactly if the source is registered, and then adds one row to the table of mounts; otherwise nothing changes |
| `Vfs.MountTable.GetAbsolutePath` | src/kernel/fs/vfs.cpp:112-145 | the file system of the latest mount whose target and a slash begin the path, and what follows the target, from the slash on; the root's, and the whole path, if there is none |
| `TmpfsSpec.WalkFromResolves` | src/kernel/fs/tmpfs.cpp:100-121 | in a tree of unique, non-empty, slash-free names the walk over children and siblings is resolution, one component at a time, by a map from (directory, name) to entry |
| `TmpfsSpec.LocatePrinted` | src/kernel/fs/tmpfs.cpp:59-136 | the printed absolute path of any node leads to that node, from any working directory |
| `TmpfsSpec.LocateDots` | src/kernel/fs/tmpfs.cpp:68-95 | a relative path behind any sequence of `./` and `../` is located as the path alone from the directory as many levels up as there are `../`; nothing is found above the root |
| `TmpfsSpec.LocateDot` | src/kernel/fs/tmpfs.cpp:68-95 | `./` stays in the directory, `../` goes to its parent and from the root to nothing; any other path that begins with a dot finds nothing, and so does a relative path without a directory |
| `TmpfsSpec.ResolveSpells` | src/kernel/fs/tmpfs.cpp:100-121 | conversely, printing what a path is resolved to, with what is left, gives back the path |
| `TmpfsSpec.ExactIffPrinted` | src/kernel/fs/tmpfs.cpp:100-121 | an absolute path is matched to its end at a node if and only if it is that node's printed path |
| `TmpfsSpec.LocateRelative` | src/kernel/fs/tmpfs.cpp:68-95 | any sequence of `./` and `../` and then the names down to a node lead from a directory to that node if and only if the first name does not begin with a dot |
| `TmpfsSpec.ThreeMissing` | src/kernel/fs/tmpfs.cpp:123-134 | where the walk falls short of three names or more nothing is found |
| `TmpfsSpec.InsertWalks` | src/kernel/fs/tmpfs.cpp:162-164 | adding an entry under a new name changes the outcome only of walks that missed this very entry |
| `TmpfsCreation.ExistingRefused` | src/kernel/fs/tmpfs.cpp:147-150 | a path that is matched to its end creates nothing |
| `TmpfsCreation.MissingIsNew` | src/kernel/fs/tmpfs.cpp:100-136 | if one plain name is missing, it is new to the directory located and is the path's last name |
| `TmpfsCreation.AllowedIff` | src/kernel/fs/tmpfs.cpp:147-150 | with one name missing, creation succeeds if and only if the directory located has another name, and for a file is a directory |
| `TmpfsCreation.CreateCorrect` | src/kernel/fs/tmpfs.cpp:146-164 | with one name missing, creation adds exactly one node, under the last name of the path, below the directory located, keeps names unique and plain, and the path now leads to the new node |
| `TmpfsCreation.MadeIsOpened` | src/kernel/fs/tmpfs.cpp:152-184 | with one name missing, what is made with the create flag is a file of 4096 bytes on the frame given, which a plain open of the same path returns; after `mkdir` a plain open of the path returns nothing |
| `TmpfsCreation.BelowMade` | src/kernel/fs/tmpfs.cpp:146-258 | below what was just made, one further plain name can be made as a file exactly if a directory was made, as a directory in any case, and in neither case under the name of what was just made |
| `TmpfsCreation.FileInDirectory` | src/kernel/fs/tmpfs.cpp:138-258 | after `mkdir` with one name missing, creating a file below it under any other plain name puts the file in that directory, and its path finds and opens it |
| `TmpfsCreation.GoodIff` | src/kernel/fs/tmpfs.cpp:147-164 | a creation that goes through leaves names unique and plain if and only if the last name of the path is plain and no entry of the directory located |
| `TmpfsCreation.CreateKeeps` | src/kernel/fs/tmpfs.cpp:235-258 | after a creation under a new plain name every path from every working directory resolves as before, unless it missed the entry that was made |
| `TmpfsCreation.PlacedIff` | src/kernel/fs/tmpfs.cpp:123-164 | what is created for an absolute path has that path if and only if the path up to its last name is that of an existing node that has no entry for that name |
| `TmpfsCreation.OpenedIff` | src/kernel/fs/tmpfs.cpp:174-184 | plain `open` returns a file if and only if the path is its printed path, or that path followed by one or two names, the first no entry of it, the last its own name |
| `TmpfsCreation.RunKeeps` | src/kernel/fs/tmpfs.cpp:138-258 | over any run of creations every entry keeps name, type, parent and path; and if the names are still unique and plain its path leads to it |
| `TmpfsCreation.RunGoodIff` | src/kernel/fs/tmpfs.cpp:138-258 | they are at the end of a run if and only if each of its creations made a new plain name |
| `TmpfsCreation.TwoMissing` | src/kernel/fs/tmpfs.cpp:123-164 | in any tree whose root has no entry a, making /a/b makes /b, to which the path /b then leads; names stay unique if and only if there was no /b |
| `TmpfsCreation.OpenedBeyond` | src/kernel/fs/tmpfs.cpp:174-177 | any file without an entry of its own name is opened by its path followed by its name |
| `TmpfsCreation.OwnNameRefused` | src/kernel/fs/tmpfs.cpp:147 | an entry with the name of the directory it should go into is refused |
| `Tmpfs.GetNameFromPath` | src/kernel/fs/tmpfs.cpp:42-55 | what follows the last slash that is not at the end of the path; non-empty unless the path is empty |
| `Tmpfs.TooMuchLeft` | src/kernel/fs/tmpfs.cpp:124-133 | more than one slash in the rest is followed by something |
| `Tmpfs.Tmpfs.constructor` | src/kernel/fs/tmpfs.cpp:25-35 | one directory named / without entries |
| `Tmpfs.Tmpfs.PathToNode` | src/kernel/fs/tmpfs.cpp:59-136 | the loops over pointers return the node that resolution on values locates, or null with it, on any tree, well named or not |
| `Tmpfs.Tmpfs.Open` | src/kernel/fs/tmpfs.cpp:138-185 | if the lowest bit of the mode is set, the creation step - a file of 4096 bytes on the frame it is given - and a description of the new file, or null and no change if it is refused; otherwise the file specified for a plain open, and no change |
| `Tmpfs.Tmpfs.MakeDirectory` | src/kernel/fs/tmpfs.cpp:235-258 | the creation step for a directory and 0, or -1 and no change if it is refused |

## Left out

- Locks: locked sections are single steps. In particular the return at src/kernel/memory/heap.cpp:191, which keeps the heap's lock, is modelled as a plain null return.
- `PMM::init`: the model starts from an initialised bitmap with page 0 reserved.
- Kmalloc: requires a request of order below 20, or of order 20 while the arena is whole; larger ones index outside the bucket array in the source. The 64-bit wrap-around of `bytes + 24` is not modelled.
- Kfree: requires that a pointer it does not ignore is one that was handed out; double frees, and the address just past the arena, are outside the model beyond what `PastTheEnd` states.
- Krealloc: the copy to address 0 is a fault that changes nothing; what the page-fault handler does is not modelled.
- Heap, page-table and frame memory is a value of type `seq<byte>` in a field that the methods reassign, not an array; the page with the bucket list lies outside it.
- The direct-map offset `PHYSICAL_BASE_ADDRESS`: physical addresses index memory directly.
- MapPage, UnmapPage, MapRangeRaw, MapRange, VirtualToPhysical: work outside slots 256 and 511 and require free frames for the missing tables (the source does not look at the result of that allocation), page-aligned frames and flags below 4096, so that `|` is addition. `invlpg` is not modelled.
- Elf.Load: the loop over the program headers only, on a file given as its bytes; headers with ascending segments on pages of their own and `filesz` not above `memsz`, as the System V ABI's program header chapter demands. The identification checks and the reading of the headers are not modelled.
- Destroy: requires ranges that are each backed by one run of frames, as the loader leaves them, and a root that the heap ignores. The heap objects that hold the ranges are values here.
- Adopt: demands four-level tables under the shared slots, and every boot table of the lower half on record and linked by present, writable and user-accessible entries; the source starts with an empty record, and a boot map with 2 MB pages is outside the model.
- RunSafe, LoadContainedIff, LoadedReaches: suppose that no page in the kernel's two slots is open to user code. Stores are single bytes by user code; those of the kernel into a program's frames are the step `Write`. The accessed and dirty bits that the processor sets in entries are not modelled.
- `vmm::duplicate`, `unmap_range_raw`, `switch_pagemap` and the page-fault handler.
- The Dying/Dead handshake, `exit_process` and `execve`: the locked section is modelled for dying threads, the run theorems are about runs without them.
- The empty-queue branch with no running thread returns, as scheduler_.asm documents; the source dereferences a null pointer there.
- CreateProcess: the number and the thread identifier (or their absence), the page map and the directory are parameters; the mapping of the stack and the file descriptors are not modelled.
- SyscallFork: the number of the child and the thread identifier (or their absence) and the copy of the page map are parameters; file descriptors are not modelled.
- `toys::vector` and `toys::queue` internals: sequences. `toys::map`, number formatting and string helpers: not modelled.
- Strings are sequences of characters without terminator; a string never contains one. Names are values: that the source keeps pointers into the caller's path instead of copies is not modelled.
- Mount, GetAbsolutePath: the lookup requires a mounted root, which the source dereferences. File systems are values with a name.
- Open: the page frame for a new file is a parameter. File contents, `read`, `write` and `resize` are not modelled. The comparison of a path with the literal "/" by address (src/kernel/fs/tmpfs.cpp:63) is dropped: the rest of the function gives the root for that path as well.
- Relative paths at the level of `Vfs::open` and `Vfs::mkdir`, which only pass the working directory on.
- Video, keyboard, serial, tty, devfs, PCI, ACPI, APIC, HPET, GDT/IDT, port I/O and assembly: hardware plumbing.
