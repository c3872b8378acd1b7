# A verified model of the kernel's core

This project models the memory management, scheduling, locking and logging of a small x86-64 kernel and proves what
they promise. It follows the C sources' own form: code that changes state in place is modelled by classes whose methods
relink, store and loop as the C functions do. Each such method is tied to a function on values, and the properties are
proved about those functions, mostly over every state or every run.

The parts, from the bottom up:

- **Kernel heap.** `Blocks`, `BuddyTiling` and `BuddyModel` hold the buddy allocator on values: 4096 pages, orders 0 to
  12, buddies by exclusive-or. `HeapModel` adds slabs, kmalloc and kfree; `HeapTheorems` states safety and reclamation
  over whole runs, `HeapEconomy` which block or slot a request gets. `HeapMemory` and `HeapLayout` describe the same heap
  as words in memory - intrusive lists, slab headers, threaded slots - and `KernelHeap` runs the C code on those words.
- **Physical pages.** `PhysicalMemory`: the bitmap, its initialisation from a memory map, single pages and runs.
- **Page tables.** `PageTables`, `PageMapping` and `AddressSpaces` relate four-level tables in physical frames to the
  translation the processor computes, with the rights of the whole path; `DirectMapping` is the initial mapping of all
  memory; `VirtualMemory` runs the C code on the tables, with frames from the bitmap.
- **Virtual regions.** `Regions` is the first-fit list in both directions, `RegionLists` the linked descriptors, `RegionRuns` whole
  runs of additions and removals. `VmallocPages` and `VmallocRuns` are the page loops of vmalloc and vfree,
  `VmallocElsewhere` vfree in another address space, `VmallocArena` the two operations on list and tables together,
  `VmallocOverlap` what happens behind a region whose size is no multiple of the page size, `VmallocSteps` whole runs among
  everything else that happens to address spaces, and `VirtualAllocator` the running code.
- **Scheduler.** `Scheduling` is one call of the handler on values, `SchedulerRuns` the single-CPU machine and its runs,
  `SchedulerFairness` bounded waiting and the limits of the code, `ReadyRing` the linked ring and dead list in place.
- **Mutex.** `MutexRuns` covers all interleavings of callers, `MutexLock` the linked queue.
- **Log.** `KlogRuns` interleaves writers and reader at every load and store, `KlogFlush` is one whole flush, `KlogOverrun` covers
  runs of overlapping writers, flushes and overruns, and `KlogBuffer` is the code, store by store.

`Basics` and `Sequences` hold what the linked structures share. Addresses in the heap are page and offset; `Blocks.XorIsBuddy` links
page arithmetic to the exclusive-or of addresses. Spinlock sections are single steps.

## Model

| member | source | states |
|---|---|---|
| `Blocks.XorIsBuddy` | mm/buddy.c:29 | the address the kernel computes with exclusive-or is the address of the buddy block, in page arithmetic: the other half of the enclosing block of the next order |
| `Blocks.HeapStartAligned` | include/mm/kmalloc.h:10-11 | the heap base is a multiple of twice every block size below the top order, which is why flipping an address bit never leaves the heap |
| `Blocks.BuddyHalves` | mm/buddy.c:43-64 | a block below the top order and its buddy are distinct, placed halves of a placed parent |
| `BuddyTiling.RunInsideFreeBlock` | mm/buddy.c:43-64 | in a canonical heap every aligned run of unallocated pages lies inside one free block, so merging is complete |
| `BuddyTiling.FreeIffMaximal` | mm/buddy.c:18-64 | canonical form: a block is free if and only if it is a maximal aligned power-of-two run of unallocated pages |
| `BuddyTiling.FreeDetermined` | mm/buddy.c:18-64 | the set of free blocks is a function of the set of allocated pages |
| `BuddyTiling.PagesConserved` | mm/buddy.c:18-64 | free pages and allocated pages always add up to 4096 |
| `BuddyModel.AllocKeepsInv` | mm/buddy.c:18-41 | allocation keeps the canonical form; the block handed out is aligned, of the requested order, and none of its pages was allocated before; on failure nothing changes |
| `BuddyModel.AllocFailsIffNoRun` | mm/buddy.c:18-41 | allocation of order k fails if and only if no aligned run of 2^k pages is wholly unallocated |
| `BuddyModel.FreeKeepsInv` | mm/buddy.c:43-64 | freeing with merging keeps the canonical form and takes exactly the freed block out of the allocated set |
| `BuddyModel.FreeUndoesAlloc` | mm/buddy.c:18-64 | freeing a fresh allocation restores the set of free blocks exactly |
| `BuddyModel.EmptyIsInit` | mm/buddy.c:43-64 | with nothing allocated the free lists hold one block of order 12 at the heap base and nothing else |
| `HeapModel.KmallocKeepsInv` | mm/kmalloc.c:16-49 | kmalloc keeps the heap invariant; it adds one live object of the requested size, or answers NULL and changes nothing |
| `HeapModel.KfreeKeepsInv` | mm/kmalloc.c:51-63 | kfree of a live object keeps the heap invariant and ends the life of exactly that object |
| `HeapModel.SlotsApart` | mm/slab.c:37-66 | different slots of a slab page overlap nowhere |
| `HeapTheorems.LiveDisjoint` | mm/kmalloc.c:16-63 | two live allocations never share a byte |
| `HeapTheorems.LiveInHeap` | mm/kmalloc.c:16-49 | a live allocation is at least as large as requested and lies in the 16 MB heap |
| `HeapTheorems.LiveAvoidsMeta` | mm/slab.c:14-90 | a live allocation overlaps no free-block node, no slab header and no free-slot link |
| `HeapTheorems.MetaDisjoint` | mm/slab.c:37-66 | no two parts of the allocator's own memory overlap |
| `HeapTheorems.NoLiveNoSlab` | mm/slab.c:82-89 | a slab without a live object is not kept |
| `HeapTheorems.ReclaimedIsInit` | mm/slab.c:68-90 | when nothing is live the heap is in its initial state: one order-12 block, no slabs, empty slab lists |
| `HeapTheorems.RunsAreSafe` | mm/kmalloc.c:16-63 | in every heap reachable by kmalloc and kfree, live allocations are large enough, inside the heap, pairwise disjoint and apart from the allocator's own memory |
| `HeapTheorems.RunReclaims` | mm/kmalloc.c:16-63 | after every run in which all allocations were freed the heap is fully recombined |
| `HeapTheorems.KfreeUndoesKmalloc` | mm/kmalloc.c:16-63 | kfree right after kmalloc restores live objects, slabs, slab lists, allocated blocks and the set of free blocks |
| `HeapTheorems.KmallocFailsIff` | mm/kmalloc.c:16-49 | kmalloc answers NULL exactly for size 0; for more than 2048 bytes if no aligned power-of-two run that holds them is wholly unallocated; and for less if the first cache whose objects hold them has no partial slab and no page is unallocated |
| `HeapTheorems.ShiftLoopEndsIff` | mm/kmalloc.c:27-30 | in 64-bit arithmetic the shifting loop reaches the requested size if and only if it is at most 2^63 |
| `HeapEconomy.NoMoreThanNeeded` | mm/kmalloc.c:24-43 | in every reachable heap an object lives in a slab if and only if at most 2048 bytes were asked for, and no object was granted twice what was asked for, except that 16 bytes are the least |
| `HeapEconomy.AllocTakes` | mm/buddy.c:18-41 | best fit: no smaller free block would do, of its order it is the one that became free last, its lower part is handed out, the upper half of each order on the way becomes free, and every other free block stays |
| `HeapEconomy.ReleaseMerges` | mm/buddy.c:43-64 | a block given back is merged exactly as far as its buddies are free, and is then the first of its order to be handed out |
| `HeapEconomy.SmallServed` | mm/slab.c:14-35 | a small request gets the first free slot of the first partial slab of the first cache whose objects hold it, and takes no page; with no partial slab it gets the first slot of one new page |
| `HeapEconomy.LargeServed` | mm/kmalloc.c:24-37 | a large request gets a block of the least order that holds it, and no slab changes |
| `HeapEconomy.SlotFreed` | mm/slab.c:68-90 | a freed slot heads its slab's free list; a slab that was full heads the partial list; a slab with nothing live gives its page back |
| `HeapEconomy.LastFreedFirst` | mm/slab.c:14-90 | so the slot freed last is the next one handed out for its size class, if its slab was full or is the first partial one and keeps another live object |
| `HeapEconomy.CacheSizes` | mm/slab.c:6-58 | the caches hold objects of 16 to 2048 bytes in powers of two, and a slab page holds as many as fit behind its header |
| `HeapLayout.SlabBit` | mm/kmalloc.c:57-60 | for every live object the metadata bit that kfree tests says which layer produced it |
| `HeapLayout.ClientWriteLayout` | mm/slab.c:14-90 | whatever a caller stores in its own live memory, every list, header and chain in heap memory stays intact |
| `HeapMemory.PushLists` | mm/buddy.c:81-93 | pushing a node in front of one of several doubly linked lists in memory gives that list with the node in front, correctly linked both ways, and leaves the others linked as they were |
| `HeapMemory.UnlinkLists` | mm/buddy.c:71-79 | unlinking a node from one of several lists in memory gives that list without the node, correctly linked both ways |
| `KernelHeap.Heap16M.constructor` | mm/buddy.c:6-16 | init_buddy and init_slab establish the heap invariant over memory with any contents, in the initial state |
| `KernelHeap.Heap16M.BuddyListAdd` | mm/buddy.c:81-93 | links a block and sets its metadata; the free lists are as before with the block pushed, and memory of allocated blocks is untouched |
| `KernelHeap.Heap16M.BuddyListRemove` | mm/buddy.c:71-79 | unlinks a block and clears its free mark; the free lists are as before without it |
| `KernelHeap.Heap16M.BuddyAlloc` | mm/buddy.c:18-41 | the in-place search, unlinking and halving compute the allocation on values |
| `KernelHeap.Heap16M.BuddyFree` | mm/buddy.c:43-64 | the in-place merging loop, driven by the metadata of exclusive-or addresses, computes the release on values |
| `KernelHeap.Heap16M.SlabCreate` | mm/slab.c:37-66 | takes a page and threads header and chain into it: as many slots as fit, each linked to the next, none to another page |
| `KernelHeap.Heap16M.SlabAlloc` | mm/slab.c:14-35 | computes slab allocation on values, including the move of an exhausted slab to the full list |
| `KernelHeap.Heap16M.SlabFree` | mm/slab.c:68-90 | computes slab release on values, including reopening a full slab and returning an empty one to the buddy allocator |
| `KernelHeap.Heap16M.SlabListAdd` | mm/slab.c:99-106 | links a slab page in front of a slab list; all blocks, headers and chains stay intact |
| `KernelHeap.Heap16M.SlabListRemove` | mm/slab.c:92-97 | unlinks a slab page; all blocks, headers and chains stay intact |
| `KernelHeap.Heap16M.Kmalloc` | mm/kmalloc.c:16-49 | on memory words: kmalloc's new state and answer are those of the heap on values |
| `KernelHeap.Heap16M.Kfree` | mm/kmalloc.c:51-63 | on memory words: kfree's new state is that of the heap on values; the layer is chosen from the metadata |
| `KernelHeap.Heap16M.ClientWrite` | mm/kmalloc.c:16-49 | a store by the owner of a live object keeps the whole heap invariant and changes that word only |
| `PhysicalMemory.Pmm.constructor` | mm/pmm.c:11-62 | total_pages is that of the available map entry that ends last, and entries of other kinds do not count; after init_PMM a bit is clear if and only if kernel image and bitmap do not cover its page and either an available map entry based at or above 1 MB does, or the bit lies past the bitmap and memory held a clear one |
| `PhysicalMemory.StepsAre` | mm/pmm.c:47-49 | a loop over an entry, aligned or not, visits exactly the pages of the addresses it takes, one page size apart from its base |
| `PhysicalMemory.AlignedSteps` | mm/pmm.c:48-50 | for page-aligned entries the clearing loop visits exactly the pages inside the entry |
| `PhysicalMemory.OfferedBelowEnd` | mm/pmm.c:16-33 | no page offered by a page-aligned map lies at or past total_pages |
| `PhysicalMemory.SetBitAt` | include/mm/pmm.h:11 | BITMAP_SET changes exactly the bit of its page |
| `PhysicalMemory.ClearBitAt` | include/mm/pmm.h:12 | BITMAP_CLR changes exactly the bit of its page |
| `PhysicalMemory.Pmm.AllocPage` | mm/pmm.c:64-76 | returns the lowest free page and takes exactly it out of the free set; 0 when there is none |
| `PhysicalMemory.Pmm.FreePage` | mm/pmm.c:104-110 | puts the page into the free set if it exists, and changes nothing else |
| `PhysicalMemory.NeverTakenTwice` | mm/pmm.c:64-110 | no page is handed out twice, alone or in a run, without having been freed in between; each method states its step on the clear pages |
| `PhysicalMemory.Pmm.AllocPages` | mm/pmm.c:78-102 | finds the lowest clear run that starts at or below total_pages, so the skip misses no candidate, and takes exactly its pages; with the bit at total_pages set it reads no bit past that one, and the run is the lowest run of free pages |
| `PhysicalMemory.ScanCorrectIff` | mm/pmm.c:82-99 | the run found is the lowest run of existing free pages if and only if such a run exists or no clear run crosses the end of memory |
| `PhysicalMemory.SentinelStopsCrossing` | mm/pmm.c:82-99 | a set bit at total_pages rules crossing runs out |
| `PhysicalMemory.SentinelIff` | mm/pmm.c:33-61 | after init_PMM that bit is set if and only if total_pages is no multiple of 8, kernel image or bitmap cover it, or memory held a set bit there |
| `PhysicalMemory.CrossingExample` | mm/pmm.c:82-99 | for one memory map with 264 pages and zero memory after the bitmap, what init_PMM leaves makes the scan for five pages hand out one that does not exist |
| `PhysicalMemory.IntProductExactIff` | mm/pmm.c:97 | the address returned is that of the run if and only if the run starts below 2 GiB; otherwise it is the sign-extended low half of that address |
| `PageTables.EnsureSound` | mm/vmm.c:76-96 | preparing one level, by creating a table or by setting the user bit of a shared slot, changes no translation and no effective right in any address space |
| `PageTables.EnsureAt` | mm/vmm.c:76-84 | the slot afterwards holds a present, writable entry for a cleared table in the lowest free frame, with the user bit if asked, or what it held with the user bit added; no other slot changes |
| `PageTables.WalkGrant` | mm/vmm.c:83 | setting the user bit of an intermediate slot changes no page's effective rights, because every user leaf has user bits on its whole path |
| `PageTables.PrepareSound` | mm/vmm.c:76-113 | descending to the leaf's table keeps the invariant and every translation |
| `AddressSpaces.MapAccounts` | mm/vmm.c:76-109 | a mapping takes exactly one frame for each table missing on its path, and these frames become tables |
| `PageMapping.MapRefines` | mm/vmm.c:68-129 | mapping is a point update of the translation function (512 points for 2 MB), through exactly the roots that share the top slot, with the rights, the memory type bit and the remaining flags the caller passed; every other page keeps target, rights and flags |
| `PageMapping.MapKeepsInv` | mm/vmm.c:68-129 | mapping keeps the table invariant and every slot that leads to a table |
| `PageMapping.Reach` | mm/vmm.c:68-129 | the walks that pass through a given table are exactly those of roots that share the top slot, at pages with the same upper indices |
| `AddressSpaces.UnmapRefines` | mm/vmm.c:131-146 | unmapping empties exactly the pages of the entry found, through the roots that share the top slot |
| `AddressSpaces.UnmapReturnsFrame` | mm/vmm.c:131-146 | the page is gone, and the frame its last-level entry held is the one returned, present or not |
| `AddressSpaces.GetEntryFinds` | mm/vmm.c:148-182 | the slot found is the final entry on the processor's walk; none is found only if the page is not mapped and its last-level table does not exist |
| `AddressSpaces.MapThenFind` | mm/vmm.c:68-182 | after mapping, vmm_get_entry finds an entry of the level of the page size that is present and holds the frame, the rights, the memory type bit and every other flag the caller passed |
| `AddressSpaces.UnmapUndoesMap` | mm/vmm.c:68-146 | unmapping what was just mapped over unmapped pages restores every translation and returns the frame mapped, with bit 12 of a large page's flags |
| `AddressSpaces.CreateRefines` | kernel/scheduler/process.c:11-18 | a new root shows the current kernel half and nothing below; other address spaces are as before |
| `AddressSpaces.KernelHalfShared` | kernel/scheduler/process.c:17-18 | after any run of mapping, unmapping and process creation, kernel addresses whose top slot was in use at creation translate identically through both roots |
| `AddressSpaces.Isolation` | mm/vmm.c:68-146 | over any run, what other processes map and unmap never changes the lower half of an address space |
| `DirectMapping.DirectMappingSound` | mm/vmm.c:29-66 | every page of a large page that begins below maxAddr is the translation of its address plus DIRECT_OFFSET; slot 511 translates as before; nothing else is mapped |
| `DirectMapping.DirectIndices` | mm/vmm.c:38-42 | the indices used for large page k are those of its physical address plus DIRECT_OFFSET |
| `VirtualMemory.AddressSpaceManager.MapPage` | mm/vmm.c:68-129 | the in-place descent and stores compute the mapping on values, with frames from the bitmap allocator |
| `VirtualMemory.AddressSpaceManager.MapWrongSize` | mm/vmm.c:121-126 | any other page size reports an error after exactly the upper two levels are prepared; no translation changes |
| `VirtualMemory.AddressSpaceManager.UnmapPage` | mm/vmm.c:131-146 | computes unmapping on values and returns the address held by the entry, or 0 |
| `VirtualMemory.AddressSpaceManager.FindEntry` | mm/vmm.c:148-182 | the level-by-level search finds the same slot as the recursive definition |
| `VirtualMemory.AddressSpaceManager.CreateProcess` | kernel/scheduler/process.c:11-20 | computes root creation on values; answers nothing when the page allocator returns 0 |
| `VirtualMemory.AddressSpaceManager.InitDirectMapping` | mm/vmm.c:29-66 | computes the direct mapping on values, large page by large page |
| `Regions.InsertOrderedIff` | mm/vmalloc.c:37-63 | insertion keeps the list sorted, pairwise disjoint and inside the address space if and only if there is room behind the head; for the upward and the downward list, in 64-bit arithmetic |
| `Regions.FirstFit` | mm/vmalloc.c:46-61 | with room, the region goes right behind the first region with a sufficient gap, or behind the last one, and the others keep their places |
| `Regions.AfterWraps` | mm/vmalloc.c:48-58 | room or no room, the base computed is the true sum or difference up to a multiple of 2^64 |
| `Regions.RemoveKeepsOrdered` | mm/vmalloc.c:65-82 | removal keeps the list sorted and disjoint |
| `Regions.RemoveUndoesInsert` | mm/vmalloc.c:37-82 | removing the region just inserted restores the list |
| `RegionRuns.RunKeepsOrdered` | mm/stack.c:47-92 | over every run of additions and removals, upward or downward, with room at each addition, the list stays sorted, disjoint and inside the address space |
| `RegionRuns.RunOrderedIff` | mm/vmalloc.c:37-82 | every list of a run is ordered if and only if there is room at every addition |
| `RegionLists.RegionList.Add` | mm/stack.c:47-73 | the in-place search and relinking compute the insertion on values, and the descriptors stay linked both ways (user stacks downward; mm/vmalloc.c:37-63 upward) |
| `RegionLists.RegionList.Remove` | mm/stack.c:75-92 | the in-place unlinking removes exactly the descriptor's region, and the others stay linked both ways |
| `RegionLists.RegionList.FindGap` | mm/vmalloc.c:44-55 | the search loop stops where the definition on values says |
| `RegionLists.RegionList.Find` | mm/vmalloc.c:23-33 | the walk finds the descriptor whose region starts at the address, or none if there is none |
| `VmallocPages.MapRangeSound` | mm/vmalloc.c:15 | after vmalloc's loop each page of the range leads to a frame of its own, through the roots that share the top slot; all other translations are as before; the frames taken are distinct, were free, and are not tables |
| `VmallocRuns.UnmapRangeSound` | mm/vmalloc.c:25-28 | after vfree's loop the pages of the region are gone everywhere, exactly its frames are free again, and all else is as before |
| `VmallocRuns.VfreeUndoesVmalloc` | mm/vmalloc.c:5-35 | vmalloc followed by vfree restores every translation and gives back exactly the data frames; what stays allocated are the tables created on the way |
| `VmallocElsewhere.VfreeElsewhereIff` | mm/vmalloc.c:25-28 | vfree in another address space frees exactly the region if and only if that address space shares the top-level slots of its pages |
| `VmallocElsewhere.VfreeWithoutSlot` | mm/vmm.c:145 | where those slots are empty it leaves the region mapped and frees page 0 |
| `VmallocElsewhere.VfreeElsewhereExample` | mm/vmalloc.c:25-28 | two address spaces and one page with which that happens |
| `VmallocArena.VmallocKeepsInv` | mm/vmalloc.c:5-18 | vmalloc of any size up to what the loop counter holds, placed at a page boundary, keeps the list ordered, every region mapped to frames of its own, and the rest of the arena unmapped |
| `VmallocOverlap.VmallocSharesIff` | mm/vmalloc.c:37-63 | the first page of a new region is a page of an older one if and only if the region in front of it does not end with its last page, which sizes in whole pages rule out |
| `VmallocOverlap.VmallocOverwrites` | mm/vmalloc.c:15 | there the first turn of the loop replaces the older region's page table entry: its page leads to the new frame |
| `VmallocArena.PagesHoldBytes` | mm/vmalloc.c:15 | the pages mapped for a region are exactly those that hold its bytes, a last one that is not full included |
| `VmallocArena.VfreeKeepsInv` | mm/vmalloc.c:20-35 | so does vfree of any live region in an address space that shares its slots |
| `VmallocArena.VfreeRightIff` | mm/vmalloc.c:20-35 | only there does it take exactly the region off the page tables |
| `VmallocArena.VfreeRestores` | mm/vmalloc.c:5-35 | freeing the region just allocated restores the list and every translation |
| `VmallocSteps.StepKeepsInv` | mm/vmalloc.c:5-35 | vmalloc, vfree, changes to any address space, and mapping, unmapping, process creation, taking and giving of frames outside the arena all keep every region mapped to frames of its own |
| `VmallocSteps.RunsShareNothing` | mm/vmalloc.c:5-35 | after every run of them no two live regions share a virtual page, and no two pages of live regions share a frame, a free frame or a table |
| `VirtualAllocator.VirtualAllocator.Alloc` | mm/vmalloc.c:5-18 | placing the descriptor and mapping page by page computes vmalloc on values; nothing happens for size 0 or without a descriptor |
| `VirtualAllocator.VirtualAllocator.Free` | mm/vmalloc.c:20-35 | finding, unmapping and unlinking computes vfree on values; nothing happens if no region starts at the address |
| `Scheduling.HandleIs` | kernel/scheduler/scheduler.c:49-106 | the handler finds its successor at once |
| `Scheduling.HandleInPlace` | kernel/scheduler/scheduler.c:49-106 | with at least two threads on the ring a thread that exits or blocks leaves its place and the head of the ring follows, any other stays and the next one follows; the follower runs with its saved stack pointer and its kernel stack; the thread that left keeps its stack pointer unless it is dead; nothing else about any thread changes |
| `Scheduling.HandleContext` | kernel/scheduler/scheduler.c:86-99 | CR3 changes only when a thread of another user process follows, and then to its root, so a kernel thread goes on with the page tables in use; the stack list in place is stored with the process left and the follower's put in place; no process gets other page tables |
| `Scheduling.HandleFinds` | kernel/scheduler/scheduler.c:70-84 | whatever states the threads on the ring are in, the code loops for ever if and only if the current thread left the ring and no other can run; otherwise the first that can run follows, with its saved stack pointer |
| `Scheduling.HandleKeepsInv` | kernel/scheduler/scheduler.c:49-106 | every call keeps: a ring without repetition that holds the current thread, exactly one running thread, and dead threads apart |
| `Scheduling.SwitchKeepsContext` | kernel/scheduler/scheduler.c:86-99 | over a switch, each process's own list of user stacks is in place while the process runs and stored away otherwise, and CR3 is the process's root |
| `SchedulerRuns.BootedIff` | kernel/scheduler/scheduler.c:18-28 | the scheduler's invariant holds once init_scheduler has created the idle thread if and only if the main thread's uncleared descriptor holds a null process |
| `SchedulerRuns.StrayProcess` | kernel/scheduler/scheduler.c:19-23 | a nonzero word in its place breaks the invariant |
| `SchedulerRuns.SpawnUserIff` | kernel/scheduler/thread.c:65-94 | create_user_thread keeps page tables and stack lists right if and only if its process is not running, or the list stored with the process is not empty and is the one in place |
| `SchedulerRuns.SpawnInParts` | kernel/scheduler/thread.c:65-94 | create_user_thread is the sequence of its parts: list and page tables of the process put in place, the stack added, the old ones put back, the thread enqueued |
| `SchedulerRuns.SwapInIsTheirs` | kernel/scheduler/thread.c:65-94 | in between, CR3 and the list in place are those of the process the thread is for |
| `SchedulerRuns.PreemptedSpawnExample` | kernel/scheduler/thread.c:65-94 | a switch between these parts leaves a kernel thread with the list of the process |
| `SchedulerRuns.SpawnHereExample` | kernel/scheduler/thread.c:65-94 | a running process without a stack that creates a user thread ends up without its own list in place |
| `SchedulerRuns.TickMarks` | kernel/scheduler/scheduler.c:64-67 | a tick calls the handler with the running thread as it is |
| `SchedulerRuns.StepKeepsInv` | kernel/scheduler/scheduler.c:49-106 | ticks, exits, blocking, waking, new threads and processes, each part of create_user_thread in any interleaving, and each step of the cleanup keep ring, dead list and the one running thread |
| `SchedulerRuns.StepKeepsContext` | kernel/scheduler/scheduler.c:86-99 | all of them but a create_user_thread that is interrupted or meets the excluded case keep page tables and stack lists right |
| `SchedulerRuns.StepLife` | kernel/scheduler/thread.c:141-185 | what a step shows of each thread agrees with what the scheduler's data say about it before and after |
| `SchedulerRuns.RunLives` | kernel/scheduler/scheduler.c:49-106 | over every run, each thread gets the processor only while ready, alone, and with the stack pointer saved when it last left or its initial one; a parked thread keeps its stack pointer and is ready once woken; no thread runs after it exited; and it is handed over for destruction at most once |
| `SchedulerFairness.WaitBound` | kernel/scheduler/scheduler.c:54-84 | without arrivals, whatever exits and blocks, a ready thread on a ring of n runs within n * n + n calls: ring size and ring distance decrease lexicographically |
| `SchedulerFairness.CallsProgress` | kernel/scheduler/scheduler.c:54-84 | each call gives the thread the processor, shrinks the ring, or brings the thread nearer |
| `SchedulerFairness.EachRunsOnce` | kernel/scheduler/scheduler.c:70-84 | in n ticks each of n threads on the ring runs exactly once |
| `SchedulerFairness.ContextAlwaysRight` | kernel/scheduler/scheduler.c:86-99 | after every run of such steps a current user thread has its process's root in CR3 and its process's own stack list in place, a current kernel thread an empty list |
| `SchedulerFairness.RootOfLastProcess` | kernel/scheduler/scheduler.c:86-99 | after every such run CR3 holds the root of the user process that ran last, or what it held at the start while none has run |
| `SchedulerFairness.RunKeepsOwners` | kernel/scheduler/scheduler.c:49-106 | over every run each process keeps its page tables, and each thread its process and its kernel stack until it is handed over |
| `SchedulerFairness.KernelStackAlwaysRight` | kernel/scheduler/scheduler.c:101-105 | from the first call of the handler on, the kernel stack in the task state is that of the running thread |
| `SchedulerFairness.StopsRunningIff` | kernel/scheduler/scheduler.c:50 | after a call the current thread is marked running if and only if it was not alone on the ring or had not exited or blocked; alone, it goes on with the stack pointer it came with |
| `SchedulerFairness.BlockedNeverRunsAgain` | kernel/mutex.c:50-53 | a thread that blocked never gets the processor again in any run, because waking marks it ready without putting it back on the ring |
| `ReadyRing.Scheduler.Enqueue` | kernel/scheduler/thread.c:148-160 | relinking in place appends the thread at the ring's tail; ring and dead list stay correctly linked |
| `ReadyRing.Scheduler.Dequeue` | kernel/scheduler/thread.c:162-170 | relinking in place takes exactly that thread off the ring, moving the head if needed |
| `ReadyRing.Scheduler.Handler` | kernel/scheduler/scheduler.c:49-106 | the in-place handler computes the new state and the stack pointer of the handler on values |
| `ReadyRing.Scheduler.FindNext` | kernel/scheduler/scheduler.c:73-81 | the walk around the ring finds the first thread that can run, or that there is none |
| `ReadyRing.Scheduler.EnterThread` | kernel/scheduler/scheduler.c:83-106 | state, current thread, page tables, stack list and kernel stack change as on values |
| `ReadyRing.Scheduler.ThreadExit` | kernel/scheduler/thread.c:141-146 | exiting is a call of the handler with the current thread marked dead |
| `ReadyRing.Scheduler.Detach` | kernel/scheduler/thread.c:172-178 | the dead list becomes the list being walked; ring and lists stay linked |
| `ReadyRing.Scheduler.HandOver` | kernel/scheduler/thread.c:180-184 | one turn of the walk, between any other calls, hands over the next thread and leaves ring and lists linked |
| `ReadyRing.Scheduler.CleanupDead` | kernel/scheduler/thread.c:172-185 | without interruption every dead thread is handed over exactly once, in list order, and the dead list is empty |
| `MutexRuns.StepKeepsInv` | kernel/mutex.c:10-54 | each lock, resumption and unlock keeps: at most one owner, locked exactly while there is one, the queue exactly the waiting threads, waiters only while locked |
| `MutexRuns.MutualExclusion` | kernel/mutex.c:10-54 | that invariant holds in every interleaving of correct callers |
| `MutexRuns.ArrivalOrder` | kernel/mutex.c:10-54 | in every interleaving those who arrived are, in order, those who entered, then the woken owner on its way, then the queue |
| `MutexRuns.FirstComeFirstServed` | kernel/mutex.c:10-54 | threads get past mutex_lock in exactly the order in which they called it |
| `MutexLock.Mutex.Lock` | kernel/mutex.c:10-34 | computes the step on values; the linked queue stays acyclic and ends at its tail |
| `MutexLock.Mutex.Unlock` | kernel/mutex.c:36-54 | computes the step on values and wakes the head of the queue, if any |
| `KlogRuns.PrintsInOrder` | drivers/lfb/klog.c:25-79 | in every interleaving of writers and reader with at most 4096 characters unread, the output is an exact prefix of what was reserved, in reservation order, with no drop mark; and if no message is longer than 4096 characters, what was reserved is exactly what callers passed |
| `KlogRuns.LoggedWhole` | drivers/lfb/klog.c:25-33 | messages of at most 4096 characters are logged whole, one after the other |
| `KlogRuns.StepKeepsInv` | drivers/lfb/klog.c:25-79 | each single store and load keeps: a slot's flag is set exactly for a published, unread position, which then holds its own character |
| `KlogRuns.StopsOnlyAtPending` | drivers/lfb/klog.c:60-63 | a reader that stops early stops at a character whose writer has not published it |
| `KlogBuffer.CalmSettles` | drivers/lfb/klog.c:25-79 | a run without overrun that has come to rest leaves exactly the unread characters in the buffer |
| `KlogOverrun.FlushAtRestIff` | drivers/lfb/klog.c:25-79 | over runs with any number of overlapping writers, flushes and overruns: whenever no call is under way, the next flush prints exactly the newest unread characters, after the drop mark if there are more than 4096, if and only if the character stored last in each of their slots is theirs |
| `KlogOverrun.RecentInTime` | drivers/lfb/klog.c:35-40 | a store less than 4096 positions behind the head is in time |
| `KlogOverrun.NewestLastIff` | drivers/lfb/klog.c:25-79 | where characters tell the positions of a slot apart, it prints them only if each was the last one stored in its slot |
| `KlogOverrun.OverrunFlushIff` | drivers/lfb/klog.c:43-79 | the flush after any overrun, the first or a later one, prints the drop mark and exactly the newest 4096 characters if and only if that condition holds |
| `KlogOverrun.TimelyFlush` | drivers/lfb/klog.c:25-79 | it always prints the newest unread characters if every character was stored before any of a later position in the same slot |
| `KlogOverrun.FlushIsRun` | drivers/lfb/klog.c:43-79 | a whole flush, at any time, is a run of its single loads and stores |
| `KlogOverrun.LateStoreLosesCharacter` | drivers/lfb/klog.c:30-40 | two overlapping writers after which the newest character is lost: the earlier one stores after the later one has filled the buffer |
| `KlogFlush.FlushTurn` | drivers/lfb/klog.c:50-74 | one turn of the loop ends the flush at the end of the log or at a flag that is not set, or prints one character and goes on |
| `KlogBuffer.Log.Reserve` | drivers/lfb/klog.c:28-33 | the locked section reserves one position for each character of the message, or 4096 of a longer one, and is a step of the log as a machine |
| `KlogBuffer.Log.StoreChar` | drivers/lfb/klog.c:36-38 | the store of a character, between any other calls, is a step of that machine |
| `KlogBuffer.Log.SetReady` | drivers/lfb/klog.c:39 | so is the store of its flag |
| `KlogBuffer.Log.Write` | drivers/lfb/klog.c:25-41 | a whole call without interruption is a run of these steps; it appends the whole message, or the first 4096 characters of a longer one, and a buffer that held exactly the newest unread ones holds them again |
| `KlogBuffer.Log.FlushToScreen` | drivers/lfb/klog.c:43-79 | over any buffer and with any writers under way the loop computes the flush on values; a buffer that holds the newest unread characters is printed exactly, after the drop mark if needed |
| `KlogBuffer.FlushSettles` | drivers/lfb/klog.c:43-79 | and afterwards it is settled again |
| `KlogBuffer.HoldsMore` | drivers/lfb/klog.c:35-40 | publishing a character into a full buffer drops exactly the oldest one |

## Left out

Parts of the kernel that are not modelled:

- Boot code, descriptor tables, interrupt controllers, timers, serial output, ACPI, framebuffer and kprintf: hardware plumbing
  and formatting. CR3 is a field, TLB invalidation does nothing, and printed characters are appended to a sequence.
- The byte format of the boot loader's tags: the memory map is a sequence of address, length and type.
- The file system, whose read ignores the offset it checks and whose directory search has no body.
- destroy_thread: it passes a vmalloc'd stack to kfree and switches CR3 unprotected. The model ends where
  cleanup_dead_threads hands a thread over.
- user_free_stack's page loop, which unmaps from the base downward although the mapped page lies below it; only the list
  operations of user stacks are modelled. Page-fault stack growth is unreachable from the initial state.
- init_kheap's mapping of the heap, init_pat, and the contents of a new thread's first stack frame.
- Which memory holds descriptors: threads, processes and regions are named by numbers, and whether kmalloc finds room for them is
  a parameter or left open. vfree never frees the region descriptor, and no claim is made about it.
- The level output of vmm_get_entry, and the address returned for a write-combining large page beyond its frame field.
- Interrupt flags, and with them that the contended path of mutex_lock never restores them.
- Log positions past 2^64, and writers that run while a flush is under way after an overrun: on one processor a flush holds
  interrupts off.
- The process identifier counter and the saved user-mode segment bases.

Choices of the model:

- Memory words of the heap are typed (link, counters, client data), and page-table entries are records of their frame and
  flag bits rather than 64-bit words; the fields are those the bit masks of the code select.
- Which frames are tables, and at which level, is kept beside the tables. The tables the boot code leaves are assumed to
  satisfy the same invariant: intermediate entries present and writable, no table reached twice except through kernel-half
  slots of roots.
- PhysicalMemory.Pmm.AllocPages: assumes, unless the bit at total_pages is set, that the requested count of bits past it can be
  read, which the code takes for granted.
- VirtualMemory.AddressSpaceManager.MapPage: assumes a free frame for each table missing on the path, because the code never
  looks at the page allocator's answer, and the caller's alignment and path conditions.
- KernelHeap.Heap16M.Kmalloc: assumes a size of at most 2^63; HeapTheorems.ShiftLoopEndsIff shows that the loop does not end beyond it.
- VmallocArena.VmallocKeepsInv: assumes that the region in front ends at a page boundary, because otherwise the two share a page
  (VmallocOverlap.VmallocSharesIff); a size up to 0x7FFFF000, past which the loop's int overflows; a free frame for each page and
  each missing table, whose absence the code does not notice; and room below the kernel heap, past which the list may grow.
- VmallocSteps.RunsShareNothing: a region is freed only in an address space that shares its slots, because elsewhere vfree does
  something else (VmallocElsewhere.VfreeElsewhereIff), and no other mapping reaches into the arena.
- ReadyRing.Scheduler.Handler: excludes the state in which no thread left on the ring can run, where the code loops for ever. In the runs
  the main and the idle thread never block or exit, so that state does not arise.
- SchedulerRuns.RunLives: runs start with a main thread whose process is null, which the code leaves to chance
  (SchedulerRuns.BootedIff), and only the idle thread cleans up.
- SchedulerFairness.ContextAlwaysRight: create_user_thread runs undivided and under the condition of SchedulerRuns.SpawnUserIff, because
  otherwise the property fails (SchedulerRuns.PreemptedSpawnExample, SchedulerRuns.SpawnHereExample).
- MutexRuns.MutualExclusion: a blocked thread goes on only once woken, which SchedulerFairness.StopsRunningIff grants while two threads are
  on the ring. Safety and order only: progress fails, see SchedulerFairness.BlockedNeverRunsAgain.
- KlogRuns.PrintsInOrder: assumes flags that start clear, because the loop that should clear them has bound 0.
- The bitmap allocator's steps are sequential, because only one of its operations takes the lock.
