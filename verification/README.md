# A verified model of the AVOS kernel core and boot loader

The model covers three parts of the system.

**Physical memory, from the BIOS map to page tables.** The boot loader merges the BIOS memory map into a
table of RAM (`MemoryMap`), the kernel cuts each table entry into power-of-two blocks (`Chunk`), a binary
buddy allocator splits and merges them (`Buddy`, `BuddyMacro`, `AllocatorRuns`), and two-level page tables
draw their frames from it (`PageTables`, `Paging`). `PhysMem` is the allocator in the source's own form: a
class with list heads and byte bitmaps in arrays and list links in the words of the free pages (`FreeList`,
`Bitmap`), each method proved against the functions of `Buddy`. `RawRelease` runs the release as written over
those words, with anything in the words of pages on no list. `Boot` runs the whole path, and `BootRecord` runs it
through the boot information record that carries the table from the loader to the kernel.

The central fact is that the free lists always hold exactly the *maximal whole blocks* of the set of free
pages: blocks that are entirely free and not part of a larger block that is. Complete coalescing, disjointness of
listed blocks, the meaning of the pair bits and independence of history all follow from it.

**Concurrency.** `Kernel` is a machine of atomic steps of any number of CPUs, processes and sleep locks:
scheduler, spin locks with veto counts, sleep locks, fork, wait and preemption. `KernelInv` gives its
invariant, `KernelTheorems` what follows in every run, `KernelStart` which veto count a new process must start
with. Interrupts arrive at any point of a process, also during a preemption. `KernelRuns` says what each function
of the kernel comes to when nothing disturbs it. `Scheduler` has the two loops over
the process table, `SeqLock` the timer's sequence counter with any number of readers.

**Boot information and kernel placement.** `RawMemory` is memory as bytes with the loader's memmove and
memset, `MultibootInfo` the Multiboot2 information record (section 3.6 of the Multiboot2 specification) as
built by the loader and walked by the kernel, `FindBlock` the search for free memory in wrapping 32-bit
arithmetic, `Elf`, `ElfFile` and `KernelLoad` the ELF loader, the bytes of the files it reads, and the
move-and-wipe at the end of loading the kernel.

`Options` and `Arith` are shared helpers; `Blocks` is the arithmetic of aligned blocks.

Verify with `dafny verify dfyconfig.toml`.

## Where the code departs from its purpose

These are results of the model; each is a lemma with a concrete input or an exact condition.

- `Page_Release` takes the buddy of the raw address at every level. `RawRelease.RawRightIffAligned`: whatever the
  two words of each page on no list hold, the release keeps the lists well formed and exact, if and only if the
  address is aligned to the last order it merges at. Otherwise it goes wrong when those words point to their
  own page; other contents can repair the list. `RawExample.RawHandsOutPagesTwice` is the end of a run from the empty
  allocator (`RawExample.BeforeIsReached`) at which the stray address is a page in use, and after which the same
  two pages are handed out twice. Blocks given straight back are always safe (`RawRelease.AcquireThenReleaseRaw`). The
  method `PhysMem.Allocator.Release` covers both: with the rounded address, and with the raw one.
- `Memory_StoreInfo` extends a region in one pass in index order. `MemoryMap.MergeExactIffChained`: its regions are
  the maximal runs of available bytes if and only if each run can be walked from its base to its end by entries
  of increasing index; sorted tables are of this kind. `MemoryMap.UnorderedMapLosesBytes` is a table that
  loses bytes. Rounding a region up wraps in the last page of the address space (`MemoryMap.RoundExactIff`), so the
  rounded table is right if and only if no run starts there (`MemoryMap.PageTableExactIff`). Compaction leaves an
  empty region behind exactly when two are adjacent (`MemoryMap.CompactCleanIff`).
- `State_Initialize` starts a stack's veto count at 0 although a new process first releases a lock it never
  acquired. `KernelStart.PreemptionWorksIff`: preemption happens, and only where no spin lock is held or awaited, if and
  only if the count starts at 1. From 0, as in the code, a process is preempted only where it holds or
  awaits exactly one lock (`KernelTheorems.PreemptsAt`), a lock holder can be switched out (`KernelStart.HoldersExecuteIff`) and a CPU
  can spin on a lock it holds itself (`KernelStart.NoWaitingCycleIff`).
- `Timer_GetTicks` is right if and only if no round of its loop lasts a whole turn of the 32-bit counter
  (`SeqLock.RightIffNoTurn`).
- `Memory_FindBlockAddress` is right on every map if and only if a block at the first grid point above the
  address ends within the 32-bit words, or that grid point is the sentinel (`FindBlock.RightIffNoOverflow`). Its strict
  comparison can skip a start whose block ends exactly where the entry does. `FindBlock.IdealIffSeen`: the search
  finds the nearest block that fits, if and only if that block has a byte to spare in some entry holding it, or
  starts at the first grid point of one that lies at or above the address; below an address only a block at
  zero can be skipped. `FindBlock.ExactFitMissedAbove` and `FindBlock.ExactFitMissedBelow` are maps where one is. Below
  an address, on an empty map, it returns 0 and not the sentinel (`FindBlock.EmptyMapIff`).
- `Multiboot_TerminateTag` accepts any size, but the record stays valid exactly for multiples of eight
  (`MultibootInfo.ValidIffMultipleOfEight`); its callers pad their tags accordingly.
- `Paging_UnmapPages` reports failure whenever its range runs into the last user page, even when every page was
  unmapped; the contract of `Paging.AddressSpaces.UnmapPages` says exactly when it does.
- `Paging_GetHigherHalfAddress` lets the address 0x80000000 itself through its range check. `Paging.EdgeIsZeroIff`:
  it returns 0 there exactly when the kernel's tables have no entry for that page, the entry lacks the user flag,
  or the sum wraps. `Paging.EdgeFails` is a kernel table for which it returns an address.

## Model

| member | source | states |
|---|---|---|
| Buddy.ReleaseCoalesces | kernel/core/memory/src/physmem.c:55-78 | releasing a block that is not free keeps the lists equal to the maximal whole blocks and adds exactly its pages to the free ones, whatever merges it causes |
| Buddy.AcquireExact | kernel/core/memory/src/physmem.c:87-107 | acquisition fails, changing nothing, exactly when no aligned run of 2^k pages is entirely free; otherwise it returns such a run, takes exactly its pages and keeps the invariant |
| Buddy.AcquireThenRelease | kernel/core/memory/src/physmem.c:49-111 | releasing the block just acquired restores all lists, in order, and all bitmaps |
| Buddy.ReleaseThenAcquire | kernel/core/memory/src/physmem.c:49-111 | a released block that merges with nothing is the next of its order to be acquired, which restores all lists and bitmaps |
| Buddy.AcquireSmallest | kernel/core/memory/src/physmem.c:87-107 | acquisition takes the lowest block of its order in the head of the first list that is not empty, leaves one upper half at each order in between and changes no other list |
| Buddy.HistoryIndependence | kernel/core/memory/src/physmem.c:49-147 | two allocators with the same free pages have the same blocks on each list and the same pair bits, whatever their histories |
| Buddy.ListedBlocksDisjoint | kernel/core/memory/src/physmem.c:49-147 | any two listed blocks share no page, and below the top order no two buddies are both listed |
| Buddy.BitTellsBuddy | kernel/core/memory/include/physmem.h:13-16 | for a block that is not free, its pair bit is on exactly when its buddy is listed, exactly when the buddy is entirely free |
| Buddy.RemoveBlock | kernel/core/memory/src/physmem.c:65-70 | unlinking a listed block and toggling its bit removes exactly its pages from the free ones |
| Buddy.InsertBlock | kernel/core/memory/src/physmem.c:137-145 | listing a block whose pages do not complete a larger one adds exactly its pages, and its pair bit was off |
| BuddyMacro.AddressIndex | kernel/core/memory/include/physmem.h:10-11 | shifting an address by 12 + k bits gives its order-k block, one bit more the pair of that block |
| BuddyMacro.BuddyIffAligned | kernel/core/memory/include/physmem.h:18 | the buddy macro gives the address of the other half of the parent block exactly when its argument is aligned to the order |
| RawRelease.RawRightIffAligned | kernel/core/memory/src/physmem.c:55-78 | run on the words of memory, release as written is right for every content of the words of pages on no list if and only if its address is aligned to the last order it merges at; if not, it is wrong when those words point to their own page |
| RawRelease.SafeReleaseHolds | kernel/core/memory/src/physmem.c:63-78 | with a rounded or so aligned address the words end up holding exactly the lists of the specified release |
| BuddyMacro.AcquiredAligned | kernel/core/memory/src/physmem.c:93-107 | a block just acquired is aligned to every order its release will merge through |
| RawRelease.AcquireThenReleaseRaw | kernel/core/memory/src/physmem.c:49-111 | so release as written gives back a block just acquired exactly, in words, lists and bits |
| RawExample.BeforeIsReached | kernel/core/memory/src/physmem.c:49-147 | a legal run from the empty allocator leads to the state of the next lemmas |
| RawExample.BeforeIsExact | kernel/core/memory/src/physmem.c:49-147 | that state is exact and the page it releases is in use |
| RawExample.StrayWordsExist | kernel/core/memory/src/physmem.c:104-105 | memory with those lists exists in which the stray page, itself in use, points to itself |
| RawExample.RawHandsOutPagesTwice | kernel/core/memory/src/physmem.c:63-78 | in any such memory releasing one page as written leaves a block on two lists, so that two acquisitions return overlapping blocks |
| Chunk.MapChunkExact | kernel/core/memory/src/physmem.c:113-147 | mapping a chunk next to free pages it does not complete to larger blocks keeps the allocator exact and adds exactly the chunk's pages |
| Chunk.ChunkTiled | kernel/core/memory/src/physmem.c:113-147 | on an empty allocator the blocks of a chunk cover it without gap or overlap, and no two buddies below the top order are both listed, across its low, central and top parts |
| Chunk.ListedBlocksTile | kernel/core/memory/src/physmem.c:49-147 | in every exact allocator the listed blocks tile the free pages |
| Chunk.SeparateByGap | kernel/core/memory/src/physmem.c:113-147 | a range with no free neighbour page cannot complete a larger block |
| AllocatorRuns.StepKeeps | kernel/core/memory/src/physmem.c:49-147 | mapping a chunk, acquiring and releasing each keep the invariant over free, outstanding and managed pages |
| AllocatorRuns.RunKeeps | kernel/core/memory/src/physmem.c:49-147 | the invariant holds after every legal sequence of operations |
| AllocatorRuns.StartIsExact | kernel/core/memory/src/physmem.c:35-47 | the empty allocator satisfies it |
| AllocatorRuns.ManagedPagesConserved | kernel/core/memory/src/physmem.c:49-147 | after every run each mapped page is on exactly one listed block or in exactly one outstanding block |
| AllocatorRuns.CoalescingIsComplete | kernel/core/memory/src/physmem.c:83-91 | after every run acquisition at an order fails exactly when every aligned run of that size holds an unmapped or outstanding page |
| Bitmap.ToggleBitIsToggle | kernel/core/memory/include/physmem.h:16 | the xor of a byte toggles one pair bit and no other |
| Bitmap.SetBitIsInsert | kernel/core/memory/include/physmem.h:14 | the or of a byte sets one pair bit and no other |
| FreeList.UnlinkKeepsWired | kernel/core/memory/src/physmem.c:66-70 | the link writes of an unlink leave all lists well formed, doubly linked and acyclic, with one block less |
| FreeList.PushKeepsWired | kernel/core/memory/src/physmem.c:75-78 | the link writes of a push leave all lists well formed with one block more in front |
| PhysMem.MapCovers | kernel/core/memory/src/physmem.c:7-33 | the bitmap of each order has a byte for every address below 0x70000000 |
| PhysMem.Allocator.constructor | kernel/core/memory/src/physmem.c:35-47 | all lists start empty |
| PhysMem.Allocator.ToggleMapBit | kernel/core/memory/include/physmem.h:16 | toggles the bit of the address's pair at the order and nothing else |
| PhysMem.Allocator.IsMapBitSet | kernel/core/memory/include/physmem.h:13 | reads the bit of the address's pair |
| PhysMem.Allocator.SetMapBit | kernel/core/memory/include/physmem.h:14 | sets the bit of the address's pair and nothing else |
| PhysMem.Allocator.ToggleUp | kernel/core/memory/src/physmem.c:55-61 | the toggling loop stops at the order where the release merges no further and leaves the bitmaps of the specified release |
| PhysMem.Allocator.UnlinkUp | kernel/core/memory/src/physmem.c:63-72 | in place, the loop writes the words that the specified rounds write, whatever is on the lists |
| PhysMem.Allocator.Unlink | kernel/core/memory/src/physmem.c:65-70 | in place, one round writes through the two words at the buddy, or to the list head, whatever is on the lists |
| PhysMem.Allocator.LinkFirst | kernel/core/memory/src/physmem.c:74-78 | in place, the block is written in front of its list, whatever is on it |
| PhysMem.Allocator.Release | kernel/core/memory/src/physmem.c:49-81 | the in-place release ends in exactly the specified words and bits, by the raw as by the rounded address; whenever the address is rounded or safe it ends in exactly the specified lists and adds the block's pages to the free ones; a null pointer changes nothing |
| PhysMem.Allocator.FirstListed | kernel/core/memory/src/physmem.c:87-91 | finds the lowest order from the requested one whose list is not empty |
| PhysMem.Allocator.Acquire | kernel/core/memory/src/physmem.c:83-111 | the in-place acquisition returns the specified block's address or null and ends in exactly the specified state |
| PhysMem.Allocator.SplitDown | kernel/core/memory/src/physmem.c:95-107 | the splitting loop reaches the state of the specified acquisition |
| PhysMem.LargestOrder | kernel/core/memory/src/physmem.c:121-124 | the loop finds the largest order whose block fits the size |
| PhysMem.LayOut | kernel/core/memory/src/physmem.c:126-133 | the computed cuts lie in order inside the chunk and both outer parts are smaller than it, so the recursion ends |
| PhysMem.Allocator.PushCentral | kernel/core/memory/src/physmem.c:136-145 | the central loop lists exactly the aligned blocks between the cuts |
| PhysMem.Allocator.MapMemoryChunk | kernel/core/memory/src/physmem.c:113-147 | the recursive method ends in the specified state, adds exactly the chunk's pages, and ignores chunks outside the managed range |
| PhysMem.Allocator.ClearMaps | kernel/core/memory/src/physmem.c:151-155 | all pair bits are off |
| MemoryMap.ClosestBoundary | bootloader/multiboot/src/memory.c:104-109 | the loop finds the lowest usable base at or past the cursor |
| MemoryMap.ExtendRegion | bootloader/multiboot/src/memory.c:111-118 | the loop extends the region as one pass in index order does |
| MemoryMap.MergeAvailable | bootloader/multiboot/src/memory.c:101-122 | the outer loop ends, the number of bases at or past the cursor falling, and yields the merged regions |
| MemoryMap.MergeSound | bootloader/multiboot/src/memory.c:101-122 | for any entries in any order the regions increase, are disjoint and not empty, and hold only available bytes |
| MemoryMap.MergeExactIffChained | bootloader/multiboot/src/memory.c:101-122 | the regions are exactly the maximal runs of available bytes if and only if every run is chained: entries of increasing index lead from its base to its end |
| MemoryMap.ChainOrderedIsChained | bootloader/multiboot/src/memory.c:101-122 | they do in every table in which no entry follows one that extends it |
| MemoryMap.SortedIsChainOrdered | bootloader/multiboot/src/memory.c:101-122 | a table sorted by base is of that kind |
| MemoryMap.UnorderedMapLosesBytes | bootloader/multiboot/src/memory.c:113-118 | two entries in the wrong order lose available bytes |
| MemoryMap.OneEntryTable | bootloader/multiboot/src/memory.c:101-122 | of a single entry, memory of type 1 flagged as valid becomes the table and any other is left out |
| MemoryMap.RoundTable | bootloader/multiboot/src/memory.c:126-135 | the loop shrinks every region as specified |
| MemoryMap.RoundExactIff | bootloader/multiboot/src/memory.c:128-133 | a region shrinks to exactly its whole pages if and only if it starts no higher than the last page of the address space |
| MemoryMap.CompactTable | bootloader/multiboot/src/memory.c:138-143 | the in-place loop, which does not examine the element after a removal, leaves the specified table |
| MemoryMap.CompactKeepsFilled | bootloader/multiboot/src/memory.c:138-143 | compaction keeps every non-empty region, in order |
| MemoryMap.CompactCleanIff | bootloader/multiboot/src/memory.c:138-143 | no empty region is left if and only if no two empty ones were adjacent |
| MemoryMap.CompactSeparated | bootloader/multiboot/src/memory.c:138-143 | regions that did not touch still do not |
| MemoryMap.StoreInfo | bootloader/multiboot/src/memory.c:95-146 | the whole function yields the merged, optionally rounded, compacted table |
| MemoryMap.PlainTableExact | bootloader/multiboot/src/memory.c:95-146 | without rounding the table is increasing, without empty regions and sound; it is the list of maximal runs if and only if every run is chained |
| MemoryMap.PageTableExactIff | bootloader/multiboot/src/memory.c:95-146 | with rounding, on a chained map, the regions are page aligned; they are in order, apart and hold exactly the pages all of whose bytes are available if and only if no run starts in the last page of the address space |
| Boot.InitializeMaps | kernel/core/memory/src/physmem.c:149-177 | clearing the bitmaps and mapping the table from its end leaves an exact allocator whose free pages are those of the taken regions |
| Boot.TakenPages | kernel/core/memory/src/physmem.c:113-116 | those pages are exactly the pages in runs of available pages that start between 1 MB and 0x70000000 |
| Boot.BootAllocator | kernel/core/memory/src/physmem.c:149-177 | from the table on, for chained maps where no run crosses 0x70000000: the allocator invariant holds and the free pages are exactly the whole available pages of runs starting at or above 1 MB |
| BootRecord.TableIsSaved | bootloader/multiboot/src/multiboot.c:341-357 | among any other boot information the RAM table is saved, and it is the only tag of its type |
| BootRecord.OneEntryTag | bootloader/multiboot/src/multiboot.c:409-419 | the bytes of the tag of a table with one entry |
| BootRecord.ReadTable | kernel/core/memory/src/physmem.c:165-177 | reading the entries behind the tag's headers gives the table that was saved |
| BootRecord.BootFromRecord | kernel/core/memory/src/physmem.c:149-177 | end to end: the table is rounded, saved in the record among any other information, found, read and mapped; the invariant holds and the free pages are exactly the whole available pages of runs starting at or above 1 MB |
| PageTables.BindPage | kernel/arch/paging/src/paging.c:48 | writing an absent entry with a frame that has no role adds one binding to one address space, gives the frame that role and changes nothing else |
| PageTables.UnbindPage | kernel/arch/paging/src/paging.c:58-64 | clearing a present entry removes one binding and frees exactly that frame of its role |
| PageTables.InstallTable | kernel/arch/paging/src/paging.c:37-40 | installing a zeroed table gives its frame a role and changes no binding |
| PageTables.InstallDirectory | kernel/arch/paging/src/paging.c:119-126 | a new directory gives an empty address space and changes no other |
| PageTables.ViewInjective | kernel/arch/paging/src/paging.c:28-95 | no frame is bound twice, in one address space or two |
| PageTables.OneSlot | kernel/arch/paging/src/paging.c:28-128 | no frame has two roles among directory, table and data page |
| PageTables.WalkIsView | kernel/arch/paging/src/paging.c:28-50 | the processor's walk through directory and table translates exactly the bound user pages, each to its frame, with user and write access |
| Paging.AddressSpaces.IsPageMapped | kernel/arch/paging/src/paging.c:15-25 | for user addresses true exactly for pages bound in the address space; for kernel addresses exactly when the kernel's tables have a word there |
| Paging.AddressSpaces.MapPage | kernel/arch/paging/src/paging.c:28-50 | succeeds exactly when the page is unbound and its table exists or can be made, then adds exactly one binding; otherwise changes nothing; frames conserved |
| Paging.AddressSpaces.UnmapPage | kernel/arch/paging/src/paging.c:52-66 | succeeds exactly for a bound page, then removes exactly that binding and frees its frame |
| Paging.AddressSpaces.MapPages | kernel/arch/paging/src/paging.c:68-95 | the first multiple of pages of the range, each unbound before, are bound to distinct frames that were free; they cover the whole range and no page beyond it, or stop at a bound page or when memory is out |
| Paging.AddressSpaces.UnmapPages | kernel/arch/paging/src/paging.c:97-115 | unbinds exactly the pages that start in the range of bytes, and reports failure exactly when one of them was unbound or the range runs into the last user page; where start or end wrap, the pages between the wrapped ones |
| Paging.AddressSpaces.Initialize | kernel/arch/paging/src/paging.c:117-128 | succeeds exactly when a frame is free, then creates an empty address space with the kernel's upper half; otherwise changes nothing |
| Paging.AddressSpaces.GetHigherHalfAddress | kernel/arch/paging/src/paging.c:201-210 | for user addresses the kernel address of the bound frame plus the offset, or 0 exactly when the page is not bound; 0 above 0x80000000, and there the address of the kernel's own tables |
| Paging.EdgeIsZeroIff | kernel/arch/paging/src/paging.c:202-206 | at 0x80000000 the result is 0 exactly when the kernel's entry is absent, its word is zero or lacks the user flag, or the sum wraps |
| Paging.EdgeFails | kernel/arch/paging/src/paging.c:202 | kernel tables for which an address outside the user half is translated |
| Paging.AddressSpaces.TakeFrame | kernel/core/memory/src/physmem.c:83-111 | taking a frame moves it from free to the caller and keeps the total |
| Paging.AddressSpaces.GiveFrame | kernel/core/memory/src/physmem.c:49-81 | giving a frame back moves it to free and keeps the total |
| Paging.AddressSpaces.FramesDistinct | kernel/arch/paging/src/paging.c:28-95 | the pages of an address space are bound to distinct frames |
| KernelInv.StepKeeps | kernel/core/taskmaster/src/scheduler.c:18-33 | every atomic step of every CPU, whatever the environment does and whatever count new stacks start with, keeps the machine's invariant |
| KernelInv.RunKeeps | kernel/core/taskmaster/src/scheduler.c:18-33 | the invariant holds after every interleaving |
| KernelInv.YieldKeeps | kernel/core/taskmaster/src/process.c:34-42 | a process that yields holds Process_lock before and after and its CPU goes on with that CPU's scheduler |
| KernelTheorems.SchedulerExcludes | kernel/core/taskmaster/src/scheduler.c:18-33 | in every run no process executes on two CPUs and no unsaved context is resumed; while Process_lock is free a process is running exactly when a CPU executes it, and a runnable one has a saved context |
| KernelTheorems.SwitchesHoldLock | kernel/core/taskmaster/include/scheduler.h:14-15 | every context switch happens under Process_lock, resumes a saved context, and returns a process to the scheduler of the CPU that dispatched it last |
| KernelTheorems.UnsavedFaults | kernel/core/taskmaster/include/scheduler.h:14-15 | a step that switches contexts faults exactly if the context resumed was not saved, and a fault is never cleared |
| KernelTheorems.SleepLockExcludes | kernel/core/synch/src/sleeplock.c:11-41 | at most one process is between the end of acquire and its release, the lock is marked locked while one is, and at most one holds the access lock |
| KernelTheorems.VetoIsLocksHeld | kernel/core/taskmaster/include/state.h:21-31 | in every run each stack's veto count is the number of spin locks it holds or waits for, at all the points stacked by nested interrupts, off by the starting count less one |
| KernelTheorems.PreemptsAt | kernel/core/taskmaster/src/process.c:44-59 | a preemption leaves the CPU only where the locks held and awaited at all the points below it number one less the starting count |
| KernelTheorems.HoldersStay | kernel/core/synch/src/spinlock.c:8-18 | with a positive starting count the holder of an access lock always executes |
| KernelTheorems.NoWaitingCycle | kernel/core/synch/src/sleeplock.c:11-41 | with a positive starting count no cycle of CPUs each spinning on a lock held on the next ever forms: access locks come before Process_lock |
| KernelStart.HoldersExecuteIff | kernel/core/taskmaster/src/state.c:7-14 | holders of access locks always execute if and only if the count starts above zero |
| KernelStart.NoWaitingCycleIff | kernel/core/taskmaster/src/state.c:7-14 | no waiting cycle forms if and only if the count starts above zero |
| KernelStart.PreemptionWorksIff | kernel/core/taskmaster/src/state.c:7-14 | preemption happens, and only where no spin lock is held or awaited, if and only if the count starts at one |
| KernelStart.PreemptedTwice | kernel/core/taskmaster/src/process.c:44-59 | a run preempts a process inside a preemption that has yet to test the count |
| KernelStart.PreemptedHolding | kernel/core/taskmaster/src/state.c:12 | from zero, as the code has it, a run preempts a process inside SleepLock_Acquire with the access lock held |
| KernelStart.SpinsOnItself | kernel/core/taskmaster/src/process.c:13-16 | from zero, a run makes an interrupt on first entry wait for the lock its own thread holds |
| KernelRuns.SchedulerDispatches | kernel/core/taskmaster/src/scheduler.c:18-33 | in every run, while Process_lock is free and a single slot is runnable, a scheduler at the top of its loop gets by its own steps to executing that slot's process, whichever slot it looks at first |
| KernelRuns.DispatchesFirst | kernel/core/taskmaster/src/scheduler.c:18-33 | among several runnable slots it dispatches the first one it comes to going round the table |
| KernelRuns.AcquiresFree | kernel/core/synch/src/sleeplock.c:16-27 | an undisturbed acquire of a free sleep lock ends with the process owning it and changes nothing else |
| KernelRuns.SleepsOnTaken | kernel/core/synch/src/sleeplock.c:17-21 | an undisturbed acquire of a taken one lets go of the access lock, puts the process to sleep on it and hands the CPU to its scheduler |
| KernelRuns.TriesAgain | kernel/core/synch/src/sleeplock.c:21-24 | a woken and dispatched sleeper clears its alarm, releases Process_lock and takes the access lock again |
| KernelRuns.ReleasesOwned | kernel/core/synch/src/sleeplock.c:31-41 | an undisturbed release frees the lock, makes exactly its sleepers runnable and changes nothing else |
| KernelRuns.AlarmWakes | kernel/core/taskmaster/src/scheduler.c:64-72 | the machine's alarm step makes exactly the processes asleep on the lock runnable, clears their alarm, and changes no other slot |
| KernelRuns.WaitsOrReturns | kernel/core/taskmaster/src/process.c:113-149 | an undisturbed wait puts the process to sleep and hands over the CPU, or returns with nothing changed |
| KernelRuns.Preempts | kernel/core/taskmaster/src/process.c:44-59 | an undisturbed interrupt of a running process whose count is zero and whose time is up makes it runnable and hands over the CPU |
| KernelRuns.PreemptsNot | kernel/core/taskmaster/src/process.c:44-59 | with time left, or a count that is not zero, the interrupted program goes on with nothing changed |
| KernelRuns.ResumesWork | kernel/core/taskmaster/src/process.c:13-16 | a dispatched process lets go of Process_lock and goes to work, or back to the point it was interrupted at |
| KernelRuns.Forks | kernel/core/taskmaster/src/process.c:61-92 | an undisturbed fork makes the lowest idle slot a process ready for its first dispatch; when it cannot be set up nothing changes |
| KernelRuns.SearchesAgain | kernel/core/taskmaster/src/scheduler.c:35-54 | while no slot is idle the booking loop lets go of Process_lock between two searches |
| Scheduler.ProcessTable.RaiseAlarm | kernel/core/taskmaster/src/scheduler.c:64-72 | the loop makes every process asleep on the lock runnable and clears its alarm, and leaves every other slot as it was |
| Scheduler.ProcessTable.Book | kernel/core/taskmaster/src/scheduler.c:35-54 | one pass books the first idle slot and changes nothing else, or finds that there is none |
| Scheduler.AlarmsCommute | kernel/core/taskmaster/src/scheduler.c:64-72 | an alarm raised twice acts once, and two alarms act the same in either order |
| SeqLock.RunKeeps | kernel/core/timer/src/timer.c:3-34 | every interleaving of the writer's and the readers' accesses, none of whose rounds lasts a turn of the counter, keeps the invariant |
| SeqLock.NeverTorn | kernel/core/timer/src/timer.c:15-34 | every returned value is half the even count first read, the increments completed at an instant inside the call, as a 64-bit number |
| SeqLock.NeverGoesBack | kernel/core/timer/src/timer.c:15-34 | a reader's results never decrease |
| SeqLock.CallReturns | kernel/core/timer/src/timer.c:21-33 | a round that starts between two increments and is not disturbed returns the increments completed so far |
| SeqLock.TurnedOver | kernel/core/timer/src/timer.c:21-31 | a round in which the counter turns over exactly once returns another value |
| SeqLock.RightIffNoTurn | kernel/core/timer/src/timer.c:15-34 | all results in all runs are right if and only if no round lasts a whole turn of the counter |
| FindBlock.AlignIsGrid | bootloader/multiboot/src/memory.c:149-153 | the aligned address is the nearest grid point on the requested side, unless that lies past the last word, where it wraps below the address |
| FindBlock.FindBlockAddress | bootloader/multiboot/src/memory.c:157-189 | the loop with its early return computes the specified search |
| FindBlock.RefusedHasNoFit | bootloader/multiboot/src/memory.c:159-161 | the search refuses at once only where no block fits, or for an empty block |
| FindBlock.FindIsRight | bootloader/multiboot/src/memory.c:157-189 | absent overflow the search returns the nearest start it accepts, or the sentinel exactly when there is none |
| FindBlock.NoneNearer | bootloader/multiboot/src/memory.c:157-189 | the result is aligned, on the requested side and inside one entry, and no aligned start is nearer that fits with a byte to spare above, or is not zero and fits below |
| FindBlock.RightIffNoOverflow | bootloader/multiboot/src/memory.c:167 | the search is right on every map if and only if the block at the first grid point above does not overflow, or that point is the sentinel |
| FindBlock.OverflowFails | bootloader/multiboot/src/memory.c:182 | otherwise one entry over all memory makes it return a block on the wrong side or past the end |
| FindBlock.IdealIffSeen | bootloader/multiboot/src/memory.c:157-189 | for every block that is not empty, absent overflow, the search returns the nearest aligned block that fits below the last 32-bit address, or the sentinel if none does, if and only if it sees that block: it has a byte to spare in an entry, or is the first grid point of an entry at or above the address |
| FindBlock.ExactFitMissedAbove | bootloader/multiboot/src/memory.c:182 | an entry whose last bytes are the nearest block that fits, and are not found |
| FindBlock.ExactFitMissedBelow | bootloader/multiboot/src/memory.c:182 | an entry at zero that is exactly the block, and is not found below its end |
| FindBlock.EmptyMapIff | bootloader/multiboot/src/memory.c:157-189 | on an empty map the search is right exactly above an address; below it returns 0 |
| FindBlock.PlaceIsFreeIff | bootloader/multiboot/src/multiboot.c:262 | the loader's check of the kernel's place passes exactly when one entry holds the block and has a byte to spare behind it or starts with it |
| RawMemory.Move | bootloader/multiboot/src/string.c:17-31 | the destination holds what the source held before, however the two overlap, and nothing else changes |
| RawMemory.Set | bootloader/multiboot/src/string.c:33-45 | the range holds the low byte of the value, and nothing else changes |
| MultibootInfo.CheckForValid | bootloader/multiboot/src/multiboot.c:9-17 | true exactly for an aligned start, a zero reserved word, a size that is a multiple of eight and a terminator at its end |
| MultibootInfo.CreateEmpty | bootloader/multiboot/src/multiboot.c:19-33 | at an aligned address writes the record of no tags and touches nothing else |
| MultibootInfo.FindTag | bootloader/multiboot/src/multiboot.c:35-54 | on a record the loop ends and returns the first tag of the type or the terminator; on an invalid one the null pointer |
| MultibootInfo.TerminateTag | bootloader/multiboot/src/multiboot.c:56-76 | writes a terminator behind the tag and counts its size, puts the terminator back over a tag of size zero, and leaves a terminator alone |
| MultibootInfo.AppendTag | bootloader/multiboot/src/multiboot.c:56-76 | after filling and terminating a tag memory holds the record with that tag appended |
| MultibootInfo.AbandonTag | bootloader/multiboot/src/multiboot.c:65-68 | after abandoning a tag memory holds the same record as before |
| MultibootInfo.Save | bootloader/multiboot/src/multiboot.c:341-357 | find, fill and terminate append the tag once, or leave the record if its type is there or it is abandoned |
| MultibootInfo.Build | bootloader/multiboot/src/multiboot.c:19-76 | any sequence of requests after an empty record leaves the valid record of exactly the saved tags, total size 16 plus theirs, and touches no other memory |
| MultibootInfo.SavedIsFirstKept | bootloader/multiboot/src/multiboot.c:35-76 | the tag found for a type is that of the first kept request for it |
| MultibootInfo.TagAt | bootloader/multiboot/src/multiboot.c:35-54 | memory at a tag's place decodes to the tag that was saved |
| MultibootInfo.ValidIffMultipleOfEight | bootloader/multiboot/src/multiboot.c:12 | after saving a tag the record is valid if and only if the tag's size is a multiple of eight |
| MultibootInfo.FindRamTable | kernel/core/memory/src/physmem.c:165-172 | the kernel's rounding walk visits exactly the saved tags in order and settles on the last one of type 99, and on as many entries of its stated size as its body holds |
| Elf.CheckStatic | bootloader/multiboot/src/elf.c:30-43 | true exactly for a valid executable without dynamic or interpreter segments |
| Elf.StaticLoadSize | bootloader/multiboot/src/elf.c:45-60 | the loop adds up the memory sizes of the loadable segments modulo 2^32 |
| Elf.LoadedSegment | bootloader/multiboot/src/elf.c:63-89 | the loaded image has exactly the precomputed size, and each loadable segment lies in it, file bytes then zeros, where those before it end |
| Elf.LoadStatic | bootloader/multiboot/src/elf.c:63-89 | apart from its destination the file's segments end up back to back there, and nothing else changes |
| ElfFile.StaticIffFile | bootloader/multiboot/src/elf.c:4-43 | memory that holds the encoded headers of a file passes the check exactly for a 32-bit little-endian executable for this machine with no dynamic or interpreter segment |
| ElfFile.SegmentIsHeader | bootloader/multiboot/src/elf.c:66-67 | the table the loader walks has the program headers of the file, in order |
| ElfFile.LoadSizeOfFile | bootloader/multiboot/src/elf.c:45-60 | the size is the sum of the memory sizes of the segments of type 1 |
| ElfFile.LoadedFileByte | bootloader/multiboot/src/elf.c:63-89 | loading a file leaves each of its segments of type 1 where the sizes of those before it end, its bytes of the file and then zeros, and changes no other byte |
| KernelLoad.CleanUp | bootloader/multiboot/src/multiboot.c:270-274 | wipes exactly the bytes of the file outside the kernel and leaves every other byte as it was |
| KernelLoad.Load | bootloader/multiboot/src/multiboot.c:261-274 | by each of the three paths the kernel's range holds its image, by the address and raw paths as it lay before anything moved and then zeroed bss; every byte of the file outside it is zero and no other byte changed; by those two paths place and file may overlap in any way, by the ELF path they lie apart |
| KernelLoad.LoadedSegmentByte | bootloader/multiboot/src/multiboot.c:267 | by the ELF path each segment's range ends with its bytes of the file as they were, then zeros |

## Left out

- PhysMem.Allocator.Acquire: the sequential allocator does not model Page_operation_lock; the source returns with it held when memory is out (physmem.c:90).
- PhysMem.Allocator.MapMemoryChunk: requires whole pages ending by 0x70000000 for chunks it accepts; for others the recursion or the bitmap accesses of the source are not defined.
- RawRelease.RawRightIffAligned: the two words at a stray address are independent of all others, as they are where a page starts; that the words at an address inside a page overlap other words is not modelled.
- MemoryMap.PageTableExactIff: for chained maps; on others the rounded table can still be right when all that is lost is parts of pages, and no condition is given for that.
- MemoryMap.StoreInfo: works on a sequence that is reassigned, not on the record's memory; the BIOS never reports empty entries, and 64-bit ends must not wrap.
- Paging.AddressSpaces.GiveFrame: gives frames back by the rounded release, so that the conservation of frames in `Paging` holds of the corrected allocator; with the raw release it holds as long as each release is safe in the sense of `RawRelease`.
- Paging.AddressSpaces.UnmapPage: user addresses only, as for MapPage.
- Paging.AddressSpaces.MapPage: user addresses only; the kernel half of a directory is shared and not changed.
- FindBlock.FindBlockAddress: the memory map's 64-bit ends must not wrap.
- MultibootInfo.FindTag: on memory that passes the validity check but is not a record built this way the loop of the source need not end.
- KernelLoad.Load: the file's own program headers must lie in memory and, on the ELF path, apart from where the kernel goes; the source does not check this, nor that more than the file's size is free for a kernel with bss.
- Free-page links and page-table words are kept in maps and sequences of their own, not in one shared memory.
- Long source functions are split into several methods where a proof needed it; their order of effects is that of the source.
- Process_Terminate, the reaping branches of Process_Wait and dead processes: a wait only sleeps or returns.
- Process fields that do not affect scheduling: identifiers, family links, endpoints, run times; whether a time slice is over is a choice of the environment.
- A wakeup missed between the release of the access lock and the acquisition of Process_lock in SleepLock_Acquire, and liveness and fairness in general: safety only.
- Weak memory: all steps are sequentially consistent; the timer's half writes and half reads are single steps.
- Interrupts while a scheduler thread runs: Process_Preempt returns at once there.
- Paging_Terminate, Paging_Clone, Paging_Copy and the flag setters: the first three are not correct as written.
- Finding the Multiboot header and interpreting its tags, loading modules, and everything behind disk, BIOS, video and console calls.
- GDT, IDT, PIC, APIC and PIT programming, ACPI scans and assembly boot stages.
