# BHOS kernel: verified model

BHOS is a small 32-bit x86 kernel written in C. This project models the parts of it that carry unbounded state and proves what they are for:

- **Physical pages** (`Blocks`, `Buddy`, `BuddyOps`, `BuddyRuns`, `BuddyAsWritten`, `Pmm`). The buddy allocator is first a value, `Pool`: eleven lists of page numbers, the single-page buffer, and a record of the blocks handed out and lost. Allocation, splitting, freeing and merging are functions on it, and every run of them keeps all pages partitioned into aligned blocks. Class `Pmm` is the allocator over its real data (the descriptor array with its `next` links, the list heads, the buffer's head); each of its methods is proved equal to the function on the pool.
- **Threads and synchronisation** (`Sched`, `SchedInv`, `SchedRuns`, `SchedLaws`, `Kernel`). The scheduler, semaphores and locks are a machine whose steps are the stretches of code that nothing can interrupt. Its runs keep the ring, the wait queues, the semaphore counts and the lock values right, lose no wake-up, and dispatch every READY thread in bounded time. What a semaphore holds is counted in the calls of the run, and a preempted thread comes back with interrupts on. Class `Kernel` does the same steps over TCBs linked by `next` and wait-queue nodes linked from the semaphores.
- **Virtual memory** (`Bitmap`, `Paging`, `Vm`, `VmInv`, `VmRuns`, `UserSpace`, `MemoryRuns`, `Vmm`, `UserTask`). The page bitmap in bytes refines a set of free pages. Page tables are words of physical memory, read by a model of the 32-bit page walk (Intel SDM Volume 3A, section 4.3) and written through a directory that maps itself. A process's directory is read and written at the kernel page taken for it, as the code does. Runs keep one kernel half in all address spaces, kernel pages in different frames, and directories shown at their pages, under conditions that are stated and exact. `UserSpace` proves what the address spaces are for: every user page is a frame of its own, apart from every other process, from the kernel and from all tables, and user mode reaches nothing of the kernel. `MemoryRuns` runs both memory managers together and proves that each frame handed to the virtual side is one not in use. Class `Vmm` and module `UserTask` are the C functions over the bitmap's bytes and the page-table words.
- **Text** (`CString`, `Printk`, `Vga`). Numerals read back as their number, the in-place formatter equals one pass over the format string in which every conversion prints its argument, and the scrolling screen is a window on the stream of cells written to it.

Modules `Machine`, `Sequences` and `Wrappers` hold what the parts share.

A class carries a ghost value (`pool`, `sys`, `vm`, `stream`) that its `Linked` or `Valid` predicate ties to its fields. A method's contract says how that value changes; the lemmas about the value then hold of the code.

## Where the code and its intent differ

- **Split class.** The split loop passes `pop_page_no - 1` as the class of a half (kernel/modules/pmm/pmm.c:402). `Pmm.Pmm.AllocHelper` passes `pop_ph - 1`. `BuddyAsWritten.LiteralSplit` is the loop as written; `LiteralSplitRightIff` says that it keeps the partition exactly when nothing is split, and `LiteralSplitExample` breaks it with two calls after start-up.
- **No cap on merging.** `free_helper` goes on past the class of 1024 pages to a class without a list. There `append_block` reads a list head it never set; the model takes the reading in which that head is NULL, so such a block ends up in `lost`. `FreeLosesIff` says exactly when, `FreeGivesBack` says that otherwise freeing conserves pages, and `FreeLosesExample` is a run of two calls that loses 2048 pages.
- **Search misses the head.** `find_and_pop_block` never finds the head of a list with two or more nodes. This is modelled as it is, so nothing here says that two free buddies are always merged; `HeadMissedExample` is a run after which two buddies are both free.
- **Presence tests.** In `*p==(*p)|1` the comparison binds tighter, so the test always succeeds. `V2P` is the code as it is; `V2PDocumentedIff` and `V2PFaultsIff` say when its answer is the documented one, and `ReleasedPageStillAnswers` that for a released page it is the old frame.
- **Blocking the last thread.** When a thread blocks and nobody else is READY, `schedule` sets it RUNNING with its node still queued. The step function does so too. `StepKeepsInvIff` says that the system invariant survives a step exactly when this does not happen; `SelfWakeBreaks` shows the broken state, and `SelfWakeExample` reaches it two steps after start-up.
- **Kernel page tables at boot.** Boot means one page table for each slot of the kernel half, but its 16-bit `mul` leaves the high half of the product in another register (boot/boot.s:58-61), so the tables repeat every 16 slots. The class contracts ask for nothing about the tables but that they are present, and whatever they are, every step but one keeps the kernel half shared. The exception is a switch to a process whose directory has been displaced: `DirectoryShownIff` says that an allocation leaves a directory shown at its page if and only if it takes a page with another entry, `ApplyKeepsIff` that a switch is harmless if and only if the frame it loads is a directory, and `BootDirectoryExample` goes wrong two allocations after the real boot. `KernelHalfShared` therefore holds for every run in which no two slots share a table (`DirectoriesStayShown`), and for any tables as long as switches load directories. Kernel pages can collide too: `MappingSafetyIff` says that they stay apart in every run if and only if no two slots share a table, `BootTablesRepeat` that the tables of the real boot do, and `BootCollisionExample` that allocating the page at 0xC4000000 right after start-up moves the kernel's first page to the new frame.
- **Releasing reserved pages, failed user allocations.** `KernReleaseKeepsIff` and `ReleaseBitKeepsIff` say exactly which addresses keep the invariant; `ReleaseReservedUnshares` and `FailedUserAllocFreesKernelPage` are what happens otherwise.

## Model

| member | source | states |
|---|---|---|
| Blocks.UpperBuddyTest | kernel/modules/pmm/pmm.c:49-57 | the wrapping 32-bit test for the upper buddy decides the right bit, also for page 0 |
| Blocks.PartnerFlipsBit | kernel/modules/pmm/pmm.c:49-57 | the partner's page number is the page number exclusive-or 2^size |
| Blocks.PartnerInRange | kernel/modules/pmm/pmm.c:49-57 | the partner of an aligned block is aligned and a 32-bit number |
| Blocks.PartnerInvolution | kernel/modules/pmm/pmm.c:49-57 | the partner's partner is the block itself |
| Blocks.LowerAligned | kernel/modules/pmm/pmm.c:477-487 | the lower of two buddies is aligned for the next class, so merging keeps blocks aligned |
| Blocks.HalvesAligned | kernel/modules/pmm/pmm.c:399-407 | both halves of a split block are aligned, and they are partners |
| Buddy.TilesPartition | kernel/modules/pmm/pmm.c:329-396 | a tiling lists every block once, its blocks are aligned and pairwise disjoint, and they cover exactly the pages below the limit |
| Buddy.InvNodesDisjoint | kernel/modules/pmm/pmm.c:329-511 | under the pool invariant no page descriptor is on two lists or twice on one |
| BuddyOps.FindAndPop | kernel/modules/pmm/pmm.c:249-314 | what a successful search leaves of the list; the head of a list with two or more nodes is never found |
| BuddyOps.FindAndPopRemoves | kernel/modules/pmm/pmm.c:249-314 | a successful search removes exactly one node, the one searched for |
| BuddyOps.MergeUp | kernel/modules/pmm/pmm.c:477-487 | freeing a buddy block changes the lists and the lost blocks and nothing else |
| BuddyOps.ClassForBounds | kernel/modules/pmm/pmm.c:410-431 | the class computed for n pages is the smallest one of at least n pages: n <= size < 2n |
| BuddyOps.SplitKeepsPartition | kernel/modules/pmm/pmm.c:399-407 | splitting keeps the pages partitioned: the halves put back and the remaining block tile the popped block |
| BuddyOps.SplitLists | kernel/modules/pmm/pmm.c:399-407 | the split loop appends exactly one half to each class from the requested one up to below the popped one |
| BuddyOps.AllocPagesLists | kernel/modules/pmm/pmm.c:410-442 | list by list what an allocation changes: the popped class loses its last block, the classes below gain one half each |
| BuddyOps.AllocPagesKeepsInv | kernel/modules/pmm/pmm.c:410-442 | multi-page allocation keeps the partition and the regions |
| BuddyOps.AllocOneKeepsInv | kernel/modules/pmm/pmm.c:446-475 | single-page allocation keeps them |
| BuddyOps.MergeUpKeepsInv | kernel/modules/pmm/pmm.c:477-487 | every merge chain keeps them, lost blocks counted |
| BuddyOps.FreeKeepsInv | kernel/modules/pmm/pmm.c:490-511 | freeing any block that is held keeps them |
| BuddyRuns.InitPartitions | kernel/modules/pmm/pmm.c:329-391 | start-up with any page count from 2048 on partitions all pages; with more than 2048 pages the buffer gets 1 to 1024 of them |
| BuddyRuns.StepKeepsInv | kernel/modules/pmm/pmm.c:410-511 | each operation of a run keeps the pool invariant |
| BuddyRuns.RunPartitions | kernel/modules/pmm/pmm.c:329-511 | after every run from start-up the free blocks, the buffered pages, the blocks handed out and the lost ones are disjoint, aligned, and cover exactly all pages |
| BuddyRuns.AllocBestFit | kernel/modules/pmm/pmm.c:410-442 | in every state, an allocation succeeds iff some class that is large enough has a block, takes it from the smallest such class, and returns n <= size < 2n; a failure changes nothing |
| BuddyRuns.FreeIsComplement | kernel/modules/pmm/pmm.c:329-511 | a page is free exactly when it is neither handed out nor lost |
| BuddyRuns.AllocTakesBlock | kernel/modules/pmm/pmm.c:399-442 | an allocation takes exactly the pages of the returned block out of the free pages |
| BuddyRuns.AllocOneTakes | kernel/modules/pmm/pmm.c:446-475 | a single-page allocation takes exactly the returned page out of the free pages |
| BuddyRuns.AllocOneServes | kernel/modules/pmm/pmm.c:446-475 | a request for one page succeeds iff the buffer or some class has a page; it gets the buffer's last page, and without a buffer the last block of the smallest class that has one |
| BuddyRuns.AllocOneFailsIff | kernel/modules/pmm/pmm.c:446-475 | a request for one page fails iff no page at all is free |
| BuddyRuns.FreedSingleIsNext | kernel/modules/pmm/pmm.c:446-511 | a buffer page given back is the next one handed out |
| BuddyRuns.MergeUpLists | kernel/modules/pmm/pmm.c:477-487 | list by list what freeing a buddy block changes: every class it passes loses exactly its buddy, the first class without a buddy gains the merged block, no other list changes |
| BuddyRuns.MergeLoss | kernel/modules/pmm/pmm.c:477-487 | a merge chain loses its block exactly when it finds a buddy in every class |
| BuddyRuns.FreeLosesIff | kernel/modules/pmm/pmm.c:477-511 | freeing loses pages exactly when the merge chain runs through all lists, and then the whole block of 2048 pages |
| BuddyRuns.FreeGivesBack | kernel/modules/pmm/pmm.c:477-511 | a free whose merge chain stops adds exactly the freed block's pages to the free pages |
| BuddyAsWritten.FirstHalfMisaligned | kernel/modules/pmm/pmm.c:399-407 | the half put back first by the loop as written is never aligned for the class it is put under |
| BuddyAsWritten.LiteralSplitRightIff | kernel/modules/pmm/pmm.c:399-442 | the loop as written keeps the partition exactly when the popped class is the requested one |
| BuddyAsWritten.LiteralSplitExample | kernel/modules/pmm/pmm.c:399-442 | as written, two requests for 4 pages after start-up, with any page count, put page 12 on the list of 128-page blocks and break the partition |
| BuddyAsWritten.HeadMissedExample | kernel/modules/pmm/pmm.c:296-313 | after three one-page requests and two frees the buddies 2 and 3 are both free, because 3 is the head of its list |
| BuddyAsWritten.FreeLosesExample | kernel/modules/pmm/pmm.c:477-487 | with 5000 pages, taking and returning 1024 pages after start-up loses 2048 |
| Pmm.Pmm.constructor | kernel/modules/pmm/pmm.c:329-391 | start-up over the descriptor array gives the initial pool and valid lists |
| Pmm.Pmm.AppendBlock | kernel/modules/pmm/pmm.c:62-130 | the class list is appended to; no descriptor outside that list changes |
| Pmm.Pmm.AppendErro | kernel/modules/pmm/pmm.c:121-130 | appending to the class without a list changes no list, when the head that is never set reads as NULL |
| Pmm.Pmm.PopBlock | kernel/modules/pmm/pmm.c:133-245 | the last block of the list is taken, or the error value returned and nothing changed |
| Pmm.Pmm.FindAndPopBlock | kernel/modules/pmm/pmm.c:249-314 | the search equals `FindAndPop` on the list; on failure nothing changes |
| Pmm.Pmm.GetPartnerPageNo | kernel/modules/pmm/pmm.c:49-57 | the 32-bit code computes the partner |
| Pmm.Pmm.FreeHelper | kernel/modules/pmm/pmm.c:477-487 | the recursion over the linked lists equals `MergeUp` and leaves the buffer's descriptors alone |
| Pmm.Pmm.AllocHelper | kernel/modules/pmm/pmm.c:399-407 | the split loop over the linked lists equals `Split` |
| Pmm.Pmm.ClassOf | kernel/modules/pmm/pmm.c:416-424 | the counting loop computes the class |
| Pmm.Pmm.PopSmallest | kernel/modules/pmm/pmm.c:426-434 | the block comes from the first non-empty class |
| Pmm.Pmm.AllocPages | kernel/modules/pmm/pmm.c:410-442 | keeps the heap valid; the state is 1 iff a class that is large enough has a block, and then count <= 2^size < 2 * count and address and size name exactly the block now handed out; otherwise nothing changes |
| Pmm.Pmm.PopSingle | kernel/modules/pmm/pmm.c:448-470 | the buffer's last page is taken and its link is NULL |
| Pmm.Pmm.AllocOnePage | kernel/modules/pmm/pmm.c:446-475 | the state is 1 iff a page is free, and then address and size 0 name exactly the page now handed out, the buffer's last one if it has any |
| Pmm.Pmm.AppendSingle | kernel/modules/pmm/pmm.c:497-505 | a returned page whose link is NULL goes to the end of the buffer, without a reset |
| Pmm.Pmm.FreePage | kernel/modules/pmm/pmm.c:490-511 | freeing a held block gives the pool of `Free` and takes exactly that block off what is handed out; exactly an address out of range is refused and changes nothing; every held buffer page still has a NULL link |
| Pmm.Pmm.AllocAndFree | kernel/modules/pmm/pmm.c:410-511 | every answer of an allocation can be given back as it is; then the same blocks are handed out as before, and the same pages free unless the merge chain lost a block |
| Pmm.Pmm.AddrInRangeIff | kernel/modules/pmm/pmm.c:33-40 | in 32-bit arithmetic exactly the managed addresses lead to a page, and page and address convert back and forth |
| Sched.Scan | kernel/modules/threads/threads.c:126-153 | the search stops at the first READY thread of the ring, or after one round |
| SchedRuns.StepKeepsInv | kernel/modules/threads/threads.c:74-188 | every step keeps the system invariant, given that blocking leaves someone READY |
| SchedRuns.SelfWakeBreaks | kernel/modules/threads/threads.c:130-137 | blocking the last thread leaves it RUNNING and queued, against the invariant |
| SchedRuns.SelfWakeExample | kernel/modules/sync/sync.c:51-64 | the main thread alone, waiting on a new semaphore of value 0, is RUNNING and queued at once |
| SchedRuns.StepKeepsInvIff | kernel/modules/threads/threads.c:114-188 | a step keeps the invariant if and only if it does not block the last thread that could run |
| SchedRuns.RunInvariant | kernel/modules/threads/threads.c:52-188 | in every run from start-up: one cycle through main and the running thread, exactly that one RUNNING, every BLOCKED thread once on exactly one queue, nobody else queued |
| SchedRuns.NeverRequeued | kernel/modules/sync/sync.c:23-34 | the node a thread brings to a wait queue is not linked already |
| SchedRuns.QueuesAreFifo | kernel/modules/sync/sync.c:13-79 | every wait queue is first in, first out: a step appends the running thread exactly when it blocks there, removes the head exactly when it wakes a waiter, and otherwise leaves it alone |
| SchedRuns.NoLostWakeup | kernel/modules/sync/sync.c:51-79 | completed P's never outrun the initial value plus V's; a semaphore's value is the difference, exactly while it fits 32 bits and modulo 2^32 afterwards; and with a non-empty queue it is at most the number of threads woken and not yet re-checked |
| SchedLaws.SemaphoreCounts | kernel/modules/sync/sync.c:46-102 | from its creation with n on, by `sem_init` or `lock_init`, a semaphore's value is n plus the V's minus the P's that have passed, both counted in the steps of the run, modulo 2^32 and never below 0 |
| SchedLaws.CountsFrom | kernel/modules/sync/sync.c:51-102 | the same from any point of a run on |
| SchedLaws.RecordsAreCounts | kernel/modules/sync/sync.c:46-102 | the V's and P's a semaphore records are those made in the run since its creation |
| SchedLaws.StepHandsOver | kernel/modules/threads/threads.c:114-188 | a step hands over iff it blocks, or is a tick that finds the slice used up and another thread READY; it goes to the first READY thread behind the running one, with a full slice, and with interrupts on iff that thread is outside `sem_P` |
| SchedLaws.PreemptedComesBackOn | kernel/modules/interrupt/interrupt.c:52-61 | in every run a thread preempted by a tick is next RUNNING with interrupts on, however long it was READY |
| SchedLaws.FullSlice | kernel/modules/interrupt/interrupt.c:52-61 | a dispatched thread that does not block keeps the processor through TIME_CONT ticks, and its slice and its tick count are exact |
| SchedLaws.AloneStartsAgain | kernel/modules/threads/threads.c:126-143 | with nobody else READY, a used-up slice starts again and nothing else changes |
| SchedLaws.NewThreadIsNext | kernel/modules/threads/threads.c:74-93 | a new thread is READY right behind its creator, which runs on with interrupts on; it is the next to be handed to, and nothing else changes |
| SchedLaws.LockCallsWithoutEffect | kernel/modules/sync/sync.c:86-102 | release by anyone but the holder and acquire by the holder change nothing |
| SchedRuns.OnlyHolderReleases | kernel/modules/sync/sync.c:86-102 | a lock leaves its holder exactly when the holder releases it |
| SchedRuns.HolderChangesThroughRelease | kernel/modules/sync/sync.c:86-102 | over every run, a lock that has left its holder was released by that holder in between |
| SchedRuns.LockIsTaken | kernel/modules/sync/sync.c:86-94 | whoever gets a free lock is the running thread, and the semaphore goes from 1 to 0 |
| SchedRuns.LockValue | kernel/modules/sync/sync.c:81-101 | in every run a lock's semaphore is 1 if the holder is NULL and 0 otherwise |
| SchedRuns.CallRestoresFlag | kernel/modules/interrupt/interrupt.c:267-283 | a step that returns from a call sets the flag that call found; a step that blocks keeps it on record |
| SchedRuns.OthersKeepPc | kernel/modules/sync/sync.c:51-79 | no step of another thread touches where a thread stands in its call |
| SchedRuns.FlagOnReturn | kernel/modules/sync/sync.c:51-102 | over every run, each P, V, acquire and release returns with the interrupt flag it found, however often it waits in between |
| SchedRuns.DispatchAdvances | kernel/modules/threads/threads.c:154-166 | each dispatch shortens the ring distance of every thread that stays READY |
| SchedRuns.StepAdvances | kernel/modules/threads/threads.c:114-188 | no step takes a READY thread further from its turn, and each tick brings it closer |
| SchedRuns.BoundedWaiting | kernel/modules/interrupt/interrupt.c:52-61 | with n threads and no creation, nobody stays READY through (n-1)(TIME_CONT+1) ticks |
| Kernel.Kernel.constructor | kernel/modules/threads/threads.c:38-56 | the main thread alone on the ring, RUNNING with a full time slice |
| Kernel.Kernel.FindReady | kernel/modules/threads/threads.c:126-153 | the walk along `next` terminates at the first READY thread, or at the running one after one round |
| Kernel.Kernel.Schedule | kernel/modules/threads/threads.c:114-167 | the linked TCBs change as the machine's scheduler says |
| Kernel.Kernel.SwitchTo | kernel/modules/threads/threads.c:154-166 | the old thread READY unless blocked, the new one RUNNING with a full time slice and its own flag |
| Kernel.Kernel.ThreadBlock | kernel/modules/threads/threads.c:173-181 | the running thread BLOCKED inside its call, and the scheduler run with interrupts off |
| Kernel.Kernel.ThreadWakeup | kernel/modules/threads/threads.c:183-188 | the thread READY, the flag as before |
| Kernel.Kernel.InsertThread | kernel/modules/threads/threads.c:74-100 | the new TCB follows the running one, and the ring is still one cycle |
| Kernel.Kernel.CreateThread | kernel/modules/threads/threads.c:74-100 | the new TCB is linked between the running one and its successor, READY with a full slice; one step of the machine that keeps its invariant |
| Kernel.Kernel.QueueAdd | kernel/modules/sync/sync.c:23-34 | the thread's node goes to the end of the queue; all queues stay NULL-terminated |
| Kernel.Kernel.QueueGet | kernel/modules/sync/sync.c:13-21 | the first node is unlinked, or nothing changes |
| Kernel.Kernel.QueueIsEmpty | kernel/modules/sync/sync.c:36-44 | says whether the queue is empty |
| Kernel.Kernel.CliCondition | kernel/modules/interrupt/interrupt.c:267-275 | interrupts off, and the old flag returned |
| Kernel.Kernel.StiCondition | kernel/modules/interrupt/interrupt.c:277-283 | the flag set to the saved condition |
| Kernel.Kernel.SemPTurn | kernel/modules/sync/sync.c:51-64 | one turn of the loop: queue up and block at 0, otherwise take and return |
| Kernel.Kernel.SemP | kernel/modules/sync/sync.c:51-64 | P from the call to its return or its block is one step of the machine; when it passes, the value is one less and the flag as before; the state stays valid iff blocking leaves someone READY |
| Kernel.Kernel.Resume | kernel/modules/sync/sync.c:53-64 | a woken thread goes on behind `schedule()` and checks the value again, as one step of the machine |
| Kernel.Kernel.WakeOne | kernel/modules/sync/sync.c:66-76 | the first waiter, if any, is taken off the queue and READY |
| Kernel.Kernel.SemV | kernel/modules/sync/sync.c:66-79 | wakes the first waiter and counts the value up by one, 32 bits wide, with the flag as before |
| Kernel.Kernel.Signal | kernel/modules/sync/sync.c:66-79 | V is one step of the machine and keeps its invariant; the value is one more, 32 bits wide |
| Kernel.Kernel.NewSem | kernel/modules/sync/sync.c:46-49 | a semaphore with an empty queue and its initial value |
| Kernel.Kernel.NewLock | kernel/modules/sync/sync.c:81-84 | a lock nobody holds, its semaphore at 1 with an empty queue |
| Kernel.Kernel.LockAcquire | kernel/modules/sync/sync.c:86-93 | acquire is one step of the machine; the state stays valid iff blocking leaves someone READY |
| Kernel.Kernel.LockRelease | kernel/modules/sync/sync.c:95-101 | release is one step of the machine and keeps its invariant; from anyone but the holder it changes nothing |
| Kernel.Kernel.Timer | kernel/modules/interrupt/interrupt.c:52-61 | a tick takes one off the time slice and counts it, or runs the scheduler when it is used up; a preempted thread is READY, with interrupts on when it comes back |
| Bitmap.SubtractClears | kernel/modules/bitmap/bitmap.c:28-33 | subtracting the mask of a set bit clears that bit and no other |
| Bitmap.OrTest | kernel/modules/bitmap/bitmap.c:28-30 | the byte equals itself with the mask set exactly when the page's bit is set |
| Bitmap.SameSetSameBytes | kernel/modules/bitmap/bitmap.c:8-89 | the set of free pages determines the bitmap byte for byte |
| Bitmap.InRangeIff | kernel/modules/bitmap/bitmap.c:22-24 | the 32-bit range test is the mathematical one for every page-aligned region up to 2^32, unless the region is empty and at address 0 |
| Bitmap.RangeTest | kernel/modules/bitmap/bitmap.c:52-54 | the same for one address and a non-empty region, also when it ends at 2^32 |
| Bitmap.Bitmap.InitMem | kernel/modules/bitmap/bitmap.c:8-12 | every page of the region is free |
| Bitmap.Bitmap.AllocOnePage | kernel/modules/bitmap/bitmap.c:18-43 | succeeds iff the page is in range and free, and takes that page only; a failure changes no byte |
| Bitmap.Bitmap.ReleaseOnePage | kernel/modules/bitmap/bitmap.c:48-61 | inserts the page; out of range no byte changes |
| Bitmap.Bitmap.Alloc | kernel/modules/bitmap/bitmap.c:66-89 | takes the lowest free page; with none free no byte changes |
| Bitmap.Bitmap.LeadingBit | kernel/modules/bitmap/bitmap.c:73-81 | the shifting loop finds the leftmost set bit |
| Paging.GetPte | kernel/modules/vmm/vmm.c:81-87 | directory slot 1023, then the address's fields moved down one level |
| Paging.GetPteBits | kernel/modules/vmm/vmm.c:81-87 | the masks and shifts of the C expression give these fields |
| Paging.GetPde | kernel/modules/vmm/vmm.c:90-96 | slots 1023 and 1023, then the directory index |
| Paging.GetPdeBits | kernel/modules/vmm/vmm.c:90-96 | the masks and shifts of the C expression give these fields |
| Paging.PdeIsPteOfPte | kernel/modules/vmm/vmm.c:81-96 | `get_pde` is `get_pte` applied twice |
| Paging.WalkOfGetPte | kernel/modules/vmm/vmm.c:81-87 | under a self-mapped directory the walk of `get_pte(v)` lands on v's own page-table entry, and faults exactly when v has no table |
| Paging.WalkOfGetPde | kernel/modules/vmm/vmm.c:90-96 | the walk of `get_pde(v)` lands on v's directory entry |
| Paging.V2PIsWalk | kernel/modules/vmm/vmm.c:210-241 | `vmm_v2p` is the hardware walk for every address with present entries |
| Paging.V2PDocumentedIff | kernel/modules/vmm/vmm.c:210-241 | for an address with a page table the answer is the documented one iff the page is present, or the stale entry spells the error value |
| Paging.V2PFaultsIff | kernel/modules/vmm/vmm.c:210-241 | `vmm_v2p` faults iff the address has no page table |
| VmInv.StoreToSlot | kernel/modules/vmm/vmm.c:129-131 | in every address space the entry of a kernel page is written in its kernel page table, never in a directory |
| VmInv.SlotsDiffer | kernel/modules/vmm/vmm.c:81-87 | with a page table of its own for every slot, no two kernel pages share an entry |
| VmInv.KernAllocAtKeeps | kernel/modules/vmm/vmm.c:142-178 | a kernel allocation takes one page below the reserved ones and maps it to a fresh frame; a failed one changes nothing |
| VmInv.KernAllocOneKeeps | kernel/modules/vmm/vmm.c:104-140 | a targeted allocation succeeds iff the page is free and a frame is there; a failed one changes nothing |
| VmInv.KernReleaseKeepsIff | kernel/modules/vmm/vmm.c:183-206 | a release keeps the invariant iff the address is below the reserved pages |
| VmInv.CreatePdtKeeps | kernel/modules/user_task/user_task.c:68-102 | a new directory shares the kernel half, maps itself, and is shown at its page; without a frame nothing changes |
| VmInv.V2POfPage | kernel/modules/vmm/vmm.c:210-241 | of a kernel page below the reserved ones `vmm_v2p` answers the frame in its entry, present or not; it never faults and never spells the error value |
| VmInv.ActivateKeepsIff | kernel/modules/user_task/user_task.c:113-141 | switching to a process keeps the invariant iff the frame in the entry of its `pdt_vaddr` is a directory; with kernel pages apart, the page of a directory not given back loads that directory |
| VmInv.CreateTableKeeps | kernel/modules/vmm/vmm.c:282-305 | a user page table, entered through `pdt_vaddr`, keeps the kernel half shared whatever that page shows, and kernel pages apart when it is the page of a directory; without a frame nothing changes |
| VmInv.EnterUserKeeps | kernel/modules/vmm/vmm.c:343-359 | entering a user page changes no directory and no kernel table; it faults iff the active directory has no table for the address, and otherwise maps it to the frame |
| VmInv.ReleaseBitKeepsIff | kernel/modules/vmm/vmm.c:361-363 | the clean-up of a failed user allocation keeps the invariant iff the address is below the reserved pages; it frees the page of a kernel address, no other, and changes no memory |
| VmInv.EntryBits | kernel/modules/vmm/vmm.c:131-356 | entries of kernel pages and directories are writable and closed to user mode, entries of user pages and user tables writable and open to it |
| VmInv.UserAllocKeeps | kernel/modules/vmm/vmm.c:310-366 | user page allocation, at any address below the reserved pages, keeps the kernel half shared whatever `pdt_vaddr` shows, and kernel pages apart when it is the page of a directory; with or without a new table, whatever fails or faults |
| VmRuns.InitInv | kernel/modules/vmm/vmm.c:26-47 | after `vmm_kern_init` the kernel half is shared, no reserved page is free and busy pages are apart, whatever tables boot left; the full invariant holds iff no two slots share a table |
| VmRuns.ApplyKeepsIff | kernel/modules/user_task/user_task.c:113-141 | a step of a run keeps the kernel half shared iff it is no switch to a frame that is not a directory; with kernel pages apart no step is |
| VmRuns.KernelHalfShared | kernel/modules/user_task/user_task.c:68-141 | at every point of every run each kernel address below the reserved pages translates the same under every user directory and the kernel's: with no two slots sharing a table in every run, with any tables as long as switches load directories |
| VmRuns.ReservedStay | kernel/modules/vmm/vmm.c:43-46 | in every run no reserved page is ever free to hand out, whatever the tables are and whatever switches load |
| VmRuns.MappingSafety | kernel/modules/vmm/vmm.c:26-206 | with a table of its own for every slot, at every point of every run busy kernel pages translate to different frames |
| VmRuns.MappingSafetyIff | kernel/modules/vmm/vmm.c:26-206 | with two frames left, kernel pages stay mapped and apart in every run from start-up iff no two slots share a page table |
| VmRuns.AliasIff | kernel/modules/vmm/vmm.c:104-140 | after allocating a free page next to a busy one, the two translate to one frame iff they share their entry |
| VmRuns.DirectoriesStayShown | kernel/modules/user_task/user_task.c:88-141 | with a table of its own for every slot, at every point of every run the page of a directory not given back shows that directory: `vmm_v2p` answers it and a switch loads it |
| VmRuns.DirectoryShownIff | kernel/modules/vmm/vmm.c:142-178 | for any tables, an allocation leaves the directory shown at a page iff it takes a page with another entry; otherwise a switch loads the new frame, and the kernel half is no longer shared |
| VmRuns.BootDirectoryExample | boot/boot.s:53-66 | after the real boot, creating a directory and allocating the page 16 slots on makes a switch load a frame that is no directory |
| VmRuns.BootTablesRepeat | boot/boot.s:53-66 | the tables of the real boot repeat every 16 slots, so start-up is sound but two slots share a table |
| VmRuns.BootCollisionExample | boot/boot.s:53-66 | right after start-up, allocating 0xC4000000 makes it and 0xC0000000 translate to the same new frame |
| VmRuns.AllocMapsEverywhere | kernel/modules/vmm/vmm.c:142-178 | an allocated kernel page is taken and translates to its frame in every address space; every kernel page with an entry of its own translates as before |
| VmRuns.ReleaseUnmapsEverywhere | kernel/modules/vmm/vmm.c:183-206 | a released kernel page is free and faults in every address space, and exactly the kernel pages that share its entry do so too; all others translate as before |
| VmRuns.UserAllocMapsIff | kernel/modules/vmm/vmm.c:310-366 | a user page allocation maps the page, and returns an address, iff the bitmap grants it, a frame is left, and the page can be entered: without a table for it yet, `pdt_vaddr` must show the active directory and the new table get a kernel page with another entry; with one, the check must not fault, and find the entry or be able to make another table |
| VmRuns.ReleasedPageStillAnswers | kernel/modules/vmm/vmm.c:183-241 | a released page faults, but `vmm_v2p` still answers the frame it had |
| VmRuns.ReleaseReservedUnshares | kernel/modules/vmm/vmm.c:183-206 | releasing 0xFFF00000 unmaps the first kernel addresses in the active directory alone |
| VmRuns.FailedUserAllocFreesKernelPage | kernel/modules/vmm/vmm.c:310-366 | a failed user allocation at a busy kernel page frees that page while it stays mapped |
| UserSpace.ProcessIsolation | kernel/modules/vmm/vmm.c:282-366 | with a table of its own for every kernel slot, at every point of every run a mapped user page is a frame of its own: no other user page of any process, no busy kernel page, no directory and no page table is on it; and user mode may read and write it |
| UserSpace.StepKeepsUserSpace | kernel/modules/vmm/vmm.c:104-366 | no step changes the translation of a user address, but for the page that a user page allocation enters in the running process; a new page table maps nothing else |
| UserSpace.NewProcessIsEmpty | kernel/modules/user_task/user_task.c:88-102 | in a new directory every user address faults |
| UserSpace.KernelHalfFrozen | kernel/modules/user_task/user_task.c:68-102 | no step changes an entry of the kernel half of a directory |
| UserSpace.KernelIsClosed | kernel/modules/user_task/user_task.c:68-102 | when boot leaves supervisor entries, user mode reaches no kernel address in any address space, at every point of every run |
| UserSpace.BootClosesKernel | boot/boot.s:53-66 | the entries the real boot leaves are supervisor entries |
| UserSpace.KernelThreadSpace | kernel/modules/user_task/user_task.c:113-134 | from a switch to a kernel thread to the next switch every address, user addresses included, translates as under the kernel directory |
| UserSpace.ProcessSpace | kernel/modules/user_task/user_task.c:122-146 | from a switch to a process to the next switch its own directory is the active one |
| MemoryRuns.AnswersStayFresh | kernel/modules/pmm/pmm.c:446-475 | in every joint run of both memory managers in which nothing is given back, every frame that `pmm_alloc_one_page` answers to the virtual side is one not in use |
| MemoryRuns.JointSafety | kernel/modules/vmm/vmm.c:26-206 | with a table of its own for every slot, kernel pages stay mapped and apart, and directories shown, at every point of every joint run |
| Vmm.Vmm.constructor | kernel/modules/vmm/vmm.c:26-47 | over the bitmap's bytes: the kernel's first pages and the last 1024 busy, all others free |
| Vmm.Vmm.KernAlloc | kernel/modules/vmm/vmm.c:142-178 | the lowest free page, mapped to the answered frame; on failure the bitmap is byte for byte as before |
| Vmm.Vmm.KernAllocOnePage | kernel/modules/vmm/vmm.c:104-140 | equals the value-level allocation; on failure the bitmap is byte for byte as before |
| Vmm.Vmm.KernReleasePage | kernel/modules/vmm/vmm.c:183-206 | equals the value-level release, and keeps the state valid iff the page is not reserved |
| Vmm.Vmm.ZeroPage | kernel/modules/user_task/user_task.c:95 | clearing a page word by word clears its frame and nothing else |
| Vmm.Vmm.CopyKernelHalf | kernel/modules/user_task/user_task.c:68-74 | copying through `get_pde` copies the kernel half of the active directory |
| Vmm.Vmm.MapLastPde | kernel/modules/user_task/user_task.c:76-79 | the last entry maps the new directory to itself |
| Vmm.Vmm.CreateUserPdt | kernel/modules/user_task/user_task.c:88-102 | a new directory, or the error value with nothing changed |
| Vmm.Vmm.ActiveTask | kernel/modules/user_task/user_task.c:113-146 | CR3 becomes the kernel directory for a kernel thread, the frame in the entry of `pdt_vaddr` for a process, and nothing else changes; the state stays valid iff that is a directory |
| Vmm.Vmm.CreateUserPageTable | kernel/modules/vmm/vmm.c:282-305 | a cleared table entered at the given address, in whatever the page there shows, or False with nothing changed |
| Vmm.Vmm.UserAllocOnePage | kernel/modules/vmm/vmm.c:310-366 | equals the value-level user allocation through `pdt_vaddr`, page faults included; the process's own bit stays taken even on failure |
| Vmm.Vmm.CleanUp | kernel/modules/vmm/vmm.c:361-365 | the release of a failed user allocation goes to the kernel's pool |
| UserTask.BitmapFillsPages | kernel/modules/user_task/user_task.c:24-55 | 0x18000 bytes are exactly 24 pages and one bit for every page below 3 GB |
| UserTask.CreateUserTaskBitmap | kernel/modules/user_task/user_task.c:23-55 | returns iff the 24 pages from the lowest free one are free and get frames; takes exactly those, and the bitmap is all free |
| UserTask.ReleaseUserTaskBitmap | kernel/modules/user_task/user_task.c:59-66 | the 24 pages are free again |
| UserTask.UserTaskTest | kernel/modules/user_task/user_task.c:239-246 | creating and releasing restores the kernel's bitmap byte for byte |
| CString.OneText | libs/string/string.c:95-101 | a buffer position holds at most one string |
| CString.StrLen | libs/string/string.c:95-101 | the length of the string held |
| CString.MemCpy | libs/string/string.c:53-61 | exactly the given stretch is overwritten |
| CString.StrCpy | libs/string/string.c:103-115 | the text and its terminator are copied, nothing else changes |
| CString.StrCat | libs/string/string.c:117-123 | the buffer holds the concatenation |
| CString.StrRevers | libs/string/string.c:145-160 | the string is reversed in place |
| CString.Func | libs/string/string.c:4-18 | the recursion leaves the digits of the number, most significant first |
| CString.NumeralReadsBack | libs/string/string.c:4-18 | the digits stand for the number, in every base up to 16, without a leading zero |
| CString.SameNumeral | libs/string/string.c:4-18 | numerals without a leading zero that stand for one number are the same text |
| CString.UintToString | libs/string/string.c:125-143 | the buffer holds the decimal text |
| CString.DecimalReadsBack | libs/string/string.c:125-143 | every 32-bit number gives 1 to 10 decimal digits, no leading zero, and reads back |
| CString.Num2HexStr | libs/string/string.c:21-50 | the buffer holds the hexadecimal text, also for 0 and negative numbers |
| CString.HexReadsBack | libs/string/string.c:21-50 | exactly 8 hexadecimal digits after the optional 0x, reading back as the number modulo 2^32 |
| Printk.InsertStr | libs/printk/printk.c:9-19 | the two characters at the offset give way to the inserted text |
| Printk.FormatText | libs/printk/printk.c:21-82 | the in-place loop ends with the text of one pass over the format string |
| Printk.ConversionPrints | libs/printk/printk.c:35-80 | behind plain text, `%s` prints the text, `%d` the decimal numeral without leading zero, `%h` exactly 8 hexadecimal digits and `%H` the same behind 0x, of the argument modulo 2^32; formatting goes on behind the conversion, so printed text is never read as format |
| Printk.SpellsOnce | libs/printk/printk.c:35-80 | conversion and argument determine the printed text |
| Printk.PercentIsKept | libs/printk/printk.c:35-81 | a percent sign in front of anything else is printed as it is |
| Printk.FormatFits | libs/printk/printk.c:21-82 | the result fits the buffer when the texts on the way do |
| Printk.PlainTextIsKept | libs/printk/printk.c:31-81 | a text without percent signs is written as it is |
| Printk.Printk | libs/printk/printk.c:21-87 | the formatted text goes to the screen, white on black |
| Vga.WindowIsDetermined | kernel/drivers/vga/vga_basic.c:33-81 | the stream determines all 2000 cells and the cursor |
| Vga.NextBase | kernel/drivers/vga/vga_basic.c:62-81 | the cursor column is the stream length modulo 80, and a cell scrolls exactly when it fills the last row |
| Vga.PutExtends | kernel/drivers/vga/vga_basic.c:45-81 | writing a cell extends the stream under the window |
| Vga.NewlineFillsRow | kernel/drivers/vga/vga_basic.c:91-98 | a newline pads the stream with blanks to the next multiple of 80 |
| Vga.TabIsFourBlanks | kernel/drivers/vga/vga_basic.c:87-91 | a tab is four blanks in the colours given, wherever the cursor stands |
| Vga.AttrFields | kernel/drivers/vga/vga_basic.c:65 | the attribute byte holds the background in its high half and the foreground in its low half |
| Vga.PlainTextIsShown | kernel/drivers/vga/vga_basic.c:109-113 | text without tabs and newlines goes to the stream character by character |
| Vga.WrittenAppend | kernel/drivers/vga/vga_basic.c:109-113 | writing two texts is writing their concatenation |
| Vga.Screen.constructor | kernel/drivers/vga/vga_basic.c:119-121 | on any initial memory the screen becomes the window on the empty stream |
| Vga.Screen.ClearScreen | kernel/drivers/vga/vga_basic.c:33-43 | all 2000 cells are blank, white on black, and the cursor is in the corner: the window on the empty stream |
| Vga.Screen.UprollOnce | kernel/drivers/vga/vga_basic.c:45-61 | every row moves up, the last one blank, the cursor one row up |
| Vga.Screen.PutCell | kernel/drivers/vga/vga_basic.c:62-81 | one cell at the cursor, scrolling at the end of the last row |
| Vga.Screen.KPutCColor | kernel/drivers/vga/vga_basic.c:84-103 | the screen stays the window on the stream extended by the character's cells |
| Vga.Screen.KPutsColor | kernel/drivers/vga/vga_basic.c:109-113 | the same for a whole string |
| Vga.Screen.KPuts | kernel/drivers/vga/vga_basic.c:115-117 | the same in white on black |

## Left out

- Pointers into `page_array` are page indices with a null value, and the eleven list-head fields are an array indexed by class; the switch statements over the class become that index.
- Pmm.Pmm.FreePage: a free is proved for blocks in the form they were handed out, because the allocator itself checks no more than the address range.
- Pmm.Pmm.AppendErro: covers the reading in which the list head that `append_block` never sets is NULL; with any other value the source writes through a wild pointer.
- The page `state` field, which is never read.
- Page counts below 2048: start-up would append blocks that do not exist.
- `get_max_pm_addr`, the memory map it reads, and the block counters for the console.
- `exit` and `remove_thread`: the dispatch in `exit` neither looks at nor sets the status of the next thread.
- `sem_P` and `sem_V` called directly on the semaphore inside a lock, which no code does.
- Kernel stack checks, logging inside `schedule`, and the stopping paths that follow a fatal error.
- Context switch: register save and restore is taken as given; a thread's saved flag and its place inside `sem_P` stand for its context. A new thread starts with interrupts on.
- Timer, interrupt controller, keyboard and VGA cursor registers, TSS and GDT: hardware effects only.
- TLB flushes: the walk reads the current tables.
- The page-fault handler, which reports the fault and returns to the faulting access: a user allocation that faults ends in the state at the fault, and a faulting store elsewhere does not take place.
- Frames come from the physical memory manager as answers not in use; `MemoryRuns` proves that for runs in which nothing is given back to it. Frames of released kernel pages are never given back, as in the source.
- Boot itself: the kernel directory it leaves is an assumption on the first state (`Booted`, and `BootTables` for the entries it really writes).
- The bytes of a user process's bitmap are an object of their own, not words of the modelled memory at its 24 pages.
- `start_user_task`, the interrupt stack of a new process, and system calls.
- `vmm_user_alloc_one_page` for a kernel thread, which it refuses at once; a process's `pdt_vaddr` is a kernel page below the reserved ones, as `create_user_task_pdt` returns it.
- Paging.GetPte: the address is composed by addition; that the masks and shifts give the same fields is `GetPteBits`, on 32-bit vectors.
- Printk.FormatText: the arguments are a sequence with string arguments given as text, and the static result buffers of the number functions are allocated per call, so a string argument that points into such a buffer is not covered; the texts on the way must fit the buffer of 100 characters, as the source assumes.
- Printk.Printk: the lock around printing is modelled in the scheduler part and not taken here.
- Vga.Screen.UprollOnce: scrolling by itself, outside `vga_putc`, moves the window without a new cell; only its effect on cells and cursor is stated.
- `move_cursor_by_XY`, `printk_color`, `printbasic`, `strcmp` and libs/utils/list.c.
