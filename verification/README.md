# Verified model of the kernel's core

This project models the hard core of a small C kernel for 32-bit x86 and proves what the code does on every input and
over every run. It covers seven parts.

- **64-bit division in software.** `__qdivrem` is Algorithm D of Knuth, The Art of Computer Programming, volume 2,
  section 4.3.1, in base 2^16 on digit arrays. It is proved to compute quotient and remainder, step by step: the trial
  digit, the wrap-around borrows, the add-back and the two shifts. `__udivmoddi4` is proved to compute the same
  (`Digits.dfy`, `Division.dfy`).
- **Two allocators.** The kernel heap `kheap.c` is modelled twice: as a value with its chunks and bins
  (`HeapModel.dfy`, `HeapCalls.dfy`), and as the code that rewrites headers, circular lists and bin heads in place
  (`KernelHeap.dfy`).
  The free-area list of `memalloc.c` is modelled as a list of cells with the addresses of their nodes (`FreeAreas.dfy`,
  `FreeAreaMerge.dfy`, `FreeAreaFit.dfy`, `FreeAreaRuns.dfy`) and as linked nodes in memory (`MemAlloc.dfy`).
- **The kernel queue.** All nodes and queues in one memory, each queue a chain of doubly linked nodes (`KernelQueue.dfy`).
- **Blocking primitives.** Semaphores, mutexes and the bounded message queue, each as an object and as a step machine
  over any number of threads (`Semaphore.dfy`, `Mutex.dfy`, `MessageQueue.dfy`). The wait queues of the objects are
  linked kernel queues (`WaitQueue.dfy`).
- **The scheduler.** Every call and every scheduling pass as a step on the thread tables (`Scheduling.dfy`), what each of
  them does to every thread and table (`SchedulingCalls.dfy`), election and sleeping over whole runs
  (`SchedulingRuns.dfy`), runs that end where a property fails (`SchedulingCases.dfy`), and
  the object whose methods carry out those steps on linked kernel queues (`ThreadTables.dfy`, `Scheduler.dfy`).
- **All of them together.** Scheduler, semaphores and mutexes in one step machine (`Blocking.dfy`), mutual exclusion over
  its runs (`Exclusion.dfy`), and whole pends and posts on linked tables and linked wait queues in one memory
  (`Kernel.dfy`).
- **Search and printing.** `memmem` against naive search, and `uitoa` and `itoa` with their inverse (`MemMem.dfy`,
  `Printing.dfy`).

`Basics.dfy` holds what they share: word sizes, powers of two and optional values.

## How it is modelled

- Machine integers are unbounded integers with every wrap-around of the source written out (`% W32`, `% W64`).
  Shifts, masks and combinations of half words are written as multiplication, division, remainder and addition.
- Code that updates state in place is a class or a method on arrays. Its `ensures` ties the new state to a function of
  the old one, and the theorems are about that function and its runs.
- Linked structures are maps from addresses to records, so that a link may lead anywhere: to a freed node, to a node that
  has been allocated again, or around in a circle. NULL is 0. The sequence that the next links run through is a ghost
  field or a ghost argument, tied to the records by the invariant; the views of the semaphore, mutex and scheduler
  objects are computed from it.
- The scheduler object shares its memory with any number of wait queues. Its invariant says of each scheduling node that
  it is in one table, in one wait queue, or in none, and that a thread in a wait queue is blocked.
- Each critical section is one atomic step. A blocking call is the test that puts the caller in a queue, the pop by
  another thread, and the next test. In the scheduler a blocking call changes the state of its caller, and a later
  pass of that CPU switches the caller out; other CPUs may act in between.
- Outcomes of `kmalloc` inside other components (NULL, or any address not in use), the uptime, the CPU number and the
  addresses of new threads are parameters.

## Where the code does less than it means to

Each of these keeps the behaviour of the code and comes with the exact condition under which the intended property
holds.

- `kernel_queue_remove` does not decrement the size: `KernelQueue.QueueMemory.SizeIsLength`. Both pushes take a node that
  is queued already; the links are queues afterwards exactly when it was in none: `KernelQueue.LinkingKeepsQueuesIff`.
- A two-sided merge in `add_free` leaves a prev link that points to a freed node. An exact fit on a node whose prev link is
  not the node in front of it does not unlink it, loses the areas between, or leaves a circle, depending on what that
  address is by then: `FreeAreaFit.GetBlockExact`, `FreeAreaFit.CorruptOutcomes`, `FreeAreaRuns.StaleLinkCorrupts`,
  `FreeAreaRuns.ReuseLosesArea`. When `kmalloc` delivers the freed address again the link may become right again:
  `FreeAreaRuns.ReuseRepairs`.
- `add_free` checks for overlap only behind the first area, and its 32-bit sums are zero at the top of memory:
  `FreeAreaMerge.OverlapRefusedIff`, `FreeAreaMerge.OverlapAccepted`.
- The 32-bit size of an area that covers every address is zero: `FreeAreaMerge.AddFreeCanonicalIff`. A request for 2^20
  blocks or more gets the remainder modulo 2^20: `FreeAreaFit.NeedWraps`, `FreeAreaFit.WrappedRequest`.
- A recursive mutex keeps no nesting count, and a try-pend records no owner, so one further pend can let a second
  thread in: `Mutex.StepExact`, `Mutex.NestedPostAdmitsAnother`, `Mutex.TryAdmitsOwner`. A post of a mutex below a
  newer elevating one gives back the wrong priority: `Mutex.PostRightIff`, `Mutex.OutOfOrderStaysElevated`. Every
  elevation goes to priority zero, because the stored priority is shifted right twice, unless flag bits from 16 up
  reach that field: `Mutex.StoredFlags`.
- The buffer of a message queue with 2^30 slots or more wraps, and one with 2^31 or more never lets a producer in:
  `MessageQueue.InsideIff`, `MessageQueue.HugeQueueIsShut`.
- The sleep table is sorted by the low 32 bits of the wake-up time: `SchedulingRuns.AllDueWakeIff`,
  `SchedulingRuns.AllDueWakeByTimes`, with a run in `SchedulingCases.LateSleeperHidesDue`. A sleep shorter than a tick
  at uptime zero underflows: `SchedulingRuns.DeadlineIff`.
- A second joiner takes the place of the first, who is then never readied: `Scheduling.SecondJoinerStrands`,
  `SchedulingRuns.StrandedForever`, with a run in `SchedulingCases.InitStranded`.
- A join of a thread that has ended frees it at once, even if its CPU still runs it or an earlier joiner will free it once
  more: `Scheduling.RemoveExact`, `Scheduling.RemovedTwice`, with a run in `SchedulingCases.RemovedTwiceReached`. A joiner on
  another CPU may free a thread that its own CPU has not left yet: `Scheduling.CleanExact`, with a run in
  `SchedulingCases.FreedWhileCurrent`. A join by an idle thread may leave its CPU with nothing to elect:
  `SchedulingRuns.IdleJoinPanicsIff`.
- `kheap_init` does not check that there is room for its chunks: `HeapModel.RoomExact`.
- A heap request within three bytes of 2^32 wraps in the rounding and gets the smallest block: `HeapCalls.RoundedIsLeast`.
- The comments of `kheap.c` say that `kfree` ignores pointers it does not know; the code ignores only NULL.
- The comment on `thread_count` says that dead threads are not counted; a thread that has ended is counted until it is
  joined.
- An empty needle gives NULL, unlike `strstr` in section 7.24.5.7 of ISO/IEC 9899:2011.

## Model

| member | source | states |
|---|---|---|
| Division.TrialDigitBound | Kernel/Sources/lib/div64.c:222-250 | a trial digit that fits the three leading digits of a normalised divisor and dividend is the true quotient digit or one more |
| Division.TrialNotBelow | Kernel/Sources/lib/div64.c:222-250 | a trial digit that is maximal for the leading parts is not below the true digit |
| Division.TrialNotFarAbove | Kernel/Sources/lib/div64.c:222-250 | a trial digit that fits the leading parts exceeds the true digit by at most one |
| Division.FirstEstimate | Kernel/Sources/lib/div64.c:236-244 | below the leading divisor digit, the first estimate is a digit and, with its remainder, gives the two leading digits |
| Division.CorrectedDigit | Kernel/Sources/lib/div64.c:245-250 | from either start, also with equal leading digits, the loop ends with a digit whose product with the second divisor digit fits the rest, and one correction less would not fit |
| Division.TrialDigit | Kernel/Sources/lib/div64.c:225-250 | D3 yields the largest digit that fits the three leading digits |
| Division.BorrowColumn | Kernel/Sources/lib/div64.c:257-261 | one column of D4: the 32-bit wrap-around and the masked half word represent the exact difference and its borrow |
| Division.MulSub | Kernel/Sources/lib/div64.c:251-263 | D4 subtracts the digit times the divisor, modulo the window when it borrows, and touches only the window |
| Division.AddBack | Kernel/Sources/lib/div64.c:270-278 | D6 adds the divisor to the window and loses at most the final carry |
| Division.DigitStep | Kernel/Sources/lib/div64.c:222-280 | one pass of the loop: the old window is digit times divisor plus the new window, which is below the divisor; nothing else changes |
| Division.DivideDigits | Kernel/Sources/lib/div64.c:216-280 | all passes: dividend = quotient digits times divisor + remainder, the remainder below the divisor, the leading digits zero |
| Division.ChooseShift | Kernel/Sources/lib/div64.c:209-211 | D1 finds the shift that brings the leading divisor digit to B/2 or more without losing bits |
| Division.Normalise | Kernel/Sources/lib/div64.c:209-215 | both operands are multiplied by 2^d and the divisor is normalised |
| Division.Shl | Kernel/Sources/lib/div64.c:309-318 | the in-place left shift multiplies the number by 2^sh, less exactly the bits that fall out |
| Division.Shr | Kernel/Sources/lib/div64.c:287-293 | the in-place right shift divides the remainder by 2^d and clears the leading digit |
| Division.OneDigitDivide | Kernel/Sources/lib/div64.c:164-188 | the unrolled division by one digit: dividend = q * t + r with r < t |
| Division.EnoughDigits | Kernel/Sources/lib/div64.c:197-201 | a dividend not below the divisor has at least as many digits, so skipping its zeros stays in bounds |
| Division.SkipZeros | Kernel/Sources/lib/div64.c:197-198 | the skipped digits are zero and the rest has the value of the dividend |
| Division.CancelShift | Kernel/Sources/lib/div64.c:282-301 | dividing the shifted operands gives the same quotient and the shifted remainder |
| Division.LongDivide | Kernel/Sources/lib/div64.c:192-301 | divisors of two to four digits: the quotient and, when wanted, the remainder |
| Division.QDivRem | Kernel/Sources/lib/div64.c:107-302 | for all 64-bit operands: quotient and remainder, and 0 and the dividend for a zero divisor |
| Division.UModDi3 | Kernel/Sources/lib/div64.c:320-327 | the remainder, and the dividend itself for a zero divisor |
| Division.UDivDi3 | Kernel/Sources/lib/div64.c:329-334 | the quotient, and 0 for a zero divisor |
| Division.UDivModDi4 | Kernel/Sources/lib/udivmoddi4.c:17-50 | the shift-subtract loops terminate with the quotient and remainder that QDivRem gives; a zero divisor faults |
| HeapModel.SlotIsLog | Kernel/Sources/memory/kheap.c:250-259 | the bin of a size is the floor of its base-2 logarithm |
| KernelHeap.ChunkSlot | Kernel/Sources/memory/kheap.c:250-259 | the shift loop computes the bin of a size |
| HeapModel.FirstBinIsCeiling | Kernel/Sources/memory/kheap.c:365-380 | the first bin searched is the ceiling of the base-2 logarithm of the rounded size |
| HeapModel.Rounded | Kernel/Sources/memory/kheap.c:355-372 | the rounded request holds the request and exceeds it by at most three bytes unless it is the smallest size, which it is when the rounding wraps |
| HeapCalls.RoundedIsLeast | Kernel/Sources/memory/kheap.c:365-372 | the rounded size is the least multiple of 4 that holds the request and the smallest size; a request within three bytes of 2^32 counts as zero |
| HeapModel.MallocKeepsInv | Kernel/Sources/memory/kheap.c:345-442 | kmalloc keeps the tiling between the sentinels, no two free neighbours, bins that match the free chunks, and the metadata count |
| HeapModel.FreeKeepsInv | Kernel/Sources/memory/kheap.c:444-504 | kfree of a live block keeps the same invariant, whichever of its neighbours are free |
| HeapModel.MallocSucceedsIff | Kernel/Sources/memory/kheap.c:365-401 | kmalloc succeeds exactly when some free chunk has at least 2^ceil(log2(rounded size)) bytes |
| HeapModel.MallocBlock | Kernel/Sources/memory/kheap.c:402-441 | the block starts a header behind a chunk that was free, holds the rounded size, exceeds it by less than a chunk, and moves no other live block |
| HeapCalls.MallocServes | Kernel/Sources/memory/kheap.c:365-401 | kmalloc succeeds exactly when some free chunk holds a power of two that is at least the request and the smallest size |
| HeapCalls.MallocSize | Kernel/Sources/memory/kheap.c:365-426 | the block is the front of the chunk, cut off at the next multiple of 4 behind the request, or the whole chunk when less than 20 bytes would be left |
| HeapCalls.MallocPlace | Kernel/Sources/memory/kheap.c:374-421 | the chunk is the head of its bin and no free chunk that serves has a smaller slot; what is cut off becomes the head of the bin of its size; every other bin stays |
| HeapModel.NewBlockIsDisjoint | Kernel/Sources/memory/kheap.c:402-441 | a new block has the bytes asked for, all between the sentinels; none of them belongs to a block that was live or to a header |
| HeapModel.FreeBlock | Kernel/Sources/memory/kheap.c:444-504 | kfree ends the life of its block and of no other, and moves none |
| HeapCalls.FreePlace | Kernel/Sources/memory/kheap.c:444-504 | the chunk joined with its free neighbours becomes the head of the bin of its new size, the neighbours leave their bins, and every bin keeps its order |
| HeapModel.FreeUndoesMalloc | Kernel/Sources/memory/kheap.c:345-504 | kfree right after kmalloc restores the same chunks and the same bins in the same order |
| HeapModel.NoLiveMeansInitial | Kernel/Sources/memory/kheap.c:293-343 | a heap that keeps the invariant and has no live block is the initial heap |
| HeapModel.AllFreedIsInitial | Kernel/Sources/memory/kheap.c:293-504 | after any run in which every live block has been freed, in any order, the heap is the initial one |
| HeapModel.Exec | Kernel/Sources/memory/kheap.c:293-504 | every run of kmalloc and kfree on live blocks keeps the invariant |
| HeapModel.Conservation | Kernel/Sources/memory/kheap.c:226-239 | the metadata count plus all payload sizes between the sentinels is the length of the heap |
| KernelHeap.FreeLinks.InsertBefore | Kernel/Sources/memory/kheap.c:153-162 | the ring gains the new node in front of the current one |
| KernelHeap.FreeLinks.RemoveNode | Kernel/Sources/memory/kheap.c:175-181 | the ring loses the node, which is linked to itself afterwards |
| KernelHeap.KHeap.ListPush | Kernel/Sources/memory/kheap.c:183-192 | the chunk becomes the head of its bin and all bins stay circular lists |
| KernelHeap.KHeap.ListPop | Kernel/Sources/memory/kheap.c:194-212 | the head of the bin is taken out and linked to itself |
| KernelHeap.KHeap.ListRemove | Kernel/Sources/memory/kheap.c:214-224 | the chunk is taken out of its bin wherever it is |
| KernelHeap.KHeap.constructor | Kernel/Sources/memory/kheap.c:293-343 | the bounds are aligned and the initial heap is set up, with every bin but one empty |
| HeapModel.RoomExact | Kernel/Sources/memory/kheap.c:293-343 | the three headers that kheap_init writes tile the heap exactly when there is room for the sentinels and a chunk |
| KernelHeap.KHeap.Kmalloc | Kernel/Sources/memory/kheap.c:345-442 | the linked structure goes to the state of the specification, and the returned data field is the address a header behind the chunk |
| KernelHeap.KHeap.Kfree | Kernel/Sources/memory/kheap.c:444-504 | the linked structure goes to the state of the specification; NULL and an uninitialised heap change nothing |
| FreeAreaMerge.AddFreeCanonical | Kernel/Sources/memory/memalloc.c:70-210 | freeing a region outside the free memory keeps the list sorted and maximally merged and adds exactly the region |
| FreeAreaMerge.AddFreeCanonicalIff | Kernel/Sources/memory/memalloc.c:126-210 | that holds exactly when some address stays in use |
| FreeAreaMerge.AddFreeLinks | Kernel/Sources/memory/memalloc.c:81-208 | which node and which prev links change: none when the region touches one area, the new node and the link behind it when it touches none, the node of the upper area and no link when it touches two |
| FreeAreaMerge.AddFreeWithoutMemory | Kernel/Sources/memory/memalloc.c:81-208 | without memory for a node the call works exactly when the region touches an area, and otherwise changes nothing |
| FreeAreaMerge.OverlapRefusedIff | Kernel/Sources/memory/memalloc.c:114-125 | an overlapping region is refused, and the list stays canonical, exactly when it does not start in front of the first area and the 32-bit sum that should reveal the overlap is not zero |
| FreeAreaMerge.OverlapAccepted | Kernel/Sources/memory/memalloc.c:114-125 | two overlapping regions that are accepted: one in front of the first area, one at the top of memory |
| FreeAreaFit.GetBlockExact | Kernel/Sources/memory/memalloc.c:241-286 | the block was free; the list stays canonical and loses exactly the block if and only if the block is not an exact fit on a node whose prev link is not the node in front of it, whatever addresses kmalloc has delivered before |
| FreeAreaFit.GetBlockLowest | Kernel/Sources/memory/memalloc.c:248-272 | the block starts at the lowest address at which a free run of its length begins |
| FreeAreaFit.GetBlockLinks | Kernel/Sources/memory/memalloc.c:212-286 | nodes and prev links stay when an area is left; after an exact fit on a node with a right link its node is gone and the node behind takes over its link |
| FreeAreaFit.CorruptOutcomes | Kernel/Sources/memory/memalloc.c:212-239 | what that case does: the node stays linked, or every area between the node named by the link and the block is lost, or the links run in a circle |
| FreeAreaFit.GetBlockFailsIff | Kernel/Sources/memory/memalloc.c:248-266 | allocation fails exactly when no contiguous run of free addresses is long enough |
| FreeAreaFit.NeedWraps | Kernel/Sources/memory/memalloc.c:253-273 | the size of a request is exact below 2^20 blocks; any request is served as its remainder modulo 2^20, and takes nothing when that is zero |
| FreeAreaFit.WrappedRequest | Kernel/Sources/memory/memalloc.c:253-281 | a wrapped request takes only the pages of its remainder from the free memory |
| FreeAreaFit.CanonicalUnique | Kernel/Sources/memory/memalloc.c:70-286 | two canonical lists with the same free addresses hold the same areas |
| FreeAreaFit.GetThenFree | Kernel/Sources/memory/memalloc.c:70-286 | giving a block back right after taking it restores the areas |
| FreeAreaRuns.EveryRun | Kernel/Sources/memory/memalloc.c:70-286 | after every proper run, failed node allocations and reused node addresses included, the list is the sorted, maximally merged decomposition of the addresses freed and not handed out since |
| FreeAreaRuns.RunsAgree | Kernel/Sources/memory/memalloc.c:70-286 | two proper runs that leave the same addresses free leave the same areas |
| FreeAreaRuns.StaleLinkCorrupts | Kernel/Sources/memory/memalloc.c:175-182 | disjoint page-sized regions lead to a list from which an exact fit is not unlinked |
| FreeAreaRuns.ReuseLosesArea | Kernel/Sources/memory/memalloc.c:175-239 | with the freed node allocated again in front, the same request loses the area between |
| FreeAreaRuns.ReuseRepairs | Kernel/Sources/memory/memalloc.c:175-239 | with the hole in front filled as well the link is right again and the request is proper |
| MemAlloc.AreaList.AddFree | Kernel/Sources/memory/memalloc.c:70-210 | the next links run through the cells of the specification, with their nodes and prev links; a failed node allocation included |
| MemAlloc.AreaList.RemoveFree | Kernel/Sources/memory/memalloc.c:212-239 | whatever the prev link names, the next links afterwards run through the list of the specification, or through no list at all when they form a circle |
| MemAlloc.AreaList.GetBlock | Kernel/Sources/memory/memalloc.c:241-286 | the block and the list are those of the specification, for every prev link |
| KernelQueue.QueueMemory.Push | Kernel/Sources/core/kernel_queue.c:138-209 | a node that is not queued becomes the head, every queue in memory stays linked both ways, and the neighbour panic is unreachable; a queued one leaves links that are no queues, with a panic when it is the head |
| KernelQueue.LinkingKeepsQueuesIff | Kernel/Sources/core/kernel_queue.c:160-196 | linking a node into a queue, at any place, leaves queues exactly when the node is in no queue of the memory |
| KernelQueue.PushKeepsQueuesIff | Kernel/Sources/core/kernel_queue.c:238-277 | the same for a push with a new priority, wherever it puts the node |
| KernelQueue.QueueMemory.PushPrio | Kernel/Sources/core/kernel_queue.c:212-311 | a node that is not queued goes in front of the first one whose priority does not exceed its own, and the neighbour panic is unreachable; a queued one leaves links that are no queues |
| KernelQueue.QueueMemory.Pop | Kernel/Sources/core/kernel_queue.c:313-399 | the tail is taken out and unlinked, NULL for an empty queue |
| KernelQueue.QueueMemory.Find | Kernel/Sources/core/kernel_queue.c:401-458 | the first node from the head with the data, an error exactly when there is none |
| KernelQueue.QueueMemory.Remove | Kernel/Sources/core/kernel_queue.c:460-533 | the node is taken out wherever it is, an error exactly when it is not queued; the size stays |
| KernelQueue.QueueMemory.SizeIsLength | Kernel/Sources/core/kernel_queue.c:500-525 | the size is the number of nodes exactly when no node was ever removed (modulo 2^32) |
| KernelQueue.OneQueueChanges | Kernel/Sources/core/kernel_queue.c:138-533 | a change of one queue leaves every other queue in memory linked |
| KernelQueue.InsertItemAt | Kernel/Sources/core/kernel_queue.c:237-277 | where a priority push puts its entry |
| KernelQueue.PriorityRun | Kernel/Sources/core/kernel_queue.c:212-399 | in every run of priority pushes and pops, entries leave in ascending key order with ties first in, first out |
| KernelQueue.FifoRun | Kernel/Sources/core/kernel_queue.c:138-399 | in every run of pushes and pops, the values popped and those still queued are the values pushed, in order |
| WaitQueue.Enqueue | Kernel/Sources/core/kernel_queue.c:138-209 | a node pushed at the head waits behind all others in the order of popping |
| WaitQueue.Dequeue | Kernel/Sources/core/kernel_queue.c:313-399 | popping the tail takes the thread that has waited longest |
| Semaphore.SemaphoreObject.TestLevel | Kernel/Sources/sync/semaphore.c:195-257 | one pass of the pend loop on the linked wait queue does to the waiters, in the order of popping, what the specification says: error, last place, or one level taken; other queues stay |
| Semaphore.SemaphoreObject.PostOne | Kernel/Sources/sync/semaphore.c:274-392 | on the linked wait queue: the level rises by one and the node popped is that of the longest waiter, unlinked, exactly when the level is positive and somebody waits |
| Semaphore.PostUndoesPend | Kernel/Sources/sync/semaphore.c:195-364 | a post after a pend restores the level, and the whole semaphore when nobody waits |
| Semaphore.TryPendIsPend | Kernel/Sources/sync/semaphore.c:394-468 | a try-pend succeeds exactly when a pend would not block, with the same effect, and otherwise changes nothing |
| Semaphore.SemaphoreObject.DestroyAll | Kernel/Sources/sync/semaphore.c:79-163 | every waiter is popped, in order, and the semaphore is dead |
| Semaphore.NextKeepsInv | Kernel/Sources/sync/semaphore.c:165-468 | every step keeps the level equation, the waiter bound and the first-in first-out history |
| Semaphore.EveryRun | Kernel/Sources/sync/semaphore.c:195-364 | level = initial + posts - successful pends, never below min(0, initial); threads popped and not re-tested number at least the level while threads wait |
| Semaphore.NoLostWakeup | Kernel/Sources/sync/semaphore.c:195-364 | a positive level with waiters always has a woken thread on its way |
| Semaphore.BoundedWait | Kernel/Sources/sync/semaphore.c:274-392 | the waiter at position k has been popped after k + 1 further posts, plus as many as the level is below zero, in any run |
| Semaphore.WakesBounded | Kernel/Sources/sync/semaphore.c:274-392 | over every run a semaphore in use has woken no more threads than it was posted beyond a negative initial level |
| Semaphore.DestroyedForever | Kernel/Sources/sync/semaphore.c:79-468 | a destroyed semaphore refuses every call in every run after, and its level stays |
| MessageQueue.StoreAppends | Kernel/Sources/comm/queue.c:309-326 | storing appends and overwrites nothing when the ring is not full |
| MessageQueue.TakeRemoves | Kernel/Sources/comm/queue.c:224-240 | taking removes the oldest element of a ring that is not empty |
| MessageQueue.QueueObject.Store | Kernel/Sources/comm/queue.c:309-326 | the buffer in place goes to the ring of the specification |
| MessageQueue.QueueObject.Take | Kernel/Sources/comm/queue.c:224-240 | the buffer in place goes to the ring of the specification and yields the oldest element |
| MessageQueue.NextKeepsInv | Kernel/Sources/comm/queue.c:155-340 | every step of any producer or consumer keeps both level equations and the order of elements |
| MessageQueue.SectionsInBounds | Kernel/Sources/comm/queue.c:205-326 | a producer past its pend finds a free slot and a consumer an element, inside the buffer |
| MessageQueue.EveryRun | Kernel/Sources/comm/queue.c:47-340 | for every capacity up to 2^31 - 1: write level + writers in flight + size = capacity, read level + readers in flight = size, and the values received are a prefix of the values stored |
| MessageQueue.PostedIsStored | Kernel/Sources/comm/queue.c:273-340 | over every run the elements that a thread has posted are those that its steps have stored, in the order of its calls, followed by that of the call it is still in; and nothing else is stored |
| MessageQueue.InsideIff | Kernel/Sources/comm/queue.c:80-96 | whatever kmalloc delivers for the wrapped size, every store of every run lies inside the buffer exactly when the queue has fewer than 2^30 slots; a run of posts alone leaves it otherwise |
| MessageQueue.HugeQueueIsShut | Kernel/Sources/comm/queue.c:67-80 | from 2^31 slots on no run stores or receives an element |
| MessageQueue.BlockedMeansEmptyOrFull | Kernel/Sources/comm/queue.c:155-340 | with nobody in flight, blocked consumers mean an empty queue and blocked producers a full one, never both |
| Mutex.MutexObject.Init | Kernel/Sources/sync/mutex.c:50-90 | refuses exactly the priorities out of range and then changes nothing; otherwise a free mutex whose flags word is the two arguments merged bit by bit |
| Mutex.StoredFlags | Kernel/Sources/sync/mutex.c:66-75 | what is read back from the flags word: the recursive bit, the priority when the flags are below 256, and a priority to set that is bits 16 to 23 of the flags |
| Mutex.MutexObject.TestState | Kernel/Sources/sync/mutex.c:212-303 | one pass of the pend loop on the linked wait queue and the flags word does what the specification says: last place, or lock, save the priority and elevate |
| Mutex.MutexObject.PostOne | Kernel/Sources/sync/mutex.c:350-399 | on the linked wait queue: frees the mutex, gives back the saved priority, and the node popped is that of the longest waiter, unlinked |
| Mutex.TryPendIsHalfAPend | Kernel/Sources/sync/mutex.c:446-520 | a try-pend takes a free mutex as a pend would, and gives the same mutex exactly when owner and saved priority were already the caller's |
| Mutex.StepExact | Kernel/Sources/sync/mutex.c:181-520 | after a call no further pend lets a second thread hold the mutex, exactly when the call is disciplined: posts come from the only open acquisition or there is no other thread, and a try-pend does not take a recursive mutex last locked by another thread |
| Mutex.UndisciplinedPost | Kernel/Sources/sync/mutex.c:350-399 | after an undisciplined post every other thread that pends next is a second holder, and so is the woken thread that tests again |
| Mutex.UndisciplinedTry | Kernel/Sources/sync/mutex.c:446-520 | after an undisciplined try-pend the recorded locker becomes a second holder by one pend |
| Mutex.EveryRun | Kernel/Sources/sync/mutex.c:181-520 | over every disciplined run at most one thread holds each mutex, and a free mutex with waiters has a woken thread on its way |
| Mutex.PostRestores | Kernel/Sources/sync/mutex.c:287-375 | a post restores the priority before its acquisition, except after a try-pend that found another priority saved |
| Mutex.PostRightIff | Kernel/Sources/sync/mutex.c:287-375 | a post leaves its caller at the priority its open acquisitions call for exactly when the mutex does not elevate, no newer acquisition does, or the newest one elevates to the priority given back |
| Mutex.NestedRunRestores | Kernel/Sources/sync/mutex.c:181-444 | over every nested run a thread that holds nothing has its own priority back |
| Mutex.OutOfOrderStaysElevated | Kernel/Sources/sync/mutex.c:287-375 | two elevating mutexes posted in the order of acquisition leave the thread elevated |
| Mutex.NestedPostAdmitsAnother | Kernel/Sources/sync/mutex.c:220-224 | after two pends and one post of a recursive mutex another thread acquires it |
| Mutex.TryAdmitsOwner | Kernel/Sources/sync/mutex.c:220-224 | after a try-pend of a recursive mutex by one thread, a pend by its last locker succeeds as well |
| Mutex.OrBit | Kernel/Sources/sync/mutex.c:66-75 | a bit of the flags word is set exactly when it is set in the flags or in the shifted priority |
| Mutex.WaitersStep | Kernel/Sources/sync/mutex.c:212-399 | a post wakes the thread that has waited longest, a test that blocks queues its thread last, nothing else changes the waiters |
| Mutex.WokenStep | Kernel/Sources/sync/mutex.c:212-399 | a thread is on its way to a mutex exactly from the post that wakes it to its next test |
| Mutex.WaitersInOrder | Kernel/Sources/sync/mutex.c:212-399 | after n posts the waiters are those of before without the first n, followed by newer ones, through every run |
| Mutex.TryGivesBackSaved | Kernel/Sources/sync/mutex.c:350-520 | a try-pend and a post of an elevating mutex leave the caller at the priority that was saved before |
| Mutex.TryAfterPost | Kernel/Sources/sync/mutex.c:350-520 | after a post of an elevating mutex that is the lowest priority, whoever tries |
| ThreadTables.TableChanges | Kernel/Sources/core/scheduler.c:893-1031 | when the node of one thread enters, leaves or keeps a linked table, every other table, every wait queue and the global table stay what they were |
| ThreadTables.WaitChanges | Kernel/Sources/core/kernel_queue.c:138-399 | when the node of one thread enters or leaves a linked wait queue, every table, every other wait queue and the global table stay what they were |
| ThreadTables.FoundRows | Kernel/Sources/core/scheduler.c:389-425 | find followed by remove takes the first entry of a thread out of a table, wherever it is, and nothing when there is none |
| Scheduler.SchedulerObject.SelectThread | Kernel/Sources/core/scheduler.c:893-1031 | on linked tables, with threads in any wait queues beside them, requeueing, the wake-up loop and the election loop together are one pass of the specification, and the pass always elects |
| Scheduler.SchedulerObject.WakeSleepers | Kernel/Sources/core/scheduler.c:935-989 | the loop readies sleepers from the tail of the table until one must sleep on |
| Scheduler.SchedulerObject.ElectNext | Kernel/Sources/core/scheduler.c:991-1030 | the loop pops the tail of the best level that is not empty, and panics when there is none |
| Scheduler.SchedulerObject.UnlockThread | Kernel/Sources/core/scheduler.c:1770-1849 | on linked tables, while other threads wait: the node of a thread that has left its wait queue becomes the head of its ready table when it is blocked for the given reason, and is refused with no change otherwise |
| Scheduler.SchedulerObject.CreateThread | Kernel/Sources/core/scheduler.c:1420-1676 | on linked tables: two new nodes enter the ready table and the global table, or nothing changes |
| Scheduler.SchedulerObject.StartIdle | Kernel/Sources/core/scheduler.c:777-883 | on linked tables: the idle thread of a CPU enters the global table, no ready table, and is current |
| SchedulingRuns.PriorityTakesEffect | Kernel/Sources/core/scheduler.c:1320-1339 | a priority is refused exactly out of range; otherwise the caller stands, from the next pass on, behind all who are ready at its new level |
| Scheduler.SchedulerObject.CleanJoined | Kernel/Sources/core/scheduler.c:320-501 | finding, unlinking and freeing both nodes takes the thread out of the zombie table, the global table and the count |
| Scheduler.SchedulerObject.WaitThread | Kernel/Sources/core/scheduler.c:1678-1723 | on linked tables: the nodes of a thread that has ended are unlinked and freed, or the caller blocks and is recorded as the joiner |
| Scheduler.SchedulerObject.FinishWait | Kernel/Sources/core/scheduler.c:1724-1736 | on linked tables: the nodes of the joined thread are unlinked and freed after the wait, and the invariant is kept |
| Scheduler.SchedulerObject.ExitThread | Kernel/Sources/core/scheduler.c:142-310 | on linked tables: the node of the caller enters the zombie table unless it is init, and that of its joiner the ready table |
| Scheduling.OneThreadMoves | Kernel/Sources/core/scheduler.c:142-1031 | a step that moves one node to the table that matches the new state of its thread keeps the invariant of all tables |
| Scheduling.PassKeeps | Kernel/Sources/core/scheduler.c:893-1031 | a pass keeps the invariant and always elects: the empty-election panic is unreachable |
| Scheduling.StepKeeps | Kernel/Sources/core/scheduler.c:142-1849 | every call and every pass, on any CPU, keeps the invariant; second joiners, joins of init and removals of init included |
| Scheduling.EveryRun | Kernel/Sources/core/scheduler.c:142-1849 | in every reachable state each node is once in the table that matches its thread's state, or in none; the count is the number of threads and of global nodes; every started CPU can elect |
| Scheduling.JoinExact | Kernel/Sources/core/scheduler.c:1718-1723 | joining a thread that has not ended keeps the invariant exactly when the caller is not an idle thread |
| SchedulingRuns.IdleJoinPanicsIff | Kernel/Sources/core/scheduler.c:907-1030 | after a join by an idle thread the next pass of its CPU panics exactly when nobody is ready there and the sleeper at the tail is not due |
| Scheduling.SecondJoinerStrands | Kernel/Sources/core/scheduler.c:1718-1723 | after a second join the first joiner is blocked and no thread's joiner link names it any more; the same goes for whoever joins init |
| Scheduling.RemoveExact | Kernel/Sources/core/scheduler.c:1705-1716 | joining a thread that has ended keeps the invariant exactly when its CPU has left it and no earlier joiner will remove it, which is never so for init |
| Scheduling.RemovedTwice | Kernel/Sources/core/scheduler.c:1690-1736 | with an earlier joiner, ready or running, that joiner is left with a link to a thread that is gone, and when it runs the thread count ends one too small |
| Scheduling.CleanExact | Kernel/Sources/core/scheduler.c:1724-1736 | removing a joined thread keeps the invariant exactly when its CPU has switched away from it, which is certain on the joiner's own CPU |
| SchedulingRuns.PassElects | Kernel/Sources/core/scheduler.c:991-1030 | a pass elects the tail, the longest-queued thread, of the best level that is not empty |
| SchedulingRuns.ElectedWithin | Kernel/Sources/core/scheduler.c:907-1030 | a ready thread with k threads ahead at its level is elected by the (k + 1)st pass, through any run in which nothing better is ready at those passes |
| SchedulingRuns.BlockedUntilUnlocked | Kernel/Sources/core/scheduler.c:1738-1849 | a blocked thread stays blocked through every step except an unlock for its reason, which queues it last at its level |
| SchedulingRuns.JoinsUntilExit | Kernel/Sources/core/scheduler.c:263-290 | a joining thread stays so through every step except the exit of the thread it joins, which queues it last at its level unless it is stranded |
| SchedulingRuns.StrandedForever | Kernel/Sources/core/scheduler.c:263-290 | a stranded joiner stays blocked and stranded through every run |
| SchedulingRuns.Population | Kernel/Sources/core/scheduler.c:320-1736 | threads appear only by the creation calls, exactly when these succeed, and disappear only when they have ended and are joined |
| SchedulingCalls.CreateMeans | Kernel/Sources/core/scheduler.c:1420-1676 | a creation succeeds exactly when CPU, priority and allocations are in order; the new thread is ready with the priority and CPU asked for, joins nobody, and stands behind everyone at its level; no other thread and no other table changes |
| SchedulingCalls.IdleMeans | Kernel/Sources/core/scheduler.c:777-883 | the idle thread of a CPU runs there at once at the lowest priority and is in no table; nothing else changes |
| SchedulingCalls.BootMeans | Kernel/Sources/core/scheduler.c:1084-1193 | at the start the idle thread of CPU 0 runs, init is ready there at the best level, and there is no other thread |
| SchedulingCalls.ExitMeans | Kernel/Sources/core/scheduler.c:142-310 | the caller of thread_exit is a zombie and otherwise as before, in the zombie table exactly when it is not init; its joiner alone is readied, behind everyone at its level; nothing else changes |
| SchedulingCalls.ExitPanicsIff | Kernel/Sources/core/scheduler.c:165-171 | thread_exit panics exactly for an idle thread, with no change |
| SchedulingCalls.EndedForever | Kernel/Sources/core/scheduler.c:142-1736 | through every run a thread that has ended stays a zombie and is never elected, until a join removes it |
| SchedulingCalls.ExitIsFinal | Kernel/Sources/core/scheduler.c:142-1736 | the same for whoever calls thread_exit, init included |
| SchedulingCalls.WaitMeans | Kernel/Sources/core/scheduler.c:1678-1723 | a join blocks the caller and records it with the thread and the thread with it; of a thread that has ended it removes exactly that thread; of none it is refused |
| SchedulingCalls.CleanMeans | Kernel/Sources/core/scheduler.c:320-501 | the return from a join removes exactly the joined thread, from the zombie table and the global table, whose order stays; the caller joins nobody any more |
| SchedulingCalls.SleepMeans | Kernel/Sources/core/scheduler.c:1223-1253 | a sleep changes the state and the wake-up time of its caller, which is in no table until its CPU switches away; an idle thread is refused |
| SchedulingCalls.LockMeans | Kernel/Sources/core/scheduler.c:1738-1768 | a lock blocks its caller for the reason given, in no table; an idle thread is refused |
| SchedulingCalls.UnlockMeans | Kernel/Sources/core/scheduler.c:1770-1849 | an unlock readies exactly a thread that is blocked for the reason given, behind everyone at its level; any other is refused with its reason and no change |
| SchedulingCalls.PriorityMeans | Kernel/Sources/core/scheduler.c:1320-1339 | a change of priority touches the priority of the caller and nothing else |
| SchedulingCalls.PassMeans | Kernel/Sources/core/scheduler.c:893-1031 | a pass changes nothing but states of threads of its own CPU: the elected one is the only one that runs there, the one before is ready or stays blocked |
| SchedulingRuns.WakeByPosition | Kernel/Sources/core/scheduler.c:935-989 | the loop readies exactly the tail part of the table whose times have all passed, and changes no other thread |
| SchedulingRuns.AllDueWakeIff | Kernel/Sources/core/scheduler.c:924-989 | every due sleeper is readied exactly when the table holds them all at its tail |
| SchedulingRuns.AllDueWakeByTimes | Kernel/Sources/core/scheduler.c:924-989 | every due sleeper is readied exactly when each has smaller low 32 bits than each sleeper that is not due, or equal ones and fell asleep first |
| SchedulingRuns.PassWakes | Kernel/Sources/core/scheduler.c:893-989 | with wake-up times below 2^32 a pass wakes exactly the sleepers whose time lies before the uptime |
| SchedulingRuns.SleepUntil | Kernel/Sources/core/scheduler.c:1238-1250 | a sleep of ms begun at a tick t0 lasts through every run of passes before t0 + 5 * floor(ms / 5), and the next pass from then on ends it |
| SchedulingRuns.DeadlineIff | Kernel/Sources/core/scheduler.c:1238-1240 | the stored wake-up time gives that end exactly when uptime plus ms is at least one tick |
| SchedulingCases.LateSleeperHidesDue | Kernel/Sources/core/scheduler.c:924-989 | from the start: init sleeps 20 ms at uptime 5, another thread sleeps 2^32 - 5 ms at uptime 20, and no sequence of passes up to uptime 2^32 + 10 wakes init |
| SchedulingCases.FreedWhileCurrent | Kernel/Sources/core/scheduler.c:1724-1736 | from the start on two CPUs: init frees the thread it has joined while the other CPU still runs it |
| SchedulingCases.RemovedTwiceReached | Kernel/Sources/core/scheduler.c:1690-1736 | from the start on two CPUs: a thread is removed by two joiners and the count ends one too small |
| SchedulingCases.InitStranded | Kernel/Sources/core/scheduler.c:1718-1723 | from the start: init joins a thread, a second thread joins it after init, and init is stranded |
| Blocking.HandBackSucceeds | Kernel/Sources/sync/semaphore.c:335-356 | the unlock of a popped thread succeeds on every CPU and queues the thread last at its level |
| Blocking.PanicsExactly | Kernel/Sources/sync/mutex.c:181-444 | with scheduler, semaphores and mutexes together, a pend, post, unlock or pass panics exactly when an idle thread would block |
| Blocking.ActKeeps | Kernel/Sources/sync/semaphore.c:79-468 | every step of scheduler, semaphores and mutexes keeps the joint invariant, also between the pop of a thread and its unlock |
| Blocking.SemSteps | Kernel/Sources/sync/semaphore.c:79-468 | each joint step is a step that one semaphore allows and takes, or leaves the semaphore as it is |
| Blocking.ActTouches | Kernel/Sources/sync/semaphore.c:195-468 | a call of a semaphore or mutex changes nothing in the scheduler but its caller, which it blocks when the test says so and gives a priority only when a mutex elevates |
| Blocking.EveryRun | Kernel/Sources/sync/semaphore.c:79-468 | in every run a blocked thread is in one wait queue, once, or on its way out of it, and in no scheduler table; whoever is queued is blocked for that reason; what could be taken while threads wait for it has a thread on its way that runs, is ready or is unlocked without fail |
| Exclusion.TrackKeeps | Kernel/Sources/sync/mutex.c:181-520 | the steps of the joint machine on mutexes are those of the mutex machine, so each disciplined step keeps mutual exclusion, whatever the scheduler and the semaphores do |
| Exclusion.MutexSteps | Kernel/Sources/sync/mutex.c:181-520 | a step of the joint machine on a mutex is the step of the mutex machine on mutexes, acquisitions, woken threads and the priorities that the scheduler keeps |
| Exclusion.EveryRunExcludes | Kernel/Sources/sync/mutex.c:181-520 | in every run of scheduler, semaphores and mutexes from the start, with disciplined callers, all open acquisitions of a mutex are by one thread |
| Kernel.StartCoupled | Kernel/Sources/core/scheduler.c:1084-1193 | a scheduler whose threads do not wait stands for a joint state without semaphores and mutexes |
| Kernel.CreateSemaphore | Kernel/Sources/sync/semaphore.c:47-77 | a new semaphore on a new wait queue in the memory of the scheduler is a step of the joint machine |
| Kernel.CreateMutex | Kernel/Sources/sync/mutex.c:50-90 | the same for a mutex; a priority out of range is refused with no change |
| Kernel.SemPend | Kernel/Sources/sync/semaphore.c:195-240 | sched_lock_thread, the push on the wait queue and the scheduling pass, on one linked memory in which others wait, are steps of the joint machine; other wait queues stay |
| Kernel.SemPosts | Kernel/Sources/sync/semaphore.c:274-392 | the pop, the unlock, which never fails, and the scheduling pass, on one linked memory, are steps of the joint machine |
| Kernel.MutexPend | Kernel/Sources/sync/mutex.c:212-303 | the same for a round of mutex_pend, with the elevation of the caller |
| Kernel.MutexPosts | Kernel/Sources/sync/mutex.c:350-444 | the same for mutex_post, with the priority given back and the pass it raises |
| Kernel.Schedules | Kernel/Sources/core/scheduler.c:893-1031 | a scheduling pass with threads in any number of wait queues is a step of the joint machine |
| Kernel.CallCoupled | Kernel/Sources/core/scheduler.c:142-1736 | every other call of the scheduler, which changes no wait queue, is a step of the joint machine as well |
| MemMem.Find | Kernel/Sources/lib/memmem.c:18-57 | the skip-by-two search reads in bounds and equals naive search; an empty needle finds nothing |
| MemMem.SkipSafe | Kernel/Sources/lib/memmem.c:25-57 | no occurrence starts at a skipped position |
| MemMem.NaiveFind | Kernel/Sources/lib/memmem.c:25-57 | the reference search gives an occurrence with none before it, and nothing exactly when there is none |
| MemMem.FirstMatch | Kernel/Sources/lib/memmem.c:25-57 | an occurrence with none before it is what naive search gives |
| MemMem.StrStr | Kernel/Sources/lib/strstr.c:18-22 | search up to the terminators equals naive search on the two texts |
| Printing.UIToA | Kernel/Sources/lib/uitoa.c:32-64 | the buffer holds the text and a terminator at the offset and is unchanged elsewhere |
| Printing.ParsePositional | Kernel/Sources/lib/uitoa.c:41-63 | parsing the printed digits gives the value back |
| Printing.NoLeadingZero | Kernel/Sources/lib/uitoa.c:41-63 | no leading zero except for zero itself |
| Printing.AtMost64Digits | Kernel/Sources/lib/uitoa.c:34-63 | at most 64 digits, so the temporary buffer suffices |
| Printing.IToA | Kernel/Sources/lib/itoa.c:29-45 | a sign in base 10 for negative values, otherwise the two's-complement value |
| Printing.ParsePrintedSigned | Kernel/Sources/lib/itoa.c:29-45 | base 10 output parses back to every signed 64-bit value |
| Printing.PrintingInjective | Kernel/Sources/lib/itoa.c:29-45 | different values print differently |
| Printing.SignOnlyInTen | Kernel/Sources/lib/itoa.c:29-45 | a sign is printed exactly in base 10 for a negative value, in front of the digits of its absolute value; otherwise the digits are those of the two's complement |

## Left out

- Drivers, display, formatted output, interrupt dispatch, context switches, page directories and thread stacks: a
  scheduling pass is `select_thread` alone.
- `EXIT_CRITICAL` and the spinlocks: critical sections are taken to be atomic, not proved to be; this includes the windows
  in `thread_exit` and `sched_wait_thread` outside their critical sections.
- Children lists, parent identifiers and thread identifiers: a thread is known by its address, and exits do not hand
  children over to init.
- `get_threads_info`, `sched_terminate_thread`, return values of threads, the idle and init routines: they would only add
  easy members.
- Scheduling.EveryRun: an idle thread neither joins nor exits, and a thread that has ended is removed after its CPU has left
  it and by one joiner; RemoveExact, CleanExact and IdleJoinPanicsIff show what fails otherwise.
- `mem_free` and `kheap_mem_used`, the two counters of the heap that do not balance; the addresses at which the chunk headers
  are laid over memory are keys of a map, so writes of a user beyond its block are not modelled.
- KernelHeap.KHeap.Kfree: requires a live block or NULL; a pointer that is not a live block has no meaning in the source.
- KernelHeap.KHeap.constructor: requires room for the sentinels and one chunk; the source does not check, and RoomExact says
  what its headers are then.
- FreeAreaRuns.EveryRun: leaves out runs that free a region twice, free every address or meet a wrong prev link;
  OverlapRefusedIff, AddFreeCanonicalIff and GetBlockExact say what happens there.
- MemAlloc.AreaList.AddFree: the records of freed nodes are not read again, so what `kmalloc` and `kfree` write into
  them is not modelled.
- `memalloc_init` and the range checks of the page and frame calls, which depend on linker symbols and the boot memory map.
- `mailbox.c` (the message queue at capacity one), `paging.c` and the short string and memory functions: easier instances
  of what is here.
- Destroy and re-init of message queues and mutexes while they are in use, and the test of `init` in `queue_pend`.
- Kernel.SemPend: one round of the loop of `sem_pend`; a thread that is woken comes back with another round. `sem_destroy` is
  proved on its own queue and in the joint machine only.
- Blocking.EveryRun: mutexes whose flags give a priority that cannot be set, whose first pend panics; destroying a mutex; and
  the message queue, which is proved on its own semaphores.
- Semaphore.SemaphoreObject.PostOne: a level at the largest 32-bit integer, where a post is undefined behaviour.
- Printing.UIToA: a base below two for a non-zero value, which divides by zero or does not terminate in the source.
