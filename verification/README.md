# RT-Thread 4.0.2 kernel: a verified model

This project models the uniprocessor core of the RT-Thread kernel and proves what its
parts rely on: blocking communication between threads, four memory allocators, the timer
skip list, and the priority scheduler.

- **Communication** (`WaitLists`, `Semaphore`, `Mutex`, `Events`, `Mailbox`,
  `MessageStore`, `MessageQueue`, `MemPool`). Every region between disabling and enabling
  interrupts is one atomic step. Steps of any number of threads interleave arbitrarily, and
  a time-out may strike any suspended thread at any moment. The theorems are about all
  runs: no wake-up is lost, and no unit, mail, message or node is lost or duplicated. A mutex
  owner stays at least as urgent as its waiters in all runs in which threads use one mutex at a
  time, and in any other run exactly as long as every step meets a condition on the state
  before it. Semaphores, mutexes and event sets are also classes whose methods change the
  fields in place; of mailboxes, message queues and pools the storage is.
- **Allocators**. `Tiling` and `HeapBlocks` describe splitting, merging and moving borders
  once, for any header size. `MemHeapLinks` and `MemHeapObject` prove that the two rings of
  `memheap.c` follow these operations write by write. `SmallMem`, `SmallMemLinks`,
  `SmallMemObject` and `SmallMemRuns` do the same for the header chain of `mem.c`, down to
  the payload bytes, with `MemCopy` for the copy loop. `PageList` and the `Slab` modules
  cover the page list and the zones of `slab.c`.
- **Timers**. `TimerRows` has the wrap-around comparison and the skip-list search for any
  number of rows, `Timers` the list as callers see it, `TimerRuns` all runs, with timers started
  in one step or interrupted between its parts, `TimerChecks` the loop of `rt_timer_check` and
  the two situations in which it misbehaves, `TimerObject` the rows changed in place.
- **Scheduler**. `ReadyBits` has both forms of the ready bitmap and find-first-set, `ReadyWords`
  the words they are kept in, `Scheduler` and `SchedulerRuns` the queues and the thread state
  machine, `SchedulerCalls` what each call does to its thread and to no other, `RoundRobin` the
  bounded wait, `SchedulerObject` the code in place.

Conventions. Numbers are unbounded; the widths that matter are written out (16-bit
semaphore value, 8-bit mutex hold count, 32-bit ticks and sizes). Ticks are counted without
wrap-around beside the 32-bit values that the code compares. A doubly linked list is a pair of
maps `next` and `prev` in `Links` and `MemHeapLinks`; where the list operations are only used,
the list is the sequence of its members. Lower priority numbers are more urgent.

Where the code and its comments disagree, the model follows the code and states exactly when
the comment is right: `lfree` is "lowest free block" only as long as no in-place shrink splits
off a block below it (`SmallMemRuns.StepLowestIff`); power-of-two chunks are aligned to their size
only when their zone is (`SlabIndex.AlignedIff`); priority inheritance stops at the direct owner,
hand-off of a mutex does not boost the new owner, and a release restores the priority recorded at
the take whatever other mutexes need (`Mutex.StepDominatesIff`); the semaphore and hold counters
wrap (`Semaphore.UnitsConserved`, `Mutex.StepSound`); a thread interrupted while it starts a timer
may insert it too late or a second time (`TimerRuns.EnlistKeepsIff`); a thread that becomes
ready while another context is resuming or closing it may be unlinked or inserted once too often
(`SchedulerRuns.StepInvIff`); twelve sizes wrap in `rt_memheap_realloc`
(`MemHeapObject.Heap.Realloc`); `rt_thread_yield` does not give way to a thread of the same
priority before the time slice is over (`Scheduler.YieldGivesWayIff`); a periodic timer with period
0 never lets `rt_timer_check` finish (`TimerChecks.CheckEndsIff`); a one-shot timer restarted by its
own function is left pending but not active (`TimerChecks.FireListedIff`).

## Model

| member | source | states |
|---|---|---|
| `Links.RingInverse` | stm32f401-st-nucleo/rt-thread/include/rtservice.h:47-92 | In a well-formed list `next` and `prev` undo each other at every node and never leave the list. |
| `Links.LinkMemory.InsertAfter` | stm32f401-st-nucleo/rt-thread/include/rtservice.h:58-65 | The four writes turn the ring `s` into `s` with the new node right behind the given position; every other ring is untouched. |
| `Links.LinkMemory.InsertBefore` | stm32f401-st-nucleo/rt-thread/include/rtservice.h:73-80 | Inserting before a node puts it directly in front; before the head means at the tail of the list. |
| `Links.LinkMemory.Remove` | stm32f401-st-nucleo/rt-thread/include/rtservice.h:86-92 | The ring loses exactly that node, which becomes a ring of its own, so a second removal is harmless. |
| `Links.LinkMemory.Len` | stm32f401-st-nucleo/rt-thread/include/rtservice.h:107-119 | The loop counts the nodes of the ring without the head. |
| `WaitLists.FindPlace` | stm32f401-st-nucleo/rt-thread/src/ipc.c:93-118 | The search stops at the first waiter that is strictly less urgent, or at the end. |
| `WaitLists.WaitList.Suspend` | stm32f401-st-nucleo/rt-thread/src/ipc.c:80-124 | FIFO lists get the thread at the tail, PRIO lists behind every waiter that is at least as urgent. |
| `WaitLists.SuspendSorted` | stm32f401-st-nucleo/rt-thread/src/ipc.c:93-118 | A PRIO wait list stays sorted, and waiters of equal priority stay in order of arrival. |
| `WaitLists.JoinsMeans` | stm32f401-st-nucleo/rt-thread/src/ipc.c:80-124 | A thread that joins a FIFO list stands behind everybody, in a sorted PRIO list behind exactly those that are at least as urgent; no two others change their order. |
| `WaitLists.WaitList.ResumeAll` | stm32f401-st-nucleo/rt-thread/src/ipc.c:157-189 | Everybody leaves the list, from the front. |
| `Semaphore.SemaphoreObject.Take` | stm32f401-st-nucleo/rt-thread/src/ipc.c:324-410 | A unit is taken if there is one; otherwise the caller is refused at once if it does not wait, or joins the list in the place its flag gives it. |
| `Semaphore.SemaphoreObject.Release` | stm32f401-st-nucleo/rt-thread/src/ipc.c:433-471 | The first waiter leaves the list with the unit; with no waiter the 16-bit value counts up and may wrap. |
| `Semaphore.WaiterLeaves` | stm32f401-st-nucleo/rt-thread/src/ipc.c:324-471 | A waiter stays on the list through a step unless it times out, gets a unit, or the semaphore is reset. |
| `Semaphore.ServedInTurn` | stm32f401-st-nucleo/rt-thread/src/ipc.c:360-461 | Over every run: a release serves exactly one waiter, the one that arrived first, or for a PRIO semaphore the first to arrive among the most urgent. |
| `Semaphore.StepInv` | stm32f401-st-nucleo/rt-thread/src/ipc.c:324-471 | Every step of every thread keeps the books: initial + releases = value + takes + 65536 × overflows, and value > 0 only without waiters. |
| `Semaphore.AvailableMeansNobodyWaits` | stm32f401-st-nucleo/rt-thread/src/ipc.c:338-471 | In every reachable state of every interleaving, value > 0 implies an empty wait list. |
| `Semaphore.UnitsConserved` | stm32f401-st-nucleo/rt-thread/src/ipc.c:433-471 | initial + releases = value + successful takes, if and only if no release hit 65535 with nobody waiting. |
| `Semaphore.GrantsReturned` | stm32f401-st-nucleo/rt-thread/src/ipc.c:343-471 | Every unit handed to a thread was taken at once, has been returned by its suspended take, or is on its way: takes = immediate + returned + granted. |
| `Semaphore.OverflowExample` | stm32f401-st-nucleo/rt-thread/src/ipc.c:461-461 | The unchecked increment: a release at 65535 leaves value 0 and no grant. |
| `Mutex.MutexObjects.Take` | stm32f401-st-nucleo/rt-thread/src/ipc.c:654-779 | The owner counts up; a free mutex gets the caller as owner with its priority on record; otherwise the caller is refused, or joins the list in its place and lends the owner its priority if that is more urgent. Nothing else changes; success is ownership. |
| `Mutex.MutexObjects.Release` | stm32f401-st-nucleo/rt-thread/src/ipc.c:790-881 | Only the owner may release; a nested release counts down; the last one restores the recorded priority and makes the first waiter the owner or frees the mutex. Nothing else changes. |
| `Mutex.TimeoutMeans` | stm32f401-st-nucleo/rt-thread/src/thread.c:807-829 | A time-out takes that waiter off the list; the others keep their order. |
| `Mutex.StepSound` | stm32f401-st-nucleo/rt-thread/src/ipc.c:654-881 | value = 1 iff no owner iff hold = 0, waiters only behind an owner: kept by every step if and only if it is not the take that overflows the 8-bit hold count. |
| `Mutex.OwnershipStable` | stm32f401-st-nucleo/rt-thread/src/ipc.c:654-881 | No step but the owner's own release ends an ownership. |
| `Mutex.TakeGrants` | stm32f401-st-nucleo/rt-thread/src/ipc.c:682-733 | After a take the caller is the sole owner exactly when it already was or the mutex was free. |
| `Mutex.WaiterLeaves` | stm32f401-st-nucleo/rt-thread/src/ipc.c:725-866 | A waiter stays on the list through a step unless the step is its own time-out or makes it the owner. |
| `Mutex.RunWaiterLeaves` | stm32f401-st-nucleo/rt-thread/src/ipc.c:654-881 | Over every run: whoever has left the wait list timed out or was made the owner. |
| `Mutex.RunSound` | stm32f401-st-nucleo/rt-thread/src/ipc.c:654-881 | The consistency of all mutexes in every reachable state. |
| `Mutex.StepInherits` | stm32f401-st-nucleo/rt-thread/src/ipc.c:692-733 | Every step of a thread that holds no other mutex keeps: no waiter more urgent than the owner, sorted wait lists, threads without mutex at their own priority. |
| `Mutex.RunInherits` | stm32f401-st-nucleo/rt-thread/src/ipc.c:654-881 | The same over whole runs from fresh PRIO mutexes. |
| `Mutex.ReleaseHere` | stm32f401-st-nucleo/rt-thread/src/ipc.c:842-858 | Hand-off does not boost the new owner: it is ahead of the remaining waiters exactly when the first waiter was the most urgent one. |
| `Mutex.ReleaseElsewhere` | stm32f401-st-nucleo/rt-thread/src/ipc.c:834-839 | With nested mutexes the restored priority satisfies the other mutex exactly when it is at least as urgent as all its waiters; mutexes of other owners do not notice. |
| `Mutex.StepDominatesIff` | stm32f401-st-nucleo/rt-thread/src/ipc.c:692-866 | Whatever mutexes the threads hold: if every owner is at least as urgent as its waiters, a step keeps it so if and only if it is safe: a raised owner waits behind no less urgent owner, a hand-off goes to the most urgent waiter, and the restored priority does for the mutexes kept. |
| `Mutex.RunDominatesIff` | stm32f401-st-nucleo/rt-thread/src/ipc.c:654-881 | Over every run from fresh mutexes, nested and chained ones included: all owners stay ahead up to step k if and only if the first k steps are safe. |
| `Mutex.StepSortedIff` | stm32f401-st-nucleo/rt-thread/src/ipc.c:93-118 | Over any use of mutexes a step keeps the PRIO wait lists sorted if and only if it does not raise a waiting owner past a waiter in front of it. |
| `Mutex.RunSortedIff` | stm32f401-st-nucleo/rt-thread/src/ipc.c:654-881 | Over every run from fresh mutexes: all PRIO wait lists are sorted up to step k if and only if the first k steps raise no waiting owner past a waiter in front of it. |
| `Mutex.OvertakingReached` | stm32f401-st-nucleo/rt-thread/src/ipc.c:654-779 | Four takes from fresh mutexes lead to an owner of one mutex that waits for another behind a more urgent waiter. |
| `Mutex.SortedExample` | stm32f401-st-nucleo/rt-thread/src/ipc.c:717-723 | A take that raises that owner leaves it behind a waiter that is now less urgent. |
| `Mutex.ChainExample` | stm32f401-st-nucleo/rt-thread/src/ipc.c:717-723 | The boost stops at the direct owner: with a chain of two mutexes a waiter is more urgent than the owner it waits for. |
| `Mutex.HandOffExample` | stm32f401-st-nucleo/rt-thread/src/ipc.c:842-858 | A FIFO mutex handed to a waiter less urgent than the next one. |
| `Mutex.HoldOverflowExample` | stm32f401-st-nucleo/rt-thread/src/ipc.c:684-684 | The 256th take of the owner leaves an owned mutex with hold count 0. |
| `Mutex.NestedExample` | stm32f401-st-nucleo/rt-thread/src/ipc.c:834-839 | A nested run after which a waiter is more urgent than the owner it waits for. |
| `Events.DeferredIsImmediate` | stm32f401-st-nucleo/rt-thread/src/ipc.c:1049-1101 | The bits rt_event_send stores for a waiter, and what it clears, are what an immediate rt_event_recv would give and clear. |
| `Events.WalkIsRetry` | stm32f401-st-nucleo/rt-thread/src/ipc.c:1049-1101 | The whole walk over the list equals letting every waiter retry its receive in turn. |
| `Events.WalkLeavesNone` | stm32f401-st-nucleo/rt-thread/src/ipc.c:1049-1101 | Nobody left suspended by the walk is satisfied by the bits that remain. |
| `Events.WalkTurns` | stm32f401-st-nucleo/rt-thread/src/ipc.c:1049-1101 | The waiters are served in turn: each finds the set its predecessors left, is served exactly if that set satisfies it, gets its own bits that are there and takes them out if it says so; the others keep their order. |
| `Events.EventObject.Send` | stm32f401-st-nucleo/rt-thread/src/ipc.c:1029-1115 | The loop with removal during the walk computes that outcome, including who receives which bits. |
| `Events.EventObject.Recv` | stm32f401-st-nucleo/rt-thread/src/ipc.c:1127-1240 | All or any of the bits asked for are handed over, and taken out of the set if the caller says so; otherwise the set stays, and the caller is refused or joins the list in its place. |
| `Events.StepLeavesNone` | stm32f401-st-nucleo/rt-thread/src/ipc.c:1029-1240 | Each send, receive, time-out or reset leaves no suspended thread whose AND/OR condition is met. |
| `Events.NobodyOverlooked` | stm32f401-st-nucleo/rt-thread/src/ipc.c:1029-1282 | The same in every reachable state. |
| `Mailbox.Buffer.Put` | stm32f401-st-nucleo/rt-thread/src/ipc.c:1535-1542 | Writing at the in-offset appends to the mails in order of receipt, around the end of the pool. |
| `Mailbox.Buffer.Get` | stm32f401-st-nucleo/rt-thread/src/ipc.c:1683-1691 | Reading at the out-offset removes the oldest mail. |
| `Mailbox.StepInv` | stm32f401-st-nucleo/rt-thread/src/ipc.c:1442-1714 | Every region of a send or receive, time-out or reset keeps the mail order and the wake-up accounting. |
| `Mailbox.SendMeans` | stm32f401-st-nucleo/rt-thread/src/ipc.c:1462-1560 | A send stores the mail at the end and resumes the first receiver; on a full mailbox the caller joins the list in its place if it waits, and is refused if not. |
| `Mailbox.RecvMeans` | stm32f401-st-nucleo/rt-thread/src/ipc.c:1610-1705 | A receive takes the oldest mail and resumes the first sender; on an empty mailbox the caller joins the list or is refused. |
| `Mailbox.WaiterLeaves` | stm32f401-st-nucleo/rt-thread/src/ipc.c:1442-1714 | A suspended thread stays so through a step unless it times out, is resumed, or the mailbox is reset. |
| `Mailbox.MailboxTheorem` | stm32f401-st-nucleo/rt-thread/src/ipc.c:1442-1714 | In every interleaving mails are received in the order sent, none lost or duplicated; while a receiver (sender) is suspended, the mails (free slots) do not exceed the receivers (senders) already resumed. |
| `MessageStore.Pool.constructor` | stm32f401-st-nucleo/rt-thread/src/ipc.c:1810-1825 | All nodes are threaded on the free list, last one first; the queue is empty. |
| `MessageStore.Pool.TakeFree` | stm32f401-st-nucleo/rt-thread/src/ipc.c:2079-2080 | The head of the free list leaves it; queue and remaining free list are as before. |
| `MessageStore.Pool.ClearNext` | stm32f401-st-nucleo/rt-thread/src/ipc.c:2086-2086 | The node taken gets a null link, as the linking behind the tail needs; queue and free list do not notice. |
| `MessageStore.Pool.LinkTail` | stm32f401-st-nucleo/rt-thread/src/ipc.c:2092-2106 | The node is linked behind the tail and becomes the head if there was none. |
| `MessageStore.Pool.LinkHead` | stm32f401-st-nucleo/rt-thread/src/ipc.c:2197-2206 | The urgent node is linked in front of the head and becomes the tail if there was none. |
| `MessageStore.Pool.TakeHead` | stm32f401-st-nucleo/rt-thread/src/ipc.c:2339-2349 | The head leaves the queue and the tail is cleared when it was the last. |
| `MessageStore.Pool.PutFree` | stm32f401-st-nucleo/rt-thread/src/ipc.c:2359-2361 | The node goes to the front of the free list. |
| `MessageStore.Pool.Drain` | stm32f401-st-nucleo/rt-thread/src/ipc.c:2416-2434 | The reset loop moves every queued node to the free list, in reversed order. |
| `MessageStore.Pool.NullTogether` | stm32f401-st-nucleo/rt-thread/src/ipc.c:2079-2106 | head and tail are null together, exactly when the queue is empty. |
| `MessageQueue.StepInv` | stm32f401-st-nucleo/rt-thread/src/ipc.c:1975-2434 | Every region of every thread, the copies between them, time-outs and resets keep: node conservation, list contents, wake-up accounting, and intact message bytes. |
| `MessageQueue.SendTryMeans` | stm32f401-st-nucleo/rt-thread/src/ipc.c:2000-2082 | A send that is not too long takes the first free node; without one the caller joins the list in its place if it waits, and is refused if not; the queue does not change. |
| `MessageQueue.UrgentTryMeans` | stm32f401-st-nucleo/rt-thread/src/ipc.c:2165-2192 | An urgent send takes the first free node or is refused at once. |
| `MessageQueue.RecvTryMeans` | stm32f401-st-nucleo/rt-thread/src/ipc.c:2262-2349 | A receive takes the first message; on an empty queue the caller joins the list in its place or is refused. |
| `MessageQueue.LinkMeans` | stm32f401-st-nucleo/rt-thread/src/ipc.c:2089-2211 | The message enters at its end of the queue and the first receiver is resumed. |
| `MessageQueue.RecvDoneMeans` | stm32f401-st-nucleo/rt-thread/src/ipc.c:2353-2370 | The node becomes the first free one and the first sender is resumed. |
| `MessageQueue.LinkedWhereSent` | stm32f401-st-nucleo/rt-thread/src/ipc.c:2079-2206 | Over every run: the message a thread links is that of its last try; after a send it goes behind all queued messages, after an urgent send in front of them, whatever others did in between. |
| `MessageQueue.WaiterLeaves` | stm32f401-st-nucleo/rt-thread/src/ipc.c:1975-2434 | A suspended thread stays so through a step unless it times out, is resumed, or the queue is reset. |
| `MessageQueue.NodesConserved` | stm32f401-st-nucleo/rt-thread/src/ipc.c:1816-2434 | In every reachable state each node is in exactly one of the queue, the free list or one thread's in-flight copy, and `entry` is the queue length. |
| `MessageQueue.NoLostWakeups` | stm32f401-st-nucleo/rt-thread/src/ipc.c:1975-2384 | While a receiver is suspended, queued messages ≤ resumed receivers that have not looked again; likewise senders and free nodes. |
| `MessageQueue.NoDeadlock` | stm32f401-st-nucleo/rt-thread/src/ipc.c:1975-2384 | Senders and receivers are never all suspended with nobody resumed or copying. |
| `MessageQueue.FifoOrder` | stm32f401-st-nucleo/rt-thread/src/ipc.c:2079-2206 | The queue is the replay of the log on a plain list: FIFO, urgent messages at the front, emptied by a reset. |
| `MessageQueue.DeliversMessage` | stm32f401-st-nucleo/rt-thread/src/ipc.c:2339-2361 | The bytes copied out between the two regions, while others run, are those of the message taken off the queue. |
| `MemPool.Blocks.constructor` | stm32f401-st-nucleo/rt-thread/src/mempool.c:77-121 | The blocks are threaded on the free list in address order, each once. |
| `MemPool.Blocks.Alloc` | stm32f401-st-nucleo/rt-thread/src/mempool.c:371-382 | The first free block leaves the list and remembers its pool. |
| `MemPool.Blocks.Free` | stm32f401-st-nucleo/rt-thread/src/mempool.c:409-423 | The block goes to the front of the free list. |
| `MemPool.StepInv` | stm32f401-st-nucleo/rt-thread/src/mempool.c:303-449 | Every region, time-out or free keeps each block free or held and the wake-up accounting. |
| `MemPool.AllocMeans` | stm32f401-st-nucleo/rt-thread/src/mempool.c:303-390 | An allocation gets the first free block; without one the caller joins the list in front of all others if it waits, and is refused if not. |
| `MemPool.FreeMeans` | stm32f401-st-nucleo/rt-thread/src/mempool.c:399-449 | A block given back is the next to be handed out, and the thread that came last is resumed. |
| `MemPool.PoolTheorem` | stm32f401-st-nucleo/rt-thread/src/mempool.c:303-449 | In every interleaving each block is free or held, never both; while an allocator is suspended, free blocks ≤ allocators already resumed. |
| `Tiling.SumsTotal` | stm32f401-st-nucleo/rt-thread/src/memheap.c:50-121 | Free payload, used payload and headers add up to the whole area. |
| `HeapBlocks.AllocGood` | stm32f401-st-nucleo/rt-thread/src/memheap.c:182-262 | Splitting or taking a free block keeps the exact tiling with no two free neighbours, and changes the free bytes by the amount subtracted. |
| `HeapBlocks.FreeGood` | stm32f401-st-nucleo/rt-thread/src/memheap.c:495-595 | Melting with a free left, right or both neighbours keeps tiling and separation. |
| `HeapBlocks.FreeSum` | stm32f401-st-nucleo/rt-thread/src/memheap.c:536-578 | The free bytes grow by the block plus one header for every merge. |
| `HeapBlocks.GrowGood` | stm32f401-st-nucleo/rt-thread/src/memheap.c:350-393 | Moving the border into a free successor keeps tiling and separation, and accounts for the bytes taken. |
| `HeapBlocks.ShrinkGood` | stm32f401-st-nucleo/rt-thread/src/memheap.c:432-485 | Splitting off the rest and merging it to the right keeps tiling and separation. |
| `HeapBlocks.FreeInSteps` | stm32f401-st-nucleo/rt-thread/src/memheap.c:536-578 | Merging left first, then right, is the one-step merge. |
| `HeapBlocks.FreeRightFirst` | stm32f401-st-nucleo/rt-thread/src/mem.c:156-194 | Merging right first, then left, as plug_holes does, is the same merge. |
| `HeapBlocks.AllocFreeRoundTrip` | stm32f401-st-nucleo/rt-thread/src/memheap.c:138-595 | Freeing what was just allocated restores the blocks exactly. |
| `MemHeap.Request` | stm32f401-st-nucleo/rt-thread/src/memheap.c:147-150 | The 32-bit alignment never goes below the minimum, and covers the request when it does not wrap. |
| `MemHeap.GrowTestIff` | stm32f401-st-nucleo/rt-thread/src/memheap.c:350-350 | The 32-bit test for growing in place agrees with the comparison of the sums if and only if the new size plus the minimum fits 32 bits; if not, it always succeeds. |
| `MemHeap.WrappingSizes` | stm32f401-st-nucleo/rt-thread/src/memheap.c:299-350 | That sum wraps exactly for requests from 0xFFFFFFF1 to 0xFFFFFFFC. |
| `MemHeap.WrapExample` | stm32f401-st-nucleo/rt-thread/src/memheap.c:350-350 | A block of 100 bytes before a free one of 200 passes the test for 0xFFFFFFF8 bytes. |
| `MemHeapObject.Heap.constructor` | stm32f401-st-nucleo/rt-thread/src/memheap.c:50-121 | One free block between the two ends, both rings linked, counters right. |
| `MemHeapObject.Heap.FindFree` | stm32f401-st-nucleo/rt-thread/src/memheap.c:169-180 | The walk along the free ring stops at the first block that is large enough, or there is none. |
| `MemHeapObject.Heap.Alloc` | stm32f401-st-nucleo/rt-thread/src/memheap.c:138-281 | Fails exactly when the request is not below the available bytes or no free block fits; otherwise the first fitting block of the free ring is carved, and what is split off goes to the front of the ring. Both rings, tiling, `available_size` = sum of free sizes and the recorded levels stay right. |
| `MemHeapObject.Heap.Free` | stm32f401-st-nucleo/rt-thread/src/memheap.c:495-595 | The block is merged with its free neighbours and goes to the front of the free ring unless its predecessor is there already; counters stay right. |
| `MemHeapObject.Heap.Grow` | stm32f401-st-nucleo/rt-thread/src/memheap.c:350-393 | In-place growth: the border moves, the rest is relinked, and `max_used_size` is the maximum of all levels so far. |
| `MemHeapObject.Heap.GrowWrapped` | stm32f401-st-nucleo/rt-thread/src/memheap.c:350-398 | The same branch after the test has wrapped: the successor link of the block points into its own header, `available_size` grows, and the heap is no longer in order. |
| `MemHeapLinks.LinksBeyondHeader` | stm32f401-st-nucleo/rt-thread/src/memheap.c:384-387 | No list of blocks is represented by headers one of which links into itself. |
| `MemHeapObject.Heap.Shrink` | stm32f401-st-nucleo/rt-thread/src/memheap.c:432-485 | In-place shrink-then-merge with exact counters. |
| `MemHeapObject.Heap.Realloc` | stm32f401-st-nucleo/rt-thread/src/memheap.c:284-492 | The heap stays in order if and only if the block has no free successor or the new size plus the minimum fits 32 bits. Then: a block that is too small grows in place if its free successor has enough, or else a new block is found and the old one freed, and null is returned exactly if rt_memheap_alloc would fail; one that is large enough keeps its pointer and is split if the rest is worth a block. No other live block is touched. Otherwise the old pointer comes back with a block that ends inside its header. |
| `MemHeap.MaxOfIs` | stm32f401-st-nucleo/rt-thread/src/memheap.c:231-242 | The maximum kept in step with the levels is one of them and at least all of them. |
| `SmallMem.AlignCovers` | stm32f401-st-nucleo/rt-thread/src/mem.c:289-289 | RT_ALIGN rounds up by less than a word if and only if the sum does not wrap. |
| `SmallMem.HugeRequestIff` | stm32f401-st-nucleo/rt-thread/src/mem.c:289-300 | For the three greatest sizes, and only for them, malloc looks for fewer bytes than requested (twelve), and realloc sees size 0 and frees the block. |
| `SmallMem.MallocSound` | stm32f401-st-nucleo/rt-thread/src/mem.c:305-405 | Blocks tile the heap, no two neighbours are unused, lfree is the end or an unused block: kept by malloc. |
| `SmallMem.FreeSound` | stm32f401-st-nucleo/rt-thread/src/mem.c:546-609 | The same for free with its two-sided merge. |
| `SmallMem.ShrinkSound` | stm32f401-st-nucleo/rt-thread/src/mem.c:459-498 | The same for the in-place shrink. |
| `SmallMem.MallocLowest` | stm32f401-st-nucleo/rt-thread/src/mem.c:380-387 | If lfree was the lowest unused block, it still is after malloc. |
| `SmallMem.FreeLowest` | stm32f401-st-nucleo/rt-thread/src/mem.c:596-607 | The same for free. |
| `SmallMem.ShrinkLowestIff` | stm32f401-st-nucleo/rt-thread/src/mem.c:471-498 | After an in-place shrink lfree is lowest if and only if it lay below the split-off rest or is swallowed by it. |
| `SmallMem.ShrinkExample` | stm32f401-st-nucleo/rt-thread/src/mem.c:471-498 | A shrink after which lfree is not the lowest unused block. |
| `SmallMem.FirstFitIsLowest` | stm32f401-st-nucleo/rt-thread/src/mem.c:305-312 | With lfree lowest, malloc takes the lowest block it may take at all. |
| `SmallMem.LastExactFitRefused` | stm32f401-st-nucleo/rt-thread/src/mem.c:306-306 | The strict bound: an exactly fitting unused block is refused exactly when it is the last one. |
| `SmallMemRuns.RunSound` | stm32f401-st-nucleo/rt-thread/src/mem.c:204-609 | Soundness after any sequence of operations. |
| `SmallMemRuns.StepLowestIff` | stm32f401-st-nucleo/rt-thread/src/mem.c:305-609 | A step keeps lfree lowest if and only if it is not a shrink that splits off a block below lfree. |
| `SmallMemRuns.RunLowestIff` | stm32f401-st-nucleo/rt-thread/src/mem.c:298-607 | Over every run: lfree is the lowest unused block up to step k if and only if the first k steps are no such shrinks. |
| `SmallMemRuns.RunTakesLowest` | stm32f401-st-nucleo/rt-thread/src/mem.c:298-410 | In runs without such shrinks malloc returns null iff no unused block below the strict bound fits, and otherwise takes the lowest one. |
| `SmallMemObject.SmallHeap.constructor` | stm32f401-st-nucleo/rt-thread/src/mem.c:204-257 | The header words of the fresh heap. |
| `SmallMemObject.SmallHeap.Find` | stm32f401-st-nucleo/rt-thread/src/mem.c:305-312 | The search loop finds the first fit from lfree, or there is none. |
| `SmallMemObject.SmallHeap.PlugHoles` | stm32f401-st-nucleo/rt-thread/src/mem.c:156-194 | Forward and backward merge on the header words, with lfree moved along. |
| `SmallMemObject.SmallHeap.Malloc` | stm32f401-st-nucleo/rt-thread/src/mem.c:272-410 | Null exactly when nothing fits; otherwise first fit, header chain, `used_mem`, `max_mem` and lfree as specified, and no live payload changes. |
| `SmallMemObject.SmallHeap.Free` | stm32f401-st-nucleo/rt-thread/src/mem.c:546-609 | The chain after merging, `used_mem`, and all other payloads unchanged. |
| `SmallMemObject.SmallHeap.Realloc` | stm32f401-st-nucleo/rt-thread/src/mem.c:425-513 | A block of the size asked for is returned as it is; one with enough to spare for another block is split in place to exactly that size and `used_mem` falls by the rest; otherwise null is returned exactly if rt_malloc finds nothing, with nothing changed, and else the block moves to where rt_malloc puts it. The payload is carried over and all other payloads stay. |
| `SmallMemLinks.RepSplit` | stm32f401-st-nucleo/rt-thread/src/mem.c:329-348 | Writing a new header behind a block keeps `next`/`prev` in agreement with the blocks, except for the `prev` of the end. |
| `SmallMemLinks.RepJoin` | stm32f401-st-nucleo/rt-thread/src/mem.c:156-194 | Skipping a header keeps them in agreement. |
| `SmallMemLinks.PayloadKept` | stm32f401-st-nucleo/rt-thread/src/mem.c:329-372 | Writing headers alters no byte of a block that stays as it is. |
| `MemCopy.MemCopy` | stm32f401-st-nucleo/rt-thread/src/kservice.c:210-280 | The word loops and the byte loop leave exactly the source bytes in the destination and nothing else changed. |
| `PageList.Pages.Alloc` | stm32f401-st-nucleo/rt-thread/src/slab.c:236-270 | The pointer walk computes the first-fit split of the run list. |
| `PageList.Pages.Free` | stm32f401-st-nucleo/rt-thread/src/slab.c:272-322 | The pointer walk computes the merged run list. |
| `PageList.CanonicalUnique` | stm32f401-st-nucleo/rt-thread/src/slab.c:236-322 | A list of sorted, non-empty, non-touching runs is determined by its set of pages. |
| `PageList.AllocTakes` | stm32f401-st-nucleo/rt-thread/src/slab.c:236-270 | Exactly the first pages of the first large enough run are taken; null exactly when there is none; the form stays canonical. |
| `PageList.FreeAdds` | stm32f401-st-nucleo/rt-thread/src/slab.c:272-322 | Exactly the freed pages are added; the form stays canonical. |
| `PageList.AllocFreeRoundTrip` | stm32f401-st-nucleo/rt-thread/src/slab.c:236-322 | Freeing pages just allocated restores the same list. |
| `PageList.FreeCommutes` | stm32f401-st-nucleo/rt-thread/src/slab.c:272-322 | The order of two frees does not matter. |
| `PageList.AllocHeld` | stm32f401-st-nucleo/rt-thread/src/slab.c:236-270 | Pages handed out belong to nobody else and none goes missing. |
| `PageList.FreeHeld` | stm32f401-st-nucleo/rt-thread/src/slab.c:272-322 | Pages given back are free, and all other blocks keep theirs. |
| `SlabIndex.ZoneIndexBestFit` | stm32f401-st-nucleo/rt-thread/src/slab.c:401-459 | The class is the smallest of the 72 that can hold the request. |
| `SlabIndex.ZoneIndexWaste` | stm32f401-st-nucleo/rt-thread/src/slab.c:401-459 | Rounding wastes less than eight bytes or less than an eighth. |
| `SlabIndex.ZoneIndexIdempotent` | stm32f401-st-nucleo/rt-thread/src/slab.c:716-728 | Rounding the rounded size again gives the same class. |
| `SlabIndex.ChooseZoneSize` | stm32f401-st-nucleo/rt-thread/src/slab.c:373-377 | The loop picks 32, 64 or 128 KB according to the heap size. |
| `SlabIndex.CapacityAtLeastThree` | stm32f401-st-nucleo/rt-thread/src/slab.c:628-643 | Every zone holds at least three chunks, so a new zone goes on its list with chunks to spare. |
| `SlabIndex.AlignedIff` | stm32f401-st-nucleo/rt-thread/src/slab.c:631-638 | A power-of-two chunk is aligned to its size if and only if its zone is, which is certain up to the page size. |
| `SlabSteps.ChunkDecodes` | stm32f401-st-nucleo/rt-thread/src/slab.c:795-827 | The page usage table leads from any chunk address back to its zone and number. |
| `SlabSteps.ChunkTaken` | stm32f401-st-nucleo/rt-thread/src/slab.c:539-576 | The head zone hands out a chunk nobody holds, and leaves its list exactly when it has no more. |
| `SlabSteps.ZoneOpened` | stm32f401-st-nucleo/rt-thread/src/slab.c:625-652 | A new zone starts with its first chunk out and the rest never used. |
| `SlabSteps.ChunkGiven` | stm32f401-st-nucleo/rt-thread/src/slab.c:830-846 | The chunk joins the free list; a full zone goes back on its list. |
| `SlabSteps.ZoneRetired` | stm32f401-st-nucleo/rt-thread/src/slab.c:854-874 | Only a zone without live chunks is put aside, and only if its class has another zone on the list. |
| `SlabSteps.SpareReleased` | stm32f401-st-nucleo/rt-thread/src/slab.c:876-899 | Of more than two spare zones one goes back to the page allocator. |
| `SlabSteps.MallocSound` | stm32f401-st-nucleo/rt-thread/src/slab.c:478-667 | The address is new and large enough, all structure invariants hold, `used_mem`/`max_mem` follow; failure changes nothing. |
| `SlabSteps.MallocFailsIff` | stm32f401-st-nucleo/rt-thread/src/slab.c:478-667 | Null exactly for size 0, or no run of pages for a large request, or no free chunk, no spare zone and no run of pages for a small one. |
| `SlabRuns.MallocLarge` | stm32f401-st-nucleo/rt-thread/src/slab.c:488-515 | A large request gets exactly the pages it needs, and no zone changes. |
| `SlabRuns.MallocFromZone` | stm32f401-st-nucleo/rt-thread/src/slab.c:537-576 | A small request gets one chunk of its class from a zone in use as long as there is one with a chunk left; no page moves. |
| `SlabRuns.MallocOpens` | stm32f401-st-nucleo/rt-thread/src/slab.c:588-652 | Otherwise a zone kept back is opened, and only without one new pages are taken. |
| `SlabSteps.FreeSound` | stm32f401-st-nucleo/rt-thread/src/slab.c:771-903 | Exactly the object behind the address is given back; at most two spare zones remain. |
| `SlabRuns.FreeLargeMeans` | stm32f401-st-nucleo/rt-thread/src/slab.c:795-817 | A large object gives exactly its pages back. |
| `SlabRuns.FreeChunkMeans` | stm32f401-st-nucleo/rt-thread/src/slab.c:824-903 | A chunk goes back to its zone, other zones do not notice, and pages go back only if two zones are kept back already. |
| `SlabRuns.MisalignedExample` | stm32f401-st-nucleo/rt-thread/src/slab.c:631-638 | A fresh heap whose malloc of 8000 bytes returns an 8 KB chunk that is not aligned to 8 KB. |
| `SlabRuns.ReallocSound` | stm32f401-st-nucleo/rt-thread/src/slab.c:678-736 | Failure changes nothing; success keeps or moves the one object and copies as much as both sizes allow. |
| `SlabRuns.ReallocOutcome` | stm32f401-st-nucleo/rt-thread/src/slab.c:678-735 | A chunk of the right class is kept as it is; otherwise rt_realloc fails exactly if rt_malloc has nothing for the size, which for a chunk is rounded to its class first. |
| `SlabRuns.LiveNotFree` | stm32f401-st-nucleo/rt-thread/src/slab.c:236-903 | No byte of a live object lies in a page the page allocator could hand out. |
| `SlabRuns.SlabTheorem` | stm32f401-st-nucleo/rt-thread/src/slab.c:478-903 | After any sequence of calls: all structure invariants, live objects pairwise disjoint, `used_mem` the sum of their sizes, and with nothing live at most one zone for each class and two spare ones are kept. |
| `SlabObject.SlabHeap.Malloc` | stm32f401-st-nucleo/rt-thread/src/slab.c:478-667 | The in-place code computes the specified result and heap. |
| `SlabObject.SlabHeap.Free` | stm32f401-st-nucleo/rt-thread/src/slab.c:771-903 | The same for free, with the list walk and the page table loops. |
| `SlabObject.SlabHeap.Realloc` | stm32f401-st-nucleo/rt-thread/src/slab.c:678-736 | The same for realloc. |
| `SlabObject.SlabHeap.Unlink` | stm32f401-st-nucleo/rt-thread/src/slab.c:863-865 | The pointer walk removes the one zone from its list. |
| `TimerRows.LaterIff` | stm32f401-st-nucleo/rt-thread/src/timer.c:359-366 | The wrap-around comparison agrees with the true order if and only if the ticks are within the window. |
| `TimerRows.ExpiredIff` | stm32f401-st-nucleo/rt-thread/src/timer.c:512-516 | The same for the test whether a timer has expired. |
| `TimerRows.FindPlaces` | stm32f401-st-nucleo/rt-thread/src/timer.c:342-371 | For any number of rows, the search that descends through the rows finds in each row the place behind all timers due no later. |
| `TimerRows.RaisedOk` | stm32f401-st-nucleo/rt-thread/src/timer.c:376-391 | For any tower height the last row is the stable insertion and every row stays a sublist of the next. |
| `TimerRows.LoweredOk` | stm32f401-st-nucleo/rt-thread/src/timer.c:121-129 | Removal from all rows keeps order and sublists. |
| `Timers.InsertOrdered` | stm32f401-st-nucleo/rt-thread/src/timer.c:354-366 | Timers are ordered by due time and then by start. |
| `TimerRows.InsertWrappedExact` | stm32f401-st-nucleo/rt-thread/src/timer.c:345-367 | With comparable ticks the insertion by the wrapped comparison is the stable insertion. |
| `Timers.StartInv` | stm32f401-st-nucleo/rt-thread/src/timer.c:296-393 | A start without a break, as callers with interrupts disabled make it, keeps the order and the half-range window. |
| `Timers.StopInv` | stm32f401-st-nucleo/rt-thread/src/timer.c:422-450 | Stopping keeps order and window. |
| `Timers.StopMeans` | stm32f401-st-nucleo/rt-thread/src/timer.c:422-450 | A stop succeeds exactly for a pending timer and takes it out; every other timer stays pending and active, due when it was, and in its order. |
| `Timers.StartMeans` | stm32f401-st-nucleo/rt-thread/src/timer.c:296-396 | A start makes the timer pending, active, due one period from now and the youngest; every other timer stays as and where it was. |
| `Timers.CheckFires` | stm32f401-st-nucleo/rt-thread/src/timer.c:494-553 | Each expired timer fires once, in order of due time and then start; exactly the periodic ones are pending again, one period from now; the rest is due strictly later. |
| `Timers.CheckAges` | stm32f401-st-nucleo/rt-thread/src/timer.c:494-553 | Re-armed timers count as started in the order in which they fired, after all others; nobody else changes its age. |
| `TimerRuns.StampKeepsIff` | stm32f401-st-nucleo/rt-thread/src/timer.c:323-324 | Writing the due tick of a timer, read from the clock some time before, keeps order and window if and only if the timer is not pending or stays in its place. |
| `TimerRuns.EnlistKeepsIff` | stm32f401-st-nucleo/rt-thread/src/timer.c:327-396 | The second region keeps order and window if and only if the timer is not pending and its stamped tick has not passed. |
| `TimerRuns.ClearKeepsIff` | stm32f401-st-nucleo/rt-thread/src/timer.c:435-444 | rt_timer_stop clears the flag after its region: harmless if and only if nobody has started the timer again in between. |
| `TimerRuns.DoubleStart` | stm32f401-st-nucleo/rt-thread/src/timer.c:309-396 | Two threads that start the same timer at once: the second insertion breaks the list. |
| `TimerRuns.PartsAreStart` | stm32f401-st-nucleo/rt-thread/src/timer.c:309-396 | Without a break the two regions and the clock reading between them are the start in one step. |
| `TimerRuns.LateOrderIff` | stm32f401-st-nucleo/rt-thread/src/timer.c:345-367 | The sharp bound: a late timer is inserted in front, where it belongs, if and only if the first pending timer is due less than half the tick range after it. |
| `TimerRuns.LateFires` | stm32f401-st-nucleo/rt-thread/src/timer.c:507-516 | A late timer in its place fires at the next tick, late by the delay and one tick. |
| `TimerRuns.LateExample` | stm32f401-st-nucleo/rt-thread/src/timer.c:323-327 | Period 1, clock read at tick 0, inserted at tick 3: the window is left. |
| `TimerRuns.DisorderExample` | stm32f401-st-nucleo/rt-thread/src/timer.c:359-366 | The same beside a timer at the far end of the window: the late timer is put behind it. |
| `TimerRuns.StepInvIff` | stm32f401-st-nucleo/rt-thread/src/timer.c:296-553 | Starts in one step or in parts, by any number of threads at once, stops, ticks, re-arming and settings: a step keeps the invariant if and only if it is timely. |
| `TimerRuns.RunInvIff` | stm32f401-st-nucleo/rt-thread/src/timer.c:296-553 | Over every run: the list is ordered, pending = active and all due ticks lie in the window up to step k if and only if the first k steps are timely. |
| `TimerRuns.RunInv` | stm32f401-st-nucleo/rt-thread/src/timer.c:296-553 | In runs whose starts and stops are made in one step the invariant holds unconditionally. |
| `TimerRuns.AlwaysComparable` | stm32f401-st-nucleo/rt-thread/src/timer.c:359-366 | As long as all steps are timely, every comparison the code makes is exact. |
| `TimerRuns.FiresOnTime` | stm32f401-st-nucleo/rt-thread/src/timer.c:494-553 | As long as all steps are timely, a tick fires exactly the pending timers due by then, and none is overdue. |
| `TimerRuns.StepPending` | stm32f401-st-nucleo/rt-thread/src/timer.c:296-553 | A pending timer that nobody touches stays pending and due when it was through every timely step, unless a tick fires it. |
| `TimerRuns.StepIdle` | stm32f401-st-nucleo/rt-thread/src/timer.c:296-553 | A timer that is not pending does not become so by itself, and no tick fires it. |
| `TimerRuns.FiresAfterPeriod` | stm32f401-st-nucleo/rt-thread/src/timer.c:296-553 | Over every run: a timer started and left alone fires at the tick one period after its start, or at the next one for period 0, and at none before. |
| `TimerChecks.CheckEndsIff` | stm32f401-st-nucleo/rt-thread/src/timer.c:507-547 | The loop of rt_timer_check ends if and only if no expired periodic timer has period 0. |
| `TimerChecks.StuckExample` | stm32f401-st-nucleo/rt-thread/src/timer.c:507-547 | A due periodic timer with period 0: the loop never ends. |
| `TimerChecks.FireListedIff` | stm32f401-st-nucleo/rt-thread/src/timer.c:532-543 | Pending timers are the active ones after a firing, if and only if it is not a one-shot timer whose function restarts it. |
| `TimerChecks.RestartedTimerCannotBeStopped` | stm32f401-st-nucleo/rt-thread/src/timer.c:532-543 | Such a timer is pending but rt_timer_stop refuses it. |
| `TimerObject.TimerList.Unlist` | stm32f401-st-nucleo/rt-thread/src/timer.c:309-315 | The first region on all rows and the flag. |
| `TimerObject.TimerList.Stamp` | stm32f401-st-nucleo/rt-thread/src/timer.c:323-324 | The clock reading, in wrapped ticks. |
| `TimerObject.TimerList.Enlist` | stm32f401-st-nucleo/rt-thread/src/timer.c:327-396 | The second region on rows, wrapped ticks and the height counter, for a timer comparable with the pending ones. |
| `TimerObject.TimerList.Start` | stm32f401-st-nucleo/rt-thread/src/timer.c:296-396 | The three parts in one go: pending, active, due one period from now; every other timer as it was. |
| `TimerObject.TimerList.Stop` | stm32f401-st-nucleo/rt-thread/src/timer.c:422-450 | Refused exactly for inactive timers; otherwise that timer and no other leaves all rows. |
| `TimerObject.TimerList.Check` | stm32f401-st-nucleo/rt-thread/src/timer.c:494-553 | The loop, which fires and re-arms one timer at a time, computes what CheckFires states. |
| `TimerObject.TimerList.Tick` | stm32f401-st-nucleo/rt-thread/src/clock.c:72-96 | The wrapping tick moves on and the expired timers fire. |
| `ReadyBits.FfsIsLow` | stm32f401-st-nucleo/rt-thread/src/kservice.c:1316-1330 | The table lookup finds the lowest bit of every 32-bit word. |
| `ReadyBits.LowIsLowest` | stm32f401-st-nucleo/rt-thread/src/kservice.c:1305-1330 | That bit is set and all lower ones are not. |
| `ReadyWords.FfsIsLowest` | stm32f401-st-nucleo/rt-thread/src/kservice.c:1316-1330 | On every 32-bit word __rt_ffs is one more than the lowest element of its set of bits, and 0 exactly for the empty word. |
| `ReadyWords.SetWords` | stm32f401-st-nucleo/rt-thread/src/scheduler.c:733-737 | Or-ing the masks into the words marks the priority in the bitmap they stand for, within their width, in both forms. |
| `ReadyWords.ClearWords` | stm32f401-st-nucleo/rt-thread/src/scheduler.c:820-832 | And-ing them out unmarks it, and the group bit when the table word becomes 0. |
| `ReadyWords.OneLevelLookup` | stm32f401-st-nucleo/rt-thread/src/scheduler.c:175-175 | __rt_ffs(group) - 1 is the best priority. |
| `ReadyWords.TwoLevelLookup` | stm32f401-st-nucleo/rt-thread/src/scheduler.c:170-173 | (number << 3) + __rt_ffs(table[number]) - 1 with number = __rt_ffs(group) - 1 is the best priority. |
| `ReadyBits.HighestIsBest` | stm32f401-st-nucleo/rt-thread/src/scheduler.c:162-184 | The lookup on bit sets returns the least priority number whose bit is set. |
| `ReadyBits.SetBitContains` | stm32f401-st-nucleo/rt-thread/src/scheduler.c:733-737 | Setting the stored masks marks exactly that priority, in both forms. |
| `ReadyBits.ClearBitContains` | stm32f401-st-nucleo/rt-thread/src/scheduler.c:820-832 | Clearing unmarks exactly that priority and the group bit with the last of its eight. |
| `Scheduler.Enqueued` | stm32f401-st-nucleo/rt-thread/src/scheduler.c:708-743 | Insertion keeps: bit set iff queue non-empty, each ready thread in its own queue only. |
| `Scheduler.Dequeued` | stm32f401-st-nucleo/rt-thread/src/scheduler.c:805-836 | Removal keeps the same. |
| `Scheduler.InsertQueuedIff` | stm32f401-st-nucleo/rt-thread/src/scheduler.c:708-743 | Insertion keeps bits and queues in agreement if and only if the thread is not READY already. |
| `Scheduler.UnlinkQueuedIff` | stm32f401-st-nucleo/rt-thread/src/thread.c:783-791 | Unlinking, with or without clearing the bit, keeps them in agreement if and only if the thread is not READY; then it changes no queue. |
| `Scheduler.ScheduleInv` | stm32f401-st-nucleo/rt-thread/src/scheduler.c:418-538 | rt_schedule keeps queues, bits and states in agreement. |
| `Scheduler.ScheduleRunsBest` | stm32f401-st-nucleo/rt-thread/src/scheduler.c:418-538 | With the scheduler unlocked, afterwards the current thread runs if anything could, and no ready thread is strictly better. |
| `Scheduler.YieldGivesWayIff` | stm32f401-st-nucleo/rt-thread/src/thread.c:473-478 | Yielding gives way exactly to a more urgent ready thread, or to an equally urgent one if the time slice has been reloaded since the last switch. |
| `SchedulerRuns.StartupInv` | stm32f401-st-nucleo/rt-thread/src/thread.c:289-321 | Starting a thread keeps the invariant. |
| `SchedulerRuns.StartupMarkInv` | stm32f401-st-nucleo/rt-thread/src/thread.c:296-312 | So does the part of it before the thread is resumed. |
| `SchedulerRuns.SuspendInv` | stm32f401-st-nucleo/rt-thread/src/thread.c:715-754 | Suspending keeps it. |
| `SchedulerRuns.SuspendRegionInv` | stm32f401-st-nucleo/rt-thread/src/thread.c:732-747 | The region of rt_thread_suspend keeps it whatever has happened since the test in front of it. |
| `SchedulerRuns.ResumeInv` | stm32f401-st-nucleo/rt-thread/src/thread.c:764-800 | Resuming with interrupts disabled keeps it, also for the current thread. |
| `SchedulerRuns.ResumeTestInv` | stm32f401-st-nucleo/rt-thread/src/thread.c:774-780 | Resuming with interrupts enabled: the test keeps it. |
| `SchedulerRuns.ResumeUnlinkInvIff` | stm32f401-st-nucleo/rt-thread/src/thread.c:783-791 | The first region keeps it if and only if nobody has made the thread READY since the test. |
| `SchedulerRuns.ResumeInsertInvIff` | stm32f401-st-nucleo/rt-thread/src/thread.c:794-794 | The insertion keeps it if and only if nobody has made the thread READY since the first region. |
| `SchedulerRuns.LostAndFound` | stm32f401-st-nucleo/rt-thread/src/thread.c:774-794 | Unlinked while READY, the thread is in no queue; if it was alone, its bit stays set over an empty queue; the insertion, if it comes next, puts everything right again. |
| `SchedulerRuns.TimeoutWhileResumed` | stm32f401-st-nucleo/rt-thread/src/thread.c:774-829 | A time-out between the test and the first region of a more urgent thread that resumes the waiter: the region breaks the invariant. |
| `SchedulerRuns.DoubleResume` | stm32f401-st-nucleo/rt-thread/src/thread.c:774-794 | Two contexts that both pass the test and the first region: the second insertion puts the thread into its queue twice. |
| `SchedulerRuns.StepInvIff` | stm32f401-st-nucleo/rt-thread/src/scheduler.c:418-836 | A step keeps the invariant if and only if it does not unlink, insert or mark a READY thread in the course of an interrupted resume or closing. |
| `SchedulerRuns.RunInvIff` | stm32f401-st-nucleo/rt-thread/src/scheduler.c:418-836 | Over every run: the invariant holds up to step k if and only if none of the first k steps does so. |
| `SchedulerRuns.ChangePriorityInv` | stm32f401-st-nucleo/rt-thread/src/thread.c:630-671 | Changing a priority keeps it, in any thread state. |
| `SchedulerRuns.CloseInv` | stm32f401-st-nucleo/rt-thread/src/thread.c:332-460 | Detaching or deleting without a break keeps it. |
| `SchedulerRuns.CloseUnlinkInvIff` | stm32f401-st-nucleo/rt-thread/src/thread.c:341-345 | With interrupts enabled the removal alone keeps it if and only if the thread is not READY. |
| `SchedulerRuns.CloseMarkInvIff` | stm32f401-st-nucleo/rt-thread/src/thread.c:350-351 | The later write of the closed state keeps it if and only if nobody has made the thread READY. |
| `SchedulerRuns.ClosedInParts` | stm32f401-st-nucleo/rt-thread/src/thread.c:341-351 | Both together close the thread as in one step, whatever its state. |
| `SchedulerRuns.RunInv` | stm32f401-st-nucleo/rt-thread/src/scheduler.c:418-836 | In runs without resumes and closings split by an interrupt the invariant holds in every state reachable from reset, by start-up, suspend, resume, time-out, priority change, scheduling, closing, locking and ticks. |
| `SchedulerRuns.InvMeans` | stm32f401-st-nucleo/rt-thread/src/scheduler.c:708-836 | Bit set iff queue non-empty; a thread is in queue p iff READY at priority p; RUNNING only the current thread, which is in no queue. |
| `SchedulerCalls.StartupMeans` | stm32f401-st-nucleo/rt-thread/src/thread.c:289-312 | A started thread is READY at the end of the queue of its first priority. |
| `SchedulerCalls.SuspendMeans` | stm32f401-st-nucleo/rt-thread/src/thread.c:715-754 | READY and RUNNING threads are SUSPENDED afterwards and in no queue; for others nothing changes. |
| `SchedulerCalls.SuspendRegionMeans` | stm32f401-st-nucleo/rt-thread/src/thread.c:732-747 | So does the region whatever the state of the thread by then. |
| `SchedulerCalls.ResumeMeans` | stm32f401-st-nucleo/rt-thread/src/thread.c:764-800 | A suspended thread is READY at the end of the queue of its priority, the current one just RUNNING; for others nothing changes. |
| `SchedulerCalls.ResumeInsertMeans` | stm32f401-st-nucleo/rt-thread/src/thread.c:794-794 | The late insertion does the same if nobody has made the thread READY meanwhile. |
| `SchedulerCalls.ChangePriorityMeans` | stm32f401-st-nucleo/rt-thread/src/thread.c:630-671 | The thread has the new priority and its masks and is otherwise as before; if READY, it is the last of the new queue and in no other, and the bit is set. All other threads are as and where they were. |
| `SchedulerCalls.CloseMeans` | stm32f401-st-nucleo/rt-thread/src/thread.c:332-460 | A closed thread is in no queue; all other threads are as and where they were. |
| `SchedulerCalls.CloseMarkMeans` | stm32f401-st-nucleo/rt-thread/src/thread.c:350-351 | The late write of the closed state touches nothing else. |
| `SchedulerCalls.ExitMeans` | stm32f401-st-nucleo/rt-thread/src/thread.c:80-116 | A thread that exits is closed and in no queue. |
| `SchedulerCalls.CountDownMeans` | stm32f401-st-nucleo/rt-thread/src/clock.c:83-92 | One tick less; at the end of the slice a whole new one begins and the thread is to yield. |
| `SchedulerCalls.ScheduleMeans` | stm32f401-st-nucleo/rt-thread/src/scheduler.c:418-538 | The running thread goes on with nothing changed, or the head of the best queue runs and a thread that gives way is READY at the end of its queue, with its yield flag cleared; nothing else changes. |
| `SchedulerCalls.BeginMeans` | stm32f401-st-nucleo/rt-thread/src/scheduler.c:246-262 | The head of the best queue is the first to run. |
| `SchedulerCalls.CriticalMeans` | stm32f401-st-nucleo/rt-thread/src/scheduler.c:878-968 | The nesting counts up and down to zero; only at zero anything else happens. |
| `SchedulerCalls.CanRunNow` | stm32f401-st-nucleo/rt-thread/src/thread.c:289-829 | A thread that is started or whose wait times out is READY or RUNNING afterwards. |
| `SchedulerCalls.StepRunsBest` | stm32f401-st-nucleo/rt-thread/src/scheduler.c:418-538 | Every call that ends with rt_schedule leaves the best thread running, if the scheduler is unlocked. |
| `RoundRobin.ScheduleWait` | stm32f401-st-nucleo/rt-thread/src/scheduler.c:439-471 | A switch brings a waiting thread nearer by all that the current thread had left. |
| `RoundRobin.TickWait` | stm32f401-st-nucleo/rt-thread/src/clock.c:72-96 | Each tick brings it nearer by at least one tick. |
| `RoundRobin.StepWait` | stm32f401-st-nucleo/rt-thread/src/scheduler.c:418-836 | No step without better-priority arrivals puts its turn off. |
| `RoundRobin.BoundedWait` | stm32f401-st-nucleo/rt-thread/src/clock.c:72-96 | In every such run a ready thread at the running priority becomes current within the sum of the time slices of the current thread and of those in front of it. |
| `SchedulerObject.Kernel.InsertThread` | stm32f401-st-nucleo/rt-thread/src/scheduler.c:708-743 | The in-place insertion with stored masks on the words, both forms of the bitmap. |
| `SchedulerObject.Kernel.RemoveThread` | stm32f401-st-nucleo/rt-thread/src/scheduler.c:805-836 | The in-place removal. |
| `SchedulerObject.Kernel.HighestReady` | stm32f401-st-nucleo/rt-thread/src/scheduler.c:162-184 | The lookup with __rt_ffs on the words returns the least priority with a non-empty queue. |
| `SchedulerObject.Kernel.Reschedule` | stm32f401-st-nucleo/rt-thread/src/scheduler.c:418-538 | The in-place switch computes the specified step. |
| `SchedulerObject.Kernel.StartThread` | stm32f401-st-nucleo/rt-thread/src/thread.c:289-321 | The in-place start-up: the thread can run at its first priority, and the best thread does. |
| `SchedulerObject.Kernel.SuspendThread` | stm32f401-st-nucleo/rt-thread/src/thread.c:715-754 | Succeeds exactly for READY and RUNNING threads, which are then SUSPENDED and in no queue. |
| `SchedulerObject.Kernel.ResumeThread` | stm32f401-st-nucleo/rt-thread/src/thread.c:764-800 | With interrupts disabled: succeeds exactly for suspended threads, which are then READY at the end of their queue. |
| `SchedulerObject.Kernel.TestResume` | stm32f401-st-nucleo/rt-thread/src/thread.c:774-780 | The test: succeeds exactly for suspended threads and changes nothing the scheduler looks at. |
| `SchedulerObject.Kernel.UnlinkResume` | stm32f401-st-nucleo/rt-thread/src/thread.c:783-791 | The first region, which keeps the invariant exactly when the thread is not READY. |
| `SchedulerObject.Kernel.FinishResume` | stm32f401-st-nucleo/rt-thread/src/thread.c:794-794 | The insertion afterwards, which keeps the invariant exactly when the thread is not READY. |
| `SchedulerObject.Kernel.TimeoutThread` | stm32f401-st-nucleo/rt-thread/src/thread.c:807-829 | The in-place time-out: the thread can run, and the best thread does. |
| `SchedulerObject.Kernel.SetPriority` | stm32f401-st-nucleo/rt-thread/src/thread.c:630-671 | The in-place change of priority: record, queue and bit of the thread, and nothing else. |
| `SchedulerObject.Kernel.ExitCritical` | stm32f401-st-nucleo/rt-thread/src/scheduler.c:940-968 | Unlocking counts down, and schedules when the nesting reaches zero. |
| `SchedulerObject.Kernel.TickIncrease` | stm32f401-st-nucleo/rt-thread/src/clock.c:72-96 | The time slice and its reload; at the end of the slice the best thread runs. |

## Left out

- Threads blocked on an object are not deleted, detached or resumed from outside; detaching and deleting the objects themselves is not modelled.
- The priority used to find a place in a PRIO wait list is an input of each step, except for mutexes, where it is part of the state.
- Time-outs: a waiting call may time out at any moment; the remaining time that the code recomputes after a wake-up is not modelled.
- The theorems about semaphores, mutexes, event sets, mailboxes, message queues and pools take a suspended caller to stay suspended until it is resumed. A waiting call made with the scheduler locked is not modelled: `rt_schedule` returns at once, and `rt_sem_take` or `rt_mutex_take` reports success without a unit or ownership.
- Event sets are sets of bit numbers; the received bits are handed over when the sender resumes the thread.
- The heap locks of `mem.c`, `memheap.c` and `slab.c` are taken as serialising whole calls, also where `slab.c` releases the lock around the page allocator.
- SmallMemObject.SmallHeap.Malloc: header words are kept apart from payload bytes; writing a header replaces the twelve bytes it occupies. Areas with less than the minimum between the two end headers are excluded, where the source computes with wrapped sizes.
- SmallMemObject.SmallHeap.Free: a pointer into the heap is the payload of a block in use, as the assertions of the source demand.
- MemHeapObject.Heap.Realloc: does not model the bytes moved by the copy, only the blocks; the copy itself is `MemCopy.MemCopy`. For the sizes that wrap it promises the returned pointer, the broken link and the count, and neither an ordered heap nor unchanged blocks; that the new header also overwrites words of the old one and of the payload is not modelled.
- MemHeapObject.Heap.constructor: needs room for the two headers, which the source does not check, and an area within the 32-bit address space.
- MemPool.Blocks.constructor: needs room for at least one block, because the source always writes a last link.
- SlabObject.SlabHeap.Malloc: sizes whose page alignment wraps around 32 bits are not modelled; a chunk on a free list is named by its number instead of its address.
- SlabRuns.ReallocSound: says how many bytes are copied, not which; the copy itself is `MemCopy.MemCopy`.
- SlabObject.SlabHeap.Realloc: reports how many bytes are copied but not the bytes.
- TimerRuns.RunInvIff: a late insertion is modelled for a single row; with more rows only timers comparable with the pending ones are inserted. A timer that rt_timer_stop has removed counts as inactive at once; the later write to the flag is a step of its own.
- TimerObject.TimerList.Check: timer functions leave the timers alone and take no tick; what a function that restarts its own timer does is in `TimerChecks`.
- The soft timer thread, `rt_timer_detach`, `rt_timer_delete` and `rt_thread_delay_until`.
- SchedulerRuns.RunInvIff: says nothing about the steps after the first unsafe one; `SchedulerRuns.LostAndFound` and `SchedulerRuns.ClosedInParts` say what the very next part of the call restores. The thread timers that suspend and resume also stop are not part of the scheduler state.
- SchedulerRuns.ChangePriorityInv: the new priority is below the maximum, which the source does not check before it indexes its tables with it.
- SchedulerCalls.CriticalMeans: the nesting is not bounded by the 16 bits of the counter.
- RoundRobin.BoundedWait: time slices are at least one tick; a thread with slice 0 would count down from the greatest number.
- ReadyBits.FfsIsLow: the table of 256 entries is written as its sixteen rows, which differ only in their first entry.
- Signals, SMP, stack checks, context switches, hooks, debug output, object names and reference counts.
- `rt_tick_from_millisecond`, `rt_calloc`, list formatting and string helpers: they would only add easy members.
- Device drivers, board support, start-up, and the application.
