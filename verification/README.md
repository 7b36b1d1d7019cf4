# Models of the firmware's kernel services and Ethernet bridge, with proofs

Dafny models of four stateful parts of the firmware and proofs of what they promise. Each
operation is a function on a state value, with lemmas about it and about all runs of such
operations; where the source changes state in place there is also a class whose methods follow
the source step by step and end in the state the function gives.

* **Small-memory heap** (`rt-thread/src/mem.c`). `SmallMemModel` has the block list and what one
  change does to it, `SmallMemCalls` alloc, free and realloc on block lists and all runs of them,
  `SmallMem` the headers threaded through one region, with hint, counters and payload bytes.
  RT_ALIGN_SIZE, SIZEOF_STRUCT_MEM and MIN_SIZE are symbolic; sizes are 32 bits wide and
  RT_ALIGN wraps as it does there (`Align`).
* **IPC** (`rt-thread/src/ipc.c`). `WaitList` and `PrioOrder`: the suspend lists on
  `rt-thread/include/rtservice.h`. `MutexModel`, `MutexCalls`, `MutexInheritance`,
  `MutexDeadlocks`, `Mutex`: priority inheritance over the graph of threads and mutexes, with and
  without deadlocks. `Semaphore`, `Event`, `Mailbox`.
  `MessageNodes`, `MessageQueue`, `MessageRuns`: the message queue, which unlocks while it
  copies, with its critical sections as separate steps.
* **Lock-free list and block pool** (`rt-thread/include/rtatomic.h`, `rt-thread/src/mempool.c`).
  `LockFreeList` interleaves single loads, stores and compare-exchanges; `MemPool` is the
  intrusive free list. `Chains`, `Seqs`, `Rings`, `Octets` and `Options` are shared vocabulary.
* **Ethernet bridge** (`applications/backends/eth_backend.c`). `EthTx` and `EthTxCallbacks`: transmit ring and
  completions under transport resets. `EthRx` and `EthRxDrain`: receive ring and drain under backpressure.
  `EthCredit`: the credit flag and its semaphore. `EthWorker`: the worker thread around both.
  The DMA's steps are part of the models.

The scheduler's functions are represented by their declared roles
(`rt-thread/include/rtsched.h:127-139`): a priority change sets the priority, making a thread
ready takes it off its list unless its timeout has fired (`late`, `ready`). Answers of the core, of
the DMA, of the scheduler and of the clock are parameters of the steps, so the statements hold for
all of them.

Where a promise is not kept on every input, the exact condition is proved, with a failing input
beside it:

* RT_ALIGN wraps for sizes above 2^32 - align: `AllocLargeEnoughIff` (`WrappedAlloc`),
  `ReallocNullKeepsHeapIff` (`WrappedRealloc`), `NodeHoldsMessageIff` (`NodeTooSmall`), `BlocksFit` (`BlockTooSmall`).
* The comment at `rt-thread/src/mem.c:293` says that every data block has at least
  MIN_SIZE_ALIGNED bytes; realloc does not keep to it, and the model follows the code:
  `MinimumKeptIff` (`ShrunkBelowMinimum`).
* Exact priority inheritance: for states `InheritanceIff`, for a call `StepInheritsIff`, for runs
  `InheritanceInRunsIff` (`DeadlockKeepsBoost`). A deadlock alone does not break it; a timeout that
  takes away the only way from a deadlock to the origin of its priority does. `StepCycle` says
  which calls make a deadlock.
* Linearizability of the lock-free list: `LinearizableIff` (`TwoDequeuersFail`); with several
  dequeuers, `Linearizable` for the runs that enqueue no node a dequeuer still holds.
* Events, when `rt_sched_thread_ready` fails: `SendDeliversIff`, `LostBitIff` (`LostEvent`) and `ResetExact`.
* Coming alive with descriptors in the hands of the DMA: `AliveSafeIff` (`AliveTooEarly`).

`dafny verify dfyconfig.toml` checks the project.

## Model

| member | source | states |
|---|---|---|
| Align.RtAlignIsCeiling | rt-thread/include/rtdef.h:257 | Without wrap-around RT_ALIGN gives the least multiple of the alignment that is not below its argument: in [n, n + align) |
| Align.RtAlignWraps | rt-thread/include/rtdef.h:257 | For every size above 2^32 - align RT_ALIGN gives zero |
| Align.RtAlignAligned | rt-thread/include/rtdef.h:257-267 | RT_ALIGN and RT_ALIGN_DOWN give multiples of the alignment |
| SmallMemCalls.LayoutFits | rt-thread/src/mem.c:183-201 | When the address computation of `rt_smem_init` succeeds its subtraction has not wrapped; the heap starts at an aligned address behind the aligned control structure, ends with both headers inside the memory given, and its end offset is aligned |
| SmallMemCalls.LayoutIff | rt-thread/src/mem.c:183-201 | The heap reaches from the least aligned address behind the control structure to two headers below the greatest aligned address in the memory given; initialisation fails exactly when these two headers do not fit |
| SmallMem.SmallMem.constructor | rt-thread/src/mem.c:203-238 | A new heap is one free block over the whole region with nothing used |
| SmallMemModel.OccupyKeeps | rt-thread/src/mem.c:315-364 | Taking a fitting free block, split or not, keeps tiling and separation of free blocks, adds exactly that block to the live ones and its extent to the used bytes |
| SmallMemModel.ReleaseKeeps | rt-thread/src/mem.c:528-543 | Freeing any used block and merging with both neighbours keeps tiling, leaves no two neighbouring free blocks, removes exactly that block and its extent |
| SmallMemModel.ShrinkKeeps | rt-thread/src/mem.c:454-482 | Cutting a used block in place and merging the rest keeps all of this; the counter drops by the bytes given back |
| SmallMemModel.FirstFitUnique | rt-thread/src/mem.c:304-316 | First fit is the one lowest free block of the whole heap whose payload is large enough, or none |
| SmallMem.SmallMem.Search | rt-thread/src/mem.c:304-316 | The search from `lfree` to `mem_size_aligned - size` finds exactly what plain first fit over the whole heap finds; it ends and no subtraction underflows |
| SmallMem.NothingFitsFrom | rt-thread/src/mem.c:304-306 | No block at or beyond the stopping point of the search can hold the request |
| SmallMem.SmallMem.PlugHoles | rt-thread/src/mem.c:124-162 | Merges with a free successor and a free predecessor, repairing `next`, `prev` and `lfree`, and writes no byte of a live payload |
| SmallMem.SmallMem.Split | rt-thread/src/mem.c:328-345 | The header written for the remainder and the relinking hold the cut block list, leave the stale `prev` of `heap_end` alone and write no byte of a live payload |
| SmallMem.SmallMem.AdvanceHint | rt-thread/src/mem.c:372-379 | After its block is taken the hint moves to the lowest free block or `heap_end` |
| SmallMem.SmallMem.Alloc | rt-thread/src/mem.c:276-394 | On linked headers: the resulting blocks and address are those of first fit, links, hint and counters stay right, `max` is the running maximum of `used`, and every live payload keeps its bytes |
| SmallMemCalls.AllocCorrect | rt-thread/src/mem.c:276-394 | A successful allocation adds one live block not live before, at least as large as the size searched for, and leaves all other live blocks; a failed one changes nothing |
| SmallMemCalls.AllocNullIff | rt-thread/src/mem.c:297-316 | NULL exactly for a request of zero or when every free block of the whole heap is too small |
| SmallMemCalls.AllocExact | rt-thread/src/mem.c:304-370 | A successful allocation returns the lowest free block with room; if the rest can hold a header and a minimal payload the block has exactly the size searched for and a free block reaches from its end to the old end, otherwise it has all of the old payload |
| SmallMemCalls.AllocLargeEnoughIff | rt-thread/src/mem.c:290-295 | The block returned is as large as the caller asked for exactly when RT_ALIGN did not wrap on the size |
| SmallMemCalls.WrappedAlloc | rt-thread/src/mem.c:290-295 | Every size for which RT_ALIGN wraps is given a block in every empty heap that has room for a minimal one |
| SmallMem.SmallMem.Free | rt-thread/src/mem.c:502-544 | On linked headers: exactly the block is released and merged, the hint is again the lowest free block, `used` drops by its extent, live payloads keep their bytes |
| SmallMemCalls.FreeCorrect | rt-thread/src/mem.c:502-544 | Freeing a live block removes it and nothing else from the live blocks and its extent from the used bytes |
| SmallMemCalls.AllocFreeRoundTrip | rt-thread/src/mem.c:276-544 | Freeing the block just allocated restores the block list exactly |
| SmallMemCalls.LiveDisjoint | rt-thread/src/mem.c:318-370 | Different live blocks do not overlap and lie inside the heap |
| SmallMemCalls.FullCoalescing | rt-thread/src/mem.c:534-543 | Nothing is live exactly when the heap is the single initial free block, and then no byte is used |
| SmallMemCalls.OthersStayLive | rt-thread/src/mem.c:276-394 | An allocation moves and resizes no live block and does not return the address of one |
| SmallMem.SmallMem.Realloc | rt-thread/src/mem.c:408-493 | On linked headers: blocks and result are those of the function below, all blocks live before and after keep their bytes, the result begins with the first min(old, new) bytes of the old block, and `max` accounts for the block that moves being there twice |
| SmallMemCalls.ReallocCorrect | rt-thread/src/mem.c:408-493 | The result is live and at least the aligned size, every other live block is as before; NULL for a nonzero aligned size leaves the heap unchanged; an aligned size of zero frees the block |
| SmallMemCalls.ReallocIff | rt-thread/src/mem.c:421-492 | For a live block and a size neither zero nor beyond the heap: the block unchanged if the payload is that size; the same address with exactly that size if the rest is worth cutting off; otherwise a move to the lowest free block with room, split as an allocation is, the old block no longer live; NULL, with the heap unchanged, exactly when there is no such block. In a move the peak counts both blocks |
| SmallMemCalls.ReallocFresh | rt-thread/src/mem.c:436-437 | With no block given: the lowest free block with room, split as an allocation is; NULL exactly without one |
| SmallMemCalls.ReallocInPlace | rt-thread/src/mem.c:454-482 | A shrink in place keeps the address and leaves exactly the aligned size |
| SmallMemCalls.ReallocMoves | rt-thread/src/mem.c:484-492 | A move allocates, then frees the old block, and touches no third block |
| SmallMemCalls.ReallocNullKeepsHeapIff | rt-thread/src/mem.c:421-434 | For a nonzero size a NULL result leaves the heap unchanged exactly when RT_ALIGN did not wrap; beyond that point the block is freed |
| SmallMemCalls.WrappedRealloc | rt-thread/src/mem.c:421-434 | Every size for which RT_ALIGN wraps makes realloc free the block and return NULL |
| SmallMemCalls.MinimumKeptIff | rt-thread/src/mem.c:421-456 | realloc keeps every live payload at MIN_SIZE_ALIGNED or more exactly when it does not shrink a block in place below that; the comment at line 293 is not an invariant |
| SmallMemCalls.ShrunkBelowMinimum | rt-thread/src/mem.c:421-456 | A realloc to one byte that leaves a live payload below MIN_SIZE_ALIGNED, in a heap of any size that holds one block |
| SmallMemCalls.FirmwareMinimum | rt-thread/src/mem.c:421-456 | With the constants of this build one byte is aligned to 8, below the MIN_SIZE_ALIGNED of 16 |
| SmallMemCalls.RunAligned | rt-thread/src/mem.c:276-544 | After every sequence of alloc, free and realloc calls on live blocks the heap is well formed and every live payload is aligned and at least RT_ALIGN_SIZE long |
| WaitList.InsertBefore | rt-thread/include/rtservice.h:76-83 | The node goes in front of the given one in a doubly linked ring, and nothing else changes in the order |
| WaitList.InsertAfter | rt-thread/include/rtservice.h:61-68 | The node goes behind the given one |
| WaitList.Remove | rt-thread/include/rtservice.h:89-95 | The node leaves the ring, the rest stays linked both ways, and the node is an empty list of its own |
| WaitList.Length | rt-thread/include/rtservice.h:110-121 | The number of nodes besides the head |
| WaitList.Enqueue | rt-thread/src/ipc.c:241-285 | FIFO: behind the last node; priority: before the first node with a strictly larger priority number |
| WaitList.Dequeue | rt-thread/src/ipc.c:105-140 | The first node leaves the ring if its thread can be made ready; otherwise the list stays |
| WaitList.EnqueueSorted | rt-thread/src/ipc.c:251-278 | On a sorted list of nodes an insertion by priority keeps it sorted with first-in first-out order among equals |
| PrioOrder.SlotKeepsSorted | rt-thread/src/ipc.c:251-278 | The same on priorities: exactly the threads of smaller or equal number stay in front |
| PrioOrder.EnlistedOrder | rt-thread/src/ipc.c:241-285 | A newcomer goes to the end of a FIFO list, and in a sorted list behind everyone of its priority or a higher one and in front of the others, who keep their order |
| MutexModel.MinPrioIsMin | rt-thread/src/ipc.c:846-866 | `_thread_get_mutex_priority` is the minimum of the initial priority and the priorities of the taken mutexes |
| MutexModel.EnqueueKeeps | rt-thread/src/ipc.c:251-278 | A waiter inserted into a sorted wait list keeps it sorted; the mutex priority becomes the smaller of head and newcomer |
| MutexModel.EnqueueOrder | rt-thread/src/ipc.c:249-278 | A waiter joins behind everyone of its priority or a higher one, and the others keep their order |
| MutexModel.FixKeeps | rt-thread/src/ipc.c:884-914 | One round of the propagation loop repairs the thread, its wait list and its mutex and leaves at most one thread out of date: the owner of that mutex |
| MutexModel.FixMoves | rt-thread/src/ipc.c:884-914 | The priority due to that owner moves in the same direction as the priority just changed |
| MutexModel.MeasureShrinks | rt-thread/src/ipc.c:884-914 | Each further round lowers the distance of the sum of all priorities to its bound in that direction, on every state with the invariant, deadlocked or not |
| MutexModel.Settle | rt-thread/src/ipc.c:869-921 | Propagation from one out-of-date thread ends and restores the invariant everywhere |
| MutexModel.SettleEdges | rt-thread/src/ipc.c:869-921 | Propagation changes no owner, no hold count, no initial priority and nothing about who waits for what |
| MutexCalls.Take | rt-thread/src/ipc.c:1353-1432 | Taking, failing or starting to wait keeps the invariant: consistent waits-for graph, sorted wait lists, mutex priority that of the head, every priority at its local fixpoint |
| MutexCalls.TakeOutcome | rt-thread/src/ipc.c:1353-1432 | Each answer if and only if its case: a free mutex is granted whatever the timeout, the owner counts up to the limit, -RT_ETIMEOUT only without a timeout; a grant changes owner, hold and the taken list only, a wait the pending mutex, any other answer nothing |
| MutexCalls.Drop | rt-thread/src/ipc.c:1079-1141 | Leaving a wait list, as `rt_mutex_drop_thread` and a timed-out wait do, keeps the invariant |
| MutexCalls.Release | rt-thread/src/ipc.c:1622-1728 | Releasing keeps the invariant, also at the hand-off |
| MutexCalls.ReleaseHandsOver | rt-thread/src/ipc.c:1644-1728 | The last release gives the mutex, held once, to the first waiter whose timeout has not fired; exactly those behind it go on waiting, in order, none with a higher priority; it becomes free only without such a waiter |
| MutexCalls.ReleaseOutcome | rt-thread/src/ipc.c:1622-1728 | -RT_ERROR, with nothing changed, exactly for a caller that is not the owner; a release that is not the last counts down by one and changes nothing else; the last one touches no other mutex, no other thread's priority, and ends the waiting of exactly those that leave the list |
| MutexCalls.DropOutcome | rt-thread/src/ipc.c:1079-1141 | A thread that leaves stops waiting; owners, holds and taken lists stay |
| MutexCalls.HoldBalance | rt-thread/src/ipc.c:1353-1728 | Over every run of take, release and drop the hold count of a mutex plus the releases told RT_EOK equals the takes and hand-offs that granted it; it is free exactly when all grants have been returned |
| MutexCalls.StartInv | rt-thread/src/ipc.c:1008-1033 | Mutexes as `rt_mutex_init` leaves them satisfy the invariant |
| MutexInheritance.InheritsAtLeast | rt-thread/src/ipc.c:846-944 | In every state with the invariant, deadlocked or not, a thread runs at least at the priority of every thread that reaches it through waits-for edges |
| MutexInheritance.InheritanceIff | rt-thread/src/ipc.c:846-944 | In every state with the invariant, deadlocked or not, the current priority of every thread is exactly the minimum of the initial priorities of itself and all threads that reach it, if and only if each thread on a waits-for cycle runs at the initial priority of some thread that reaches it |
| MutexInheritance.Inheritance | rt-thread/src/ipc.c:846-944 | Without a deadlock the current priority of each thread is exactly the minimum of the initial priorities of itself and all threads that reach it |
| MutexInheritance.StepCycle | rt-thread/src/ipc.c:1387-1432 | Of all calls only a blocking take can close a waits-for cycle, and it does so exactly when the owner already waits, through others or not, for the caller |
| MutexInheritance.InheritanceInRuns | rt-thread/src/ipc.c:1079-1730 | After every call of every run of take, release and drop in which no take closed a cycle, every thread runs at exactly its inherited priority |
| MutexDeadlocks.DropInheritsIff | rt-thread/src/ipc.c:1079-1141 | After a timeout all priorities are exact if and only if the thread that gave up did not orphan a deadlock, that is, there is no cycle it was not part of whose priority came only from threads that reach the cycle through it |
| MutexDeadlocks.SettleCycles | rt-thread/src/ipc.c:869-921 | A propagation that lowers priorities changes the priority of no thread on a cycle |
| MutexDeadlocks.TakeInherits | rt-thread/src/ipc.c:1353-1432 | A take keeps all priorities exact, also when it closes a cycle |
| MutexDeadlocks.ReleaseInherits | rt-thread/src/ipc.c:1642-1728 | A release keeps all priorities exact, deadlocks elsewhere or not |
| MutexDeadlocks.StepInheritsIff | rt-thread/src/ipc.c:1079-1730 | From exact priorities a call leads to exact priorities if and only if it is not a timeout that orphans a deadlock |
| MutexDeadlocks.InheritanceInRunsIff | rt-thread/src/ipc.c:1079-1730 | Over every run of take, release and drop, deadlocks included: every thread runs at exactly its inherited priority after every call if and only if no timeout of the run orphaned a deadlock |
| MutexDeadlocks.DeadlockKeepsBoost | rt-thread/src/ipc.c:869-921 | A run of six calls whose last, a timeout, orphans a deadlock: the fixpoint holds and a thread runs at a priority that no thread reaching it has |
| Mutex.Kernel.MutexPriority | rt-thread/src/ipc.c:846-866 | The loop over the taken mutexes computes that minimum |
| Mutex.Kernel.SuspEnqueue | rt-thread/src/ipc.c:249-278 | The insertion loop puts the thread where the specification does |
| Mutex.Kernel.UpdatePriority | rt-thread/src/ipc.c:869-921 | The propagation loop on mutable state ends in the settled state |
| Mutex.Kernel.Take | rt-thread/src/ipc.c:1353-1432 | The code path of `rt_mutex_take` ends in the state and result of MutexCalls.Take |
| Mutex.Kernel.Block | rt-thread/src/ipc.c:1402-1432 | Updating the owner only when the newcomer is the new minimum and above the owner loses nothing |
| Mutex.Kernel.Drop | rt-thread/src/ipc.c:1079-1141 | Updating the owner only when it runs at the leaver's priority loses nothing |
| Mutex.Kernel.CheckAndUpdatePrio | rt-thread/src/ipc.c:923-944 | Recomputing the owner only when it runs at the mutex priority loses nothing |
| Mutex.Kernel.Release | rt-thread/src/ipc.c:1622-1728 | The code path of `rt_mutex_release` ends in the state and result of MutexCalls.Release |
| Mutex.Kernel.WakeFirst | rt-thread/src/ipc.c:1659-1681 | The wake-up loop skips late waiters and stops at the first that can be made ready |
| Semaphore.Balance | rt-thread/src/ipc.c:558-742 | Over every run the count is the initial one plus the releases that returned OK, less the takes granted and the releases spent on a waiter whose timeout had just fired; it keeps to its limit, and threads wait only at zero |
| Semaphore.TakeOutcome | rt-thread/src/ipc.c:558-643 | Each answer if and only if its case: a positive count is granted whatever the timeout; a caller left waiting stands at its place in the list |
| Semaphore.ReleaseOutcome | rt-thread/src/ipc.c:696-742 | The first waiter is resumed if it can be made ready; the count goes up exactly without waiters and below the limit, -RT_EFULL exactly at the limit without waiters |
| Semaphore.RunSorted | rt-thread/src/ipc.c:241-285 | Over every run a priority wait list stays sorted |
| Semaphore.Sem.Take | rt-thread/src/ipc.c:558-643 | State and result of `rt_sem_take` up to its wait |
| Semaphore.Sem.Release | rt-thread/src/ipc.c:696-742 | State, resumed thread and result of `rt_sem_release`; -RT_EFULL only at the limit |
| Event.SendExact | rt-thread/src/ipc.c:1986-2081 | Between operations a send never returns -RT_EINVAL; of the waiters satisfied by the old set with the sent bits, all judged on that one set, it resumes exactly those whose timeout has not fired, each with at least one bit; it leaves exactly the bits that no satisfied CLEAR waiter, late or not, asked for; afterwards only late threads are satisfied and still wait |
| Event.InListOrder | rt-thread/src/ipc.c:2015-2067 | A send resumes, and keeps, the waiters in list order, each once, with their bits |
| Event.SatisfiedBits | rt-thread/src/ipc.c:2026-2047 | AND waits for all bits asked for, OR for one; AND takes precedence |
| Event.KeptBits | rt-thread/src/ipc.c:2033-2041 | A waiter that stays has lost from its event_set the bits an OR has not found set; otherwise it is as before |
| Event.SendDeliversIff | rt-thread/src/ipc.c:2051-2072 | A send resumes exactly the satisfied waiters and clears exactly what resumed CLEAR waiters received if and only if no satisfied waiter is one whose timeout has fired; the result of `rt_sched_thread_ready` is ignored there |
| Event.LostBitIff | rt-thread/src/ipc.c:2051-2072 | A set bit is cleared without a resumed CLEAR waiter having received it if and only if CLEAR waiters took it and all of them are late |
| Event.LostEvent | rt-thread/src/ipc.c:2051-2072 | One late OR and CLEAR waiter: the send resumes nobody and its bit is gone |
| Event.RecvExact | rt-thread/src/ipc.c:2136-2206 | A receive succeeds at once exactly when the set satisfies it, gets its bits, clears exactly those with the CLEAR option, and otherwise changes the set not at all |
| Event.RecvOutcome | rt-thread/src/ipc.c:2136-2206 | Each answer if and only if its case: an unsatisfied receiver with a timeout waits, at its place in the list, unless it cannot be suspended; -RT_ETIMEOUT only without a timeout |
| Event.RunCalm | rt-thread/src/ipc.c:1986-2312 | After every run of sends, receives, expiring timers, timeouts and resets a waiter is satisfied by the event set only if its own timeout has fired; with no such thread nobody waits for what has happened |
| Event.ResetExact | rt-thread/src/ipc.c:2298-2312 | A reset empties the set, and the wait list exactly when no waiter is late; afterwards no waiter is satisfied |
| Event.EventObject.Resume | rt-thread/src/ipc.c:2015-2067 | The scan of the wait list resumes, keeps and collects bits as specified, up to the first waiter with neither AND nor OR; a satisfied waiter that cannot be made ready stays, with its event_set overwritten and its bits collected |
| Event.EventObject.Send | rt-thread/src/ipc.c:1986-2081 | The code path of `rt_event_send`, including the -RT_EINVAL exit, ends in the specified state |
| Event.EventObject.Recv | rt-thread/src/ipc.c:2136-2206 | The code path of `rt_event_recv` up to its first return or its wait |
| Event.EventObject.Reset | rt-thread/src/ipc.c:2298-2312 | Reset empties the set and resumes the waiters in front of the first that cannot be made ready |
| Mailbox.Box.constructor | rt-thread/src/ipc.c:2366-2396 | An empty box; the size is cut to 16 bits |
| Mailbox.Box.OffsetsAgree | rt-thread/src/ipc.c:2684-2700 | At all times in_offset == (out_offset + entry) mod size |
| Mailbox.Box.Send | rt-thread/src/ipc.c:2610-2700 | Appends unless full; the overflow return behind the store is never taken |
| Mailbox.Box.Urgent | rt-thread/src/ipc.c:2792-2836 | Prepends unless full |
| Mailbox.Box.Recv | rt-thread/src/ipc.c:2890-2977 | Removes the first mail unless empty |
| Mailbox.Box.Reset | rt-thread/src/ipc.c:3041-3060 | Empties the box |
| MessageQueue.Queue.Init | rt-thread/src/ipc.c:3141-3175 | All nodes free, last one first; -RT_EINVAL exactly when the number of nodes, cut to 16 bits, is zero |
| MessageQueue.NodeHoldsMessageIff | rt-thread/src/ipc.c:3144-3147 | A node has room for the largest accepted message exactly when RT_ALIGN did not wrap on the message size |
| MessageQueue.NodeTooSmall | rt-thread/src/ipc.c:3144-3147 | For every message size for which RT_ALIGN wraps nodes have no payload, and messages of more bytes are accepted |
| MessageQueue.Queue.SendReserve | rt-thread/src/ipc.c:3425-3514 | The first section of a send: -RT_ERROR exactly above the message size, full exactly without a free node, otherwise the first free node is in the sender's hand |
| MessageQueue.Queue.SendFill | rt-thread/src/ipc.c:3516-3522 | Outside the lock: only the sender's own node changes |
| MessageQueue.Queue.LinkTail | rt-thread/src/ipc.c:3552-3576 | The node becomes the last message; head, tail and entry agree; the overflow return is never taken |
| MessageQueue.Queue.LinkHead | rt-thread/src/ipc.c:3715-3734 | The node becomes the first message; the overflow return is never taken |
| MessageQueue.Queue.RecvUnlink | rt-thread/src/ipc.c:3815-3907 | The first message leaves the list into the receiver's hand; head, tail and entry agree |
| MessageQueue.Queue.RecvCopy | rt-thread/src/ipc.c:3909-3915 | Outside the lock: the first min(length, size) bytes of the message |
| MessageQueue.TruncatedIsPrefix | rt-thread/src/ipc.c:3909-3915 | The copy is the longest beginning of the message that fits the buffer |
| MessageQueue.Queue.RecvRelease | rt-thread/src/ipc.c:3921-3924 | The node becomes the first free one |
| MessageQueue.Queue.Reset | rt-thread/src/ipc.c:4018-4047 | Every message goes to the free list, in reverse; nodes in hands are not touched |
| MessageNodes.NodeCount | rt-thread/src/ipc.c:3436-3924 | Free nodes, messages and nodes in hands add up to the number of nodes |
| MessageRuns.StepKeeps | rt-thread/src/ipc.c:3436-4047 | No critical section of any caller breaks the invariant of all others: each node in exactly one place, each hand its own node with its own bytes, the message list equal to the deque |
| MessageRuns.NodesConserved | rt-thread/src/ipc.c:3436-4047 | In every interleaving of any number of senders, urgent senders, receivers and resets: nodes are conserved, at most one per caller is in flight, a send finds the queue full exactly when deque and hands hold all nodes, and every copy is the deque's message cut to the buffer size |
| MessageRuns.Fifo | rt-thread/src/ipc.c:3436-3924 | In every interleaving without urgent messages and resets the messages fetched are the first ones sent, in order and each once, and all later ones are still in the queue, in order |
| LockFreeList.EnqCasStep | rt-thread/include/rtatomic.h:384-392 | The compare-exchange of an enqueue pushes its node on exactly the list it has linked to, or changes nothing |
| LockFreeList.DeqStep | rt-thread/include/rtatomic.h:394-405 | While no node is enqueued that a dequeuer holds, a successful compare-exchange of any dequeuer removes exactly the head, and what every dequeuer has read of its node stays true |
| LockFreeList.LogOutcome | rt-thread/include/rtatomic.h:384-405 | The history gains a push exactly when the compare-exchange of an enqueue succeeds, a pop exactly when one of a dequeue does, and an empty answer exactly when a dequeuer sees NULL |
| LockFreeList.EnqueueBalance | rt-thread/include/rtatomic.h:384-392 | In every run, with any callers, each node has been pushed as often as its enqueue has begun, less the enqueues still going on: no enqueue returns without its push |
| LockFreeList.DequeueBalance | rt-thread/include/rtatomic.h:394-405 | In every run the dequeues begun are the nodes given out, the NULL answers and the dequeuers still in their loop: each call gets one answer |
| LockFreeList.DeqCasIff | rt-thread/include/rtatomic.h:394-405 | A successful compare-exchange of a dequeuer leaves the list in memory equal to the popped stack if and only if the successor it read is still the head's successor |
| LockFreeList.Linearizable | rt-thread/include/rtatomic.h:379-405 | In every interleaving of the loads, stores and compare-exchanges of any number of enqueuers and dequeuers, a node being enqueued only while it is not in the list and no dequeuer in its loop has seen it: the list in memory is the stack of the calls in the order they took effect; NULL only for an empty list; every node pushed was popped once or is still there |
| LockFreeList.OneDequeuer | rt-thread/include/rtatomic.h:379-405 | The same in every run with at most one dequeuer, where no dequeuer can hold a node outside the list |
| LockFreeList.LinearizableIff | rt-thread/include/rtatomic.h:379-405 | All runs of a set of callers are linearizable if and only if there is at most one dequeuer, or no enqueuer, or at most one node |
| LockFreeList.TwoDequeuersFail | rt-thread/include/rtatomic.h:394-405 | From every start with two nodes, an enqueuer and two dequeuers: a run that enqueues a node a dequeuer holds, after which one node is given out twice for one enqueue |
| MemPool.BlocksFit | rt-thread/src/mempool.c:102-126 | Blocks and their pointers lie one after the other inside the memory given, and each is as large as asked for if and only if RT_ALIGN did not wrap |
| MemPool.BlockTooSmall | rt-thread/src/mempool.c:102-126 | A block size for which RT_ALIGN wraps leaves blocks of no bytes, one for each pointer that fits |
| MemPool.Pool.constructor | rt-thread/src/mempool.c:102-131 | With room for at least one block: all blocks on the free list, in order, and counted |
| MemPool.TakenKeeps | rt-thread/src/mempool.c:346-356 | Allocation takes the head of the free list; the rest is still a chain of distinct blocks of the counted length and every other block names its pool |
| MemPool.ReturnedKeeps | rt-thread/src/mempool.c:382-395 | Freeing an allocated block puts it in front and keeps the partition into free and allocated |
| MemPool.ReturnedWakes | rt-thread/src/mempool.c:395-403 | A free resumes the first waiter exactly if there is one and it can be made ready |
| MemPool.RoundTrip | rt-thread/src/mempool.c:346-395 | Freeing the block just allocated restores every pointer, the list and the count |
| MemPool.Pool.Alloc | rt-thread/src/mempool.c:281-364 | A free count above zero implies a block; NULL or a wait exactly when the list is empty |
| MemPool.Free | rt-thread/src/mempool.c:373-407 | The block goes back to the pool its pointer names, and the first waiter leaves the list if it can be made ready; NULL is ignored |
| EthTx.ArmRing | applications/backends/eth_backend.c:535-562 | Arming the slot at `s_tx_next` extends the DMA-owned range by one and overwrites nothing |
| EthTx.DmaRing | applications/backends/eth_backend.c:46-50 | A transfer by the DMA shortens the range at its front and puts the oldest unsent frame on the wire |
| EthTx.RxOutcome | applications/backends/eth_backend.c:513-563 | A frame is accepted exactly if its length is in range, the link up, the transport alive and the next slot free; otherwise nothing changes |
| EthTx.ScanOutcome | applications/backends/eth_backend.c:233-259 | A look at a slot in flight that the DMA has given back reports its job, with the outcome of that job's transfer, and frees the slot; any other look changes nothing |
| EthTx.DeadOutcome | applications/backends/eth_backend.c:566-577 | When the transport dies every pending job is discarded, nothing is reported, and the DMA goes on owning its buffers |
| EthTx.FlagOutcome | applications/backends/eth_backend.c:466-583 | A link event and transport-alive set their flag and nothing else |
| EthTx.RingOrder | applications/backends/eth_backend.c:46-50 | After every run: DMA-owned descriptors are exactly the cyclic range from the fetch index to `s_tx_next`, frames go out in the order they were accepted, each once, and no owned buffer was overwritten; transport-alive is taken only with all OWN bits clear |
| EthTx.Conservation | applications/backends/eth_backend.c:233-577 | After every run each accepted frame is in flight in one slot, reported once with its own session and channel and with status -1 exactly if its transfer by the DMA failed, or discarded; accepted = reported + discarded + in flight, at most one per slot; while dead no slot is reported |
| EthTx.AliveSafeIff | applications/backends/eth_backend.c:579-583 | Coming alive is safe in all later runs exactly when every OWN bit has cleared; otherwise a run exists that overwrites an owned buffer |
| EthTx.AliveTooEarly | applications/backends/eth_backend.c:566-583 | In every ring, a run in which the transport dies with a frame not yet sent: its OWN bit is set, and coming alive then is not safe |
| EthTxCallbacks.ScanAllKeeps | applications/backends/eth_backend.c:233-259 | A whole completion scan keeps all of this and makes no call while the transport is dead |
| EthTxCallbacks.ScanAllReports | applications/backends/eth_backend.c:233-259 | After a whole scan no slot is in flight that the DMA has given back |
| EthTxCallbacks.Backend.FromCore | applications/backends/eth_backend.c:513-563 | The callback on mutable state: rejected or accepted, and the new state, as specified |
| EthTxCallbacks.Backend.CompleteScan | applications/backends/eth_backend.c:233-259 | The loop over the slots makes exactly the specified completion calls |
| EthTxCallbacks.Backend.TransportDead | applications/backends/eth_backend.c:566-577 | Clears every slot and nothing of the descriptors |
| EthTxCallbacks.Backend.TransportAlive | applications/backends/eth_backend.c:579-583 | Clears the dead flag only |
| EthRx.ReceiveRing | applications/backends/eth_backend.c:308-378 | A received frame extends the CPU-owned range by one |
| EthRx.LookRing | applications/backends/eth_backend.c:326-367 | A round of the drain loop looks at the oldest frame not yet given back; it gives it back, or keeps it for lack of credit and moves nothing |
| EthRx.FitsIff | applications/backends/eth_backend.c:339-342 | With its CRC a frame that may be forwarded has 18 to 1522 bytes, and the core gets all but the last four |
| EthRx.LookOutcome | applications/backends/eth_backend.c:326-367 | The oldest frame is delivered exactly if it is whole, fits, the drain may forward and the core answers OK; kept, with the peer paused as far as the link allows, exactly if the answer is NO_CREDIT instead; otherwise dropped, or counted as an error if it is not whole |
| EthRx.BeginOutcome | applications/backends/eth_backend.c:317-325 | A drain may forward exactly if the transport lives, the session is READY and the link is up when it begins |
| EthRx.FinishOutcome | applications/backends/eth_backend.c:368-376 | A drain that has caught up ends stall and backpressure and resumes a paused peer exactly if the MAC could send the frame |
| EthRx.FlagOutcome | applications/backends/eth_backend.c:465-470 | A link event takes over the link's state; a pause survives only a full-duplex link |
| EthRx.InOrder | applications/backends/eth_backend.c:308-378 | After every run each received frame was given back once, in order, with one outcome, or waits in the ring in order from `s_rx_cur`; the core was sent exactly the delivered payloads; outside a drain, under backpressure or with the DMA stalled, a frame is waiting |
| EthRx.DrainReopens | applications/backends/eth_backend.c:331-336 | In every run, after a drain that has caught up every frame received has been given back, the DMA is not stalled and can receive any frame |
| EthRx.LosslessDelivery | applications/backends/eth_backend.c:308-378 | In every run that stays READY with link up, with valid frames and a core answering OK or NO_CREDIT, the core was sent exactly the first frames received, in order, each once, and all others are retained in order |
| EthRxDrain.DrainKeeps | applications/backends/eth_backend.c:308-378 | The drain loop ends by itself, gives back every frame up to the first without credit, and leaves backpressure set exactly when a frame remains; then the peer is paused if the link allows, otherwise the DMA runs again and the peer is resumed if possible |
| EthRxDrain.Backend.PauseUpstream | applications/backends/eth_backend.c:283-290 | Pausing is remembered exactly on a full-duplex link that is up |
| EthRxDrain.Backend.ResumeUpstream | applications/backends/eth_backend.c:292-295 | The pause is forgotten exactly when the resume frame could be sent |
| EthRxDrain.Backend.Drain | applications/backends/eth_backend.c:308-378 | `eth_rx_drain` on mutable state ends in the specified state, with its two attempts to resume the peer |
| EthCredit.SignalEffect | applications/backends/eth_backend.c:402-409 | Every release leaves a positive count or an awake worker, also when the count is saturated |
| EthCredit.CreditNeverLost | applications/backends/eth_backend.c:380-409 | In every interleaving `s_rx_credit_ready == 1` implies a positive count, a callback between its store and its release, or a worker past its take and before the flag; so the worker never sleeps on a credit unless a callback is about to wake it |
| EthCredit.FullIsPositive | applications/backends/eth_backend.c:402-409 | -RT_EFULL occurs only at a positive count with the worker awake |
| EthCredit.CreditIsTaken | applications/backends/eth_backend.c:380-400 | With a credit stored and no callback in between the worker is not asleep, and each of its steps brings it closer to the flag, where it retries the drain |
| EthWorker.Halves | applications/backends/eth_backend.c:380-400 | Ring and credit under the worker's own condition for draining make runs of EthRx and of EthCredit, so that what holds of all of those holds of both together |
| EthWorker.CallbackOwes | applications/backends/eth_backend.c:402-409 | While a frame is retained, the ready callback's store makes its retry due |
| EthWorker.DrainsIff | applications/backends/eth_backend.c:395-399 | With a frame retained on a live link the worker drains exactly if it has read a credit; in all other cases it always drains |
| EthWorker.LosslessDelivery | applications/backends/eth_backend.c:308-400 | Lossless in-order delivery with the drain called exactly as the worker calls it |
| EthWorker.RetainedIsRetried | applications/backends/eth_backend.c:308-409 | In every run, while a NO_CREDIT frame is retained and credit has come: the worker, or a callback about to wake it, can go on; each such step brings the next drain closer and no other step takes it further away; that drain starts at exactly this frame and offers it if READY and linked |

## Left out

- Mutex priority ceilings other than 0xFF, `rt_mutex_setprioceiling`, delete and detach, and release by another thread of a closed owner: a hand-off does not apply the ceiling to the new owner.
- MutexCalls.Drop: a timeout and the cleanup of the thread that timed out are one step; between the two the mutex priority can be out of date. A waiter that a release skips because its timeout has fired leaves the list and stops waiting in the same step.
- MutexCalls.Take: ends where the caller is left waiting; what the caller does when it is resumed as owner is only to return.
- WaitList.Dequeue: the error code stored in a thread that is resumed is not modelled; the same holds for the error codes stored by event sends and resets.
- WaitList.Enqueue: the mutex, event and semaphore models keep their wait lists as sequences; the pointer form is proved once, here.
- Mailbox.Box.Send: the callers that wait for room or for mail, and their wake-up, are not modelled; a caller that would wait gets the answer BLOCKED and comes back to the same test.
- Mailbox.Box.Urgent: does not model the wake-up of a waiting receiver.
- Mailbox.Box.Recv: does not model waiting receivers or the wake-up of waiting senders.
- Mailbox.Box.Reset: does not model the resumption of waiting callers.
- MessageQueue.Queue.SendReserve: a caller that would wait gets BLOCKED; the waiting loop and its wake-up errors are not modelled.
- MessageQueue.Queue.RecvUnlink: the same for a receiver of an empty queue.
- MessageQueue.Queue.Reset: does not model the resumption of waiting callers.
- MemPool.Pool.Alloc: ends where the caller waits; the loop after a wake-up and the timed-out return are not modelled.
- Event: the 32-bit words are sets of bit numbers below 32, and the option byte three booleans.
- MessageQueue.Queue.Init: a message size so large that RT_ALIGN or the size of a node wraps is excluded; NodeHoldsMessageIff says what that would break.
- MessageQueue: `RT_USING_MESSAGEQUEUE_PRIORITY` is not defined in this firmware; messages are linked first-in first-out.
- MessageQueue.Queue.SendFill: the payload area of a node is its own byte sequence of fixed capacity rather than a stretch of one pool.
- SmallMem: headers are arrays indexed by header offset beside one byte array of the whole region, in which writing a header may change any byte of that header; the casts between pointers and offsets are not modelled.
- MemPool.Pool.constructor: a pool without room for one block, for which the source would write in front of the memory, is excluded.
- LockFreeList: is a transition system only, since its point is the interleaving; the compare-exchange is the strong one and memory is sequentially consistent.
- EthTx.Conservation: each callback and each look at one slot is one step. Within a callback the dead check precedes the section with interrupts off, so below that granularity a slot can be armed or reported after the transport has died.
- EthTx.RingOrder: assumes that all OWN bits have cleared before transport-alive; AliveSafeIff says that this is needed.
- EthTx: completions are not reported in ring order; the scan goes by slot index. The end of each transfer is the DMA's step; the poll-demand register is not modelled.
- EthRx: no claim that every receive interrupt wakes the worker; the interrupt handler suppresses wakes during backpressure. What drives the worker, the link thread's polling and the PHY are events.
- EthRxDrain.Backend.Drain: on mutable state nothing is received during the call; the runs of EthRx interleave reception with every round.
- EthRxDrain.DrainKeeps: the loop as one call, with nothing received during it.
- EthCredit.CreditIsTaken: is about each single step and leaves out the drain, which EthWorker adds.
- EthWorker.RetainedIsRetried: says that the worker can go on and gets closer; that the scheduler does run it is not modelled.
- Statistics counters, logging, hooks, names, the object registry, RT_USING_MEMTRACE and multi-core paths.
- Register programming, clocks, PHY setup, USB transport and the wireless-host core, which are not part of this model.
- `rt_malloc_align`, semaphore control and reset, and deletion of IPC objects.
