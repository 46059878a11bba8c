# Kernel allocators, message objects and device protocol of the T-Kernel port

The project models the parts of T-Kernel 2.0 that keep memory, messages, locks and
devices consistent, and proves what callers rely on.

- **Memory pools and the kernel allocator.** `Queue`, `FreeIndex` and `Areas` are the
  linked structures in a store of QUEUE nodes: rings, the two-level index of free
  areas, and the ring of boundary-tag areas with flag bits in `prev`. `MemPool` and
  `IMalloc` build the two allocators from them, with the wait queue of a pool and the
  page runs of `imalloc`.
- **Message buffers.** `MessageRing` is the byte ring with headers, rounding and
  wraparound; `MessageBuffer` is sending, receiving and waiting, as a function on
  states and as methods on the ring and the queues.
- **Devices.** `DeviceOpen` is opening and closing by many tasks, step by step: the
  regions under the device manager's lock, the synchronisation queue with signals that
  stick, and the driver calls in between. `DevName` is the naming of units.
- **Other kernel objects.** `KLock.dfy` holds object locks and extended SVC locks with
  hand-off; `EventFlag` (with `FlagPattern`, its patterns bit by bit), `Mailbox` and
  `FixedPool` are those objects; `WaitQueue` is what they share.
- **Algorithms.** `BitSearch` and `Checksum`.

Objects that the kernel changes in place are classes, and their methods are proved
against functions on plain states; theorems over whole runs are lemmas about those
functions. A critical section, or a region under the device manager's lock, is one
step. `indp`, `poll` and `diswai` stand for a call from a handler (or with
dispatching disabled, where the source asks for that), TMO_POL, and a wait that is disabled; the result `Waits` stands for a caller that goes to sleep. Sizes are
those of the 32-bit big-endian target: a QUEUE has 8 bytes, a message header 4.

Where the code does less than its name or comment promises, the model follows the code
and states exactly when the promise holds:

- `imalloc` rounds and counts pages in 32 bits: `BlockSizeExact`, `BlockCovers`,
  `FreshRunCovers`.
- `tk_cre_mbf` rounds sizes above 0x7FFFFFFC to a negative number: `CreatedSizeOk`.
- `tk_cre_mpf` rounds block sizes and multiplies them with the count as INT: `BlockSizeOk`,
  `PoolSizeOk`, `CheckIsExact`.
- A message sent from a handler overtakes the tasks that wait to send: `SendOrder`,
  `OvertakingSeen`, `HandlerOvertakes`.
- `AllUnlockSVC` overwrites its parameter and unlocks the running task's locks:
  `EndingFreesOwnLocks`.
- The byte-wise bit searches assume a byte boundary: `Search1Ends`, `SearchSpins`,
  `MissedZeroRight`.
- The checksum loses carries out of its 32-bit sum, so that for long inputs it is not the
  one's-complement sum, although recomputing it gives 0 all the same: `CarryLost`,
  `RecomputedIsZero`. It adds the last byte of an odd number as a low byte: `OddTail`,
  `OddExact`.
- `phydevnm` cannot tell a digit of the device's own name from the unit:
  `NameRoundTrip`.

## Model

| member | source | states |
|---|---|---|
| Queue.InsertedRing | include/sys/queue.h:63-70 | inserting a node just before a member of a ring links exactly the old nodes and the new one, in that place |
| Queue.RemovedRing | include/sys/queue.h:78-84 | removing a member links exactly the others, in their order |
| Queue.InsertRemoveInverse | include/sys/queue.h:63-84 | inserting a node and removing it again leaves every other node as it was |
| Queue.QueueMemory.QueInit | include/sys/queue.h:44-48 | the header becomes a ring of one, nothing else changes |
| Queue.QueueMemory.IsQueEmpty | include/sys/queue.h:54-57 | true exactly for a ring of one |
| Queue.QueueMemory.QueInsert | include/sys/queue.h:63-70 | in the store: the ring with the entry before que, and no node outside it changed |
| Queue.QueueMemory.QueRemove | include/sys/queue.h:78-84 | the ring without the entry, also when the entry is alone |
| Queue.QueueMemory.QueRemoveNext | include/sys/queue.h:93-106 | the entry after que, or NULL exactly for an empty ring |
| FreeIndex.BestFitUnique | kernel/tkernel/src/mempool.c:168-194 | there is only one best fit, so the end that a search starts from cannot matter |
| FreeIndex.FreeQue.SearchFromLarge | kernel/tkernel/src/mempool.c:176-184 | the search from large sizes ends at the best fit |
| FreeIndex.FreeQue.SearchFromSmall | kernel/tkernel/src/mempool.c:186-192 | so does the search from small sizes |
| FreeIndex.FreeQue.SearchFreeArea | kernel/tkernel/src/mempool.c:168-194 | the smallest size not below the request, or the header exactly when there is none, whatever the quarter rule chooses |
| FreeIndex.FreeQue.AppendFreeArea | kernel/tkernel/src/mempool.c:215-235 | the index gains exactly this area, keeps its order, and no other memory changes |
| FreeIndex.FreeQue.RemoveFreeQue | kernel/tkernel/src/mempool.c:242-254 | the index loses exactly this area in all three cases: alone of its size, head with siblings, sibling |
| FreeIndex.IndexGrown | kernel/tkernel/src/mempool.c:231-234 | a new size in its place keeps outer sizes strictly ascending and inner rings of equal size |
| FreeIndex.PromotedSib | kernel/tkernel/src/mempool.c:244-253 | when the head of a size leaves, its first sibling takes its place with the other siblings behind it |
| FreeIndex.LeftInner | kernel/sysmgr/src/imalloc.c:206-218 | removing a sibling leaves the rest of its size and all other sizes indexed |
| Areas.FlagsInWord | kernel/sysmgr/src/imalloc.c:100-113 | flag bits in the low end of an address and the address itself do not disturb each other |
| Areas.AreaInsertedRing | kernel/tkernel/src/mempool.c:262-268 | insertAreaQue puts an area right after another on the ring and keeps all flags |
| Areas.AreaRemovedRing | kernel/tkernel/src/mempool.c:275-279 | removeAreaQue takes one area off the ring and keeps all flags |
| Areas.SplitLayout | kernel/tkernel/src/mempool.c:304-312 | dividing an area leaves areas that are aligned, disjoint, large enough and adjacent |
| Areas.MergeLayout | kernel/tkernel/src/mempool.c:336-346 | joining two neighbours does, too |
| Areas.MergeSplit | kernel/tkernel/src/mempool.c:304-346 | joining undoes dividing |
| Areas.FitIsBest | kernel/tkernel/src/mempool.c:292-296 | a search of the index is a search of all free areas: best fit, or none exactly when no free area is large enough |
| Areas.IndexKept | kernel/tkernel/src/mempool.c:262-279 | area steps change no node of the index |
| Areas.CoreKept | kernel/tkernel/src/mempool.c:215-254 | index steps change no area, no flag and no block in use |
| Areas.UsersWriteFreely | kernel/tkernel/src/mempool.c:302-316 | whatever users write into blocks in use, areas, flags and index stay as they were |
| Areas.AreaHeap.Split | kernel/tkernel/src/mempool.c:304-312 | in the store: the area divided, the rest free, blocks in use untouched |
| Areas.AreaHeap.Merge | kernel/tkernel/src/mempool.c:336-346 | in the store: the two areas joined, blocks in use untouched |
| WaitQueue.EnqueueKeepsPriority | kernel/tkernel/src/wait.h:89-107 | insertion by priority keeps the queue ordered, and equal priorities in order of arrival |
| WaitQueue.EnqueueBehind | kernel/tkernel/src/wait.c:175-238 | a caller that would not be first leaves the head as it is, one that would be becomes the head |
| WaitQueue.EnqueuePlaced | kernel/tkernel/src/wait.c:175-185 | a new waiter is last, or with TA_TPRI before the first of strictly lower priority; all others keep their order |
| WaitQueue.WithoutAt | kernel/tkernel/src/wait.c:46-61 | a task that leaves a queue takes just its own place away |
| WaitQueue.RequeuedAt | kernel/tkernel/src/wait.c:210-214 | a change of priority moves just that task, to the place of its new priority |
| WaitQueue.InsertTpri | kernel/tkernel/src/wait.h:89-107 | the scan of queue_insert_tpri finds that place |
| MemPool.CarvedShape | kernel/tkernel/src/mempool.c:288-316 | get_blk keeps the tiling and the absence of adjacent free areas |
| MemPool.ReleasedShape | kernel/tkernel/src/mempool.c:323-352 | so does rel_blk |
| MemPool.ReleaseAfterCarve | kernel/tkernel/src/mempool.c:288-352 | releasing a block right after getting it restores the areas exactly |
| MemPool.RunShape | kernel/tkernel/src/mempool.c:288-378 | over any sequence of get_blk and rel_blk from init_mempool on: the areas tile the pool, sum up to mplsz + 8, are multiples of 8 and at least 16 bytes, and no two neighbours are free |
| MemPool.TiledBytes | kernel/tkernel/src/mempool.c:359-378 | tiled areas lie in ascending order and account for every byte up to the end node |
| MemPool.NothingInUse | kernel/tkernel/src/mempool.c:323-378 | with no block in use the pool is one free area of mplsz |
| MemPool.MaxFreeBound | kernel/tkernel/src/mempool.c:150-156 | no free area is larger than the pool |
| MemPool.CarvedBlock | kernel/tkernel/src/mempool.c:302-315 | the block got is in use, large enough, and larger only by less than a fragment |
| MemPool.CarvedHolds | kernel/tkernel/src/mempool.c:288-316 | getting a block hands out that block with its size, and no other one is gained, lost or made smaller |
| MemPool.ReleasedHolds | kernel/tkernel/src/mempool.c:323-352 | releasing a block takes back that block, and every other one stays handed out with its size |
| MemPool.BlockStays | kernel/tkernel/src/mempool.c:288-352 | over any run from init_mempool on, a block stays handed out and no smaller until it is released itself |
| MemPool.IndexBytesAreFreeBytes | kernel/tkernel/src/mempool.c:685-694 | the index sums up to exactly the bytes of the free areas on areaque |
| MemPool.FreeAndUsed | kernel/tkernel/src/mempool.c:685-694 | free bytes, bytes in use and the nodes of the areas make up the pool |
| MemPool.MemPool.constructor | kernel/tkernel/src/mempool.c:359-378 | init_mempool establishes all of it, with one free area of mplsz |
| MemPool.MemPool.GetBlk | kernel/tkernel/src/mempool.c:288-316 | NULL exactly when the request exceeds MaxFreeSize; otherwise the front of a best fit, less than a fragment larger than asked for, with the rest a free area; the block is one that nobody held, and all others stay as they were, their bytes untouched |
| MemPool.MemPool.RelBlk | kernel/tkernel/src/mempool.c:323-352 | E_PAR exactly for what is no block in use; otherwise the area joined with its free neighbours; just this block is taken back, all others stay, their bytes untouched |
| MemPool.MemPool.UsersWritePool | kernel/tkernel/src/mempool.c:302-316 | between system calls users may write into their blocks as they like: the pool stays valid and nobody is stuck |
| MemPool.MemPool.MaxFreeSize | kernel/tkernel/src/mempool.c:150-156 | the largest size of any free area, 0 when there is none |
| MemPool.MemPool.Wakeup | kernel/tkernel/src/mempool.c:388-410 | serves the queue from the front, each waiter with a new block of its own, until the head exceeds MaxFreeSize or nobody waits; no other block is gained or lost |
| MemPool.MemPool.GetMpl | kernel/tkernel/src/mempool.c:567-618 | each result code exactly in its case, and no other; the block got is one that nobody held; a caller that waits is on the queue in its place; no stuck waiter afterwards |
| MemPool.MemPool.RelMpl | kernel/tkernel/src/mempool.c:625-660 | each result code exactly in its case: E_PAR out of range or for what is no block in use; just this block is taken back, and handed out are just those of the waiters served; afterwards no waiter is stuck |
| MemPool.MemPool.EndWait | kernel/tkernel/src/mempool.c:437-440 | a timeout or forced release of one waiter leaves no other stuck |
| MemPool.MemPool.ChgPri | kernel/tkernel/src/mempool.c:419-432 | a change of priority reorders the queue and leaves nobody stuck |
| MemPool.MemPool.WaitersImplyUse | kernel/tkernel/src/mempool.c:388-440 | a waiter means a block in use; with every block back nobody waits and the pool is whole again |
| MemPool.MemPool.RefMpl | kernel/tkernel/src/mempool.c:685-694 | the nested traversal reports exactly the free bytes and the largest free area |
| IMalloc.BlockSizeExact | kernel/sysmgr/src/imalloc.c:275-278 | rounding a request gives at least the request if and only if it does not wrap in 32 bits, and then less than 8 bytes more |
| IMalloc.FreshRunCovers | kernel/sysmgr/src/imalloc.c:124-127 | the pages asked for hold the block and two end nodes if and only if the page arithmetic does not wrap, and then one page less would not do |
| IMalloc.BlockCovers | kernel/sysmgr/src/imalloc.c:267-298 | the block that a search and an allocation give is as large as requested if and only if rounding the request does not wrap |
| IMalloc.AllocatedCut | kernel/sysmgr/src/imalloc.c:244-262 | the block is the front of the area, less than a fragment larger than asked for, and what is behind it is a free area |
| IMalloc.AllocatedShape | kernel/sysmgr/src/imalloc.c:244-262 | allocation keeps the TOP and END marks of all page runs and no adjacent free areas |
| IMalloc.FreedShape | kernel/sysmgr/src/imalloc.c:352-366 | freeing joins areas inside one run only, never across TOP or END, and leaves no adjacent free areas |
| IMalloc.AllocatedHolds | kernel/sysmgr/src/imalloc.c:244-262 | an allocation hands out one block, and no other one is gained, lost or made smaller |
| IMalloc.FreedHolds | kernel/sysmgr/src/imalloc.c:345-366 | freeing takes back one block, and every other one stays handed out with its size |
| IMalloc.GoneHolds | kernel/sysmgr/src/imalloc.c:372-378 | giving a run back loses no block that is handed out |
| IMalloc.RunsGone | kernel/sysmgr/src/imalloc.c:372-378 | giving a run back takes exactly its pages away and leaves all other runs marked |
| IMalloc.RunInUse | kernel/sysmgr/src/imalloc.c:345-385 | as long as no run is idle, every run held contains an area in use |
| IMalloc.Imacb.constructor | kernel/sysmgr/src/imalloc.c:455-462 | initIMACB starts with no pages and no idle run, on the rings given, and keeps the nodes of the store |
| IMalloc.Imacb.TryAlloc | kernel/sysmgr/src/imalloc.c:267-298 | the front of a best fit if there is one, less than a fragment larger than asked for, with the rest a free area in the index; the block is one that nobody held, all others as they were; otherwise the number of pages to ask for; makes no run idle |
| IMalloc.Imacb.AllocFromPages | kernel/sysmgr/src/imalloc.c:303-315 | with new pages: a run of its own with the block at its start, large enough and less than a fragment larger, the rest a free area in the index; all other blocks as they were, and no run idle |
| IMalloc.Imacb.IFree | kernel/sysmgr/src/imalloc.c:345-385 | takes back just this block, joins within the run, gives the run back exactly when it is all free and interrupts were enabled; with interrupts enabled no run is left idle; the bytes of other blocks are untouched |
| IMalloc.Imacb.UsersWriteBlocks | kernel/sysmgr/src/imalloc.c:244-262 | users may write into their blocks as they like: the allocator stays valid |
| MessageRing.CreatedSizeOk | kernel/tkernel/src/messagebuf.c:283-298 | the rounded buffer size is an INT and covers the size asked for if and only if that is at most 0x7FFFFFFC |
| MessageRing.HeaderRoundTrip | kernel/tkernel/src/messagebuf.c:104-106 | a size written to a header word is read back unchanged |
| MessageRing.StoresOnce | kernel/tkernel/src/messagebuf.c:133-198 | the bytes in use determine the messages: two readings agree |
| MessageRing.RingShape | kernel/tkernel/src/messagebuf.c:133-198 | head, tail, bufsz and frbufsz stay multiples of 4, tail is (head + bufsz - frbufsz) mod bufsz, and frbufsz is bufsz exactly for no messages |
| MessageRing.FreeIsEnough | kernel/tkernel/src/messagebuf.c:116-119 | room for the unrounded size is the same as room for the rounded one |
| MessageRing.RingAppended | kernel/tkernel/src/messagebuf.c:133-163 | a header and body written from the tail on, wrapping or not, are one more message behind all others |
| MessageRing.RingDropped | kernel/tkernel/src/messagebuf.c:168-198 | moving the head past a message leaves exactly the others |
| MessageRing.Ring.MsgToMbf | kernel/tkernel/src/messagebuf.c:133-163 | in the byte buffer: the queue of messages with this one at its end |
| MessageRing.Ring.MbfToMsg | kernel/tkernel/src/messagebuf.c:168-198 | returns exactly the oldest message and its size, and leaves the others |
| MessageRing.Ring.MbfFree | kernel/tkernel/src/messagebuf.c:116-119 | true exactly when header and rounded body fit |
| MessageRing.Ring.MbfEmpty | kernel/tkernel/src/messagebuf.c:124-127 | true exactly when no message is stored |
| MessageBuffer.WakeupSettles | kernel/tkernel/src/messagebuf.c:208-224 | after mbf_wakeup the head sender's message does not fit |
| MessageBuffer.StepSettled | kernel/tkernel/src/messagebuf.c:231-252 | every call, timeout and change of priority keeps: receive and send waiters never coexist, a receive waiter means an empty buffer, the head sender never fits, nobody waits twice |
| MessageBuffer.RunSettled | kernel/tkernel/src/messagebuf.c:383-513 | and so does every run |
| MessageBuffer.StepKeepsOrder | kernel/tkernel/src/messagebuf.c:414-437 | once accepted, messages are delivered in their order, whatever the attributes |
| MessageBuffer.StepConserves | kernel/tkernel/src/messagebuf.c:383-513 | no message is lost or duplicated: accepted calls add theirs, ended waits take theirs away |
| MessageBuffer.StepReceivers | kernel/tkernel/src/messagebuf.c:414-419 | at every step a task stops waiting to receive if and only if it is delivered to or its wait ends; a message sent goes to whoever waited longest, and the others keep their order |
| MessageBuffer.ReceiversInOrder | kernel/tkernel/src/messagebuf.c:414-419 | over any run in which a task keeps waiting to receive, nobody gets ahead of it and all deliveries go to tasks that were ahead of it |
| MessageBuffer.StepSenders | kernel/tkernel/src/messagebuf.c:208-252 | a send wait that ends takes just its own place away, a change of priority moves just that sender; then the first senders that fit are let in, in their order |
| MessageBuffer.SendOrder | kernel/tkernel/src/messagebuf.c:414-437 | with TA_TFIFO a send keeps messages in the order of their send calls if and only if it is not one from a handler that fits while tasks wait to send |
| MessageBuffer.RunFifo | kernel/tkernel/src/messagebuf.c:414-506 | with TA_TFIFO, over any run without such a send, deliveries come in the order of the send calls, even when some sends time out |
| MessageBuffer.DeliveredInCallOrder | kernel/tkernel/src/messagebuf.c:383-513 | the same from creation on |
| MessageBuffer.TasksDoNotOvertake | kernel/tkernel/src/messagebuf.c:420-424 | no run in which only tasks send has such a send |
| MessageBuffer.Drained | kernel/tkernel/src/messagebuf.c:480-506 | as many receives as there are messages stored and waiting deliver them all, in their order |
| MessageBuffer.OvertakingSeen | kernel/tkernel/src/messagebuf.c:414-506 | after any send, receiving all messages delivers them in the order of the send calls if and only if it was not such a send |
| MessageBuffer.HandlerOvertakes | kernel/tkernel/src/messagebuf.c:420-424 | a run in which call 2, from a handler, is delivered before call 1, of a task that waited |
| MessageBuffer.MessageBuf.WakeupSenders | kernel/tkernel/src/messagebuf.c:208-224 | the loop on ring and queue does what Wakeup says |
| MessageBuffer.MessageBuf.SndMbf | kernel/tkernel/src/messagebuf.c:383-443 | on ring and queues: each result code exactly in its case; the message goes to the first receiver, who alone leaves and gets it in its memory, or to the end of the ring, or the caller to its place among the senders |
| MessageBuffer.MessageBuf.RcvMbf | kernel/tkernel/src/messagebuf.c:455-513 | on ring and queues: each result code exactly in its case, and the bytes of the next message in line; a caller that waits is last |
| MessageBuffer.MessageBuf.EndSendWait | kernel/tkernel/src/messagebuf.c:249-252 | a send wait that ends lets in whoever fits now |
| MessageBuffer.MessageBuf.ChangePri | kernel/tkernel/src/messagebuf.c:231-244 | a change of priority reorders the senders and lets in whoever fits now |
| DeviceOpen.CountsDecide | kernel/sysmgr/src/deviceio.c:251-297 | the four counts refuse an open exactly when some block in use excludes it or is excluded by it |
| DeviceOpen.AdmitsMeans | kernel/sysmgr/src/deviceio.c:251-297 | an open is refused with E_PAR exactly without a read or write mode, and with E_BUSY exactly for a block on the unit or on the whole device that clashes with it, bit by bit |
| DeviceOpen.CheckCalls | kernel/sysmgr/src/deviceio.c:383-396 | the driver is called unless TDA_OPENREQ is absent and another block has the unit open or closing |
| DeviceOpen.StepInv | kernel/sysmgr/src/deviceio.c:131-425 | every step keeps: only the first on syncq runs, a task that becomes first has its signal, each open or close under way has its block, no two blocks exclude each other |
| DeviceOpen.StepDriver | kernel/sysmgr/src/deviceio.c:383-425 | every step keeps the driver's state in line with the blocks in use, unit by unit |
| DeviceOpen.DriverCallsNeverOverlap | kernel/sysmgr/src/deviceio.c:220-244 | for any interleaving at most one task is in a driver open or close call |
| DeviceOpen.DriverAlternates | kernel/sysmgr/src/deviceio.c:305-603 | without TDA_OPENREQ: per unit, successful opens and closes alternate, and while syncq is empty the driver is open exactly on the units with a block |
| DeviceOpen.ExclusionHolds | kernel/sysmgr/src/deviceio.c:251-297 | in every reachable state, of two blocks on overlapping units one that excludes reading meets no reader and one that excludes writing no writer, opens and closes in progress included |
| DeviceOpen.HeadGoesOn | kernel/sysmgr/src/sysmgr.h:57-68 | no lost wakeup: the first on syncq can always take its next step and gets nearer to leaving |
| DeviceOpen.QueueEmpties | kernel/sysmgr/src/deviceio.c:237-244 | so syncq can always be emptied, whatever the driver answers to each of its calls |
| DeviceOpen.DevCB.constructor | kernel/sysmgr/src/device.c:222-223 | a new device has empty rings, at the headers given, beside that of the free blocks |
| DeviceOpen.DevCB.ChkMode | kernel/sysmgr/src/deviceio.c:251-297 | the loop along the ring openq decides as the definition does |
| DeviceOpen.DevCB.CountModes | kernel/sysmgr/src/deviceio.c:262-281 | following next from the header on, the loop counts each block on openq once |
| DeviceOpen.DevCB.ChkOpened | kernel/sysmgr/src/deviceio.c:305-315 | following the ring openq: true exactly when another block has the unit open or closing |
| DeviceOpen.DevCB.NewOpnCB | kernel/sysmgr/src/deviceio.c:131-157 | on the rings: the first free block moves to the end of openq, or none when there is none |
| DeviceOpen.DevCB.DeleteOpnCB | kernel/sysmgr/src/deviceio.c:164-172 | on the rings: the block moves from openq to the free blocks |
| DeviceOpen.DevCB.EnterSyncWait | kernel/sysmgr/src/deviceio.c:220-230 | on the ring: the task's entry is the last of syncq, and it has to wait exactly if there was another |
| DeviceOpen.DevCB.LeaveSyncWait | kernel/sysmgr/src/deviceio.c:237-244 | on the ring: just the leaver's entry is gone and the task of the next one is signalled |
| DeviceOpen.DevCB.OpenFirst | kernel/sysmgr/src/deviceio.c:352-378 | the first region of an open: each error exactly in its case, and success in every other; then the block is registered and the entry last on syncq, otherwise nothing changed |
| DeviceOpen.DevCB.DriverNeeded | kernel/sysmgr/src/deviceio.c:383-396 | a driver call is left out exactly for a unit that is open elsewhere, without TDA_OPENREQ |
| DeviceOpen.DevCB.OpenLast | kernel/sysmgr/src/deviceio.c:411-425 | the last region of an open: just the caller's entry leaves syncq and the next task is signalled; the block gets the caller's resource id, or goes back to the free blocks if the driver refused |
| DeviceOpen.DevCB.CloseFirst | kernel/sysmgr/src/deviceio.c:618-633 | a descriptor is accepted exactly when its block is open and belongs to the caller, with each error in its case, and is marked as closing |
| DeviceOpen.DevCB.CloseLast | kernel/sysmgr/src/deviceio.c:595-603 | the last region of a close is the step Finish: just the caller's entry leaves syncq and its block openq |
| ObjLock.StepInv | kernel/tkernel/src/klock.c:27-87 | every step, waits ended without the lock included, keeps: a lock has at most one owner, and waiters are exactly the blocked tasks |
| ObjLock.OneOwner | kernel/tkernel/src/klock.c:27-87 | over any interleaving: at most one owner per lock, and wtskq.next is NULL exactly when nobody owns it |
| ObjLock.TryTakes | kernel/tkernel/src/klock.c:27-57 | an attempt gets the lock if and only if no other task owns it; otherwise the caller waits last; no other task gains or loses a lock |
| ObjLock.HandOff | kernel/tkernel/src/klock.c:63-87 | unlocking makes the oldest waiter the owner in the same step, and frees the lock only if nobody waits |
| ObjLock.EndedWait | kernel/tkernel/src/klock.c:51-56 | a wait ended without the lock takes just that task off the queue |
| ObjLock.WaiterGetsLock | kernel/tkernel/src/klock.c:27-87 | as the owners go on and unlock, every waiter gets the lock after as many unlocks as there are owners before it |
| ObjLock.NeverOvertaken | kernel/tkernel/src/klock.c:27-87 | over any run nobody gets ahead of a task that keeps waiting for a lock |
| ObjLock.QueueOrder | kernel/tkernel/src/klock.c:27-87 | two waiters of a lock keep their order over any run, for as long as the first of them keeps waiting |
| ObjLock.KernelLock.LockPass | kernel/tkernel/src/klock.c:27-57 | the region of LockOBJ: locked exactly when no other task owned the lock, otherwise last on its queue |
| ObjLock.KernelLock.UnlockOBJ | kernel/tkernel/src/klock.c:63-87 | the region of UnlockOBJ: the oldest waiter owns the lock and alone leaves the queue, or the lock is free |
| SvcLock.StepInv | kernel/tkernel/src/klock.c:95-187 | every step keeps the tasks' lock lists disjoint stacks without repetition, one holder per lock |
| SvcLock.StacksDisjoint | kernel/tkernel/src/klock.c:95-187 | over any interleaving: each list linked through locklist is a stack, no lock is on two, and wtskq.next is NULL exactly for locks on none |
| SvcLock.TryTakes | kernel/tkernel/src/klock.c:95-126 | an attempt gets the lock, on top of the caller's list, if and only if no other task holds it; otherwise the caller waits last; no other list changes |
| SvcLock.HandOff | kernel/tkernel/src/klock.c:131-157 | unlocking moves the top lock onto the stack of its oldest waiter in the same step, or frees it |
| SvcLock.EndedWait | kernel/tkernel/src/klock.c:120-125 | a wait ended without the lock takes just that task off the queue |
| SvcLock.AllUnlockInv | kernel/tkernel/src/klock.c:162-187 | AllUnlockSVC empties the running task's list and takes no lock from any other task |
| SvcLock.EndingFreesOwnLocks | kernel/tkernel/src/task_manage.c:289-292 | a task that ends with SVC locks is left without them if and only if it is the running task |
| SvcLock.SvcLocks.LockPass | kernel/tkernel/src/klock.c:95-126 | the region of LockSVC: locked exactly when no other task held the lock, and then on top of the caller's list; otherwise last on its queue |
| SvcLock.SvcLocks.UnlockSVC | kernel/tkernel/src/klock.c:131-157 | on the linked lists: the caller's top lock goes to the top of its oldest waiter's list, or is free |
| SvcLock.SvcLocks.AllUnlockSVC | kernel/tkernel/src/klock.c:162-187 | the loop releases every lock of the running task, whatever its parameter, and no other task loses one |
| FlagPattern.CondOnMeans | kernel/tkernel/src/eventflag.c:92-99 | with TWF_ORW some bit waited for is set, otherwise none is missing |
| FlagPattern.LeftOverIs | kernel/tkernel/src/eventflag.c:331-337 | TWF_CLR leaves nothing, TWF_BITCLR all but the bits waited for, neither leaves the pattern as it was |
| EventFlag.CondMonotone | kernel/tkernel/src/eventflag.c:92-99 | clearing bits never makes a condition true |
| EventFlag.PassIsReleaseAll | kernel/tkernel/src/eventflag.c:225-254 | one forward pass with its early breaks releases the same tasks, in the same order and with the same patterns, as releasing the first satisfied waiter again and again |
| EventFlag.ReleaseAllQuiet | kernel/tkernel/src/eventflag.c:225-254 | afterwards no waiting task's condition holds |
| EventFlag.ReleaseAllKeeps | kernel/tkernel/src/eventflag.c:238-241 | every released task saw a pattern that satisfies it, and nobody else left the queue |
| EventFlag.PassChained | kernel/tkernel/src/eventflag.c:225-254 | each released task sees what the one before it left, by the modes; the last one leaves the flag's pattern |
| EventFlag.PassParts | kernel/tkernel/src/eventflag.c:225-254 | those released and those who wait on are the queue, both in its order |
| EventFlag.StepInv | kernel/tkernel/src/eventflag.c:207-347 | every call, timeout and change of priority keeps the flag quiet, and without TA_WMUL at most one waiter |
| EventFlag.StepQueue | kernel/tkernel/src/eventflag.c:107-120 | a wait that ends and a change of priority concern just that task's place |
| EventFlag.AlwaysQuiet | kernel/tkernel/src/eventflag.c:207-347 | over any run from creation on |
| EventFlag.FlgCB.SetFlg | kernel/tkernel/src/eventflag.c:207-260 | from the old pattern with the new bits on: tasks are released in the queue's order, each given the pattern it saw, which met its condition and was cleared by its mode for the next; of those left none is met by the final pattern |
| EventFlag.FlgCB.WaiFlg | kernel/tkernel/src/eventflag.c:297-353 | each result code exactly in its case; a wait met at once reports the pattern before clearing, and clears just the bits of its mode; a caller that waits goes to its place |
| EventFlag.FlgCB.ClrFlg | kernel/tkernel/src/eventflag.c:267-284 | bits are cleared and the flag stays quiet |
| Mailbox.InsertOrdered | kernel/tkernel/src/mailbox.c:112-125 | a message inserted by priority goes behind its equals, so the list stays ordered by priority and age |
| Mailbox.StepInv | kernel/tkernel/src/mailbox.c:231-327 | every step keeps the order, and a waiting receiver means an empty list |
| Mailbox.StepConserves | kernel/tkernel/src/mailbox.c:231-327 | no step loses or duplicates a message |
| Mailbox.StepServes | kernel/tkernel/src/mailbox.c:247-252 | a message sent goes to the first waiter, who alone leaves the queue; a message received goes to the caller |
| Mailbox.StepQueue | kernel/tkernel/src/mailbox.c:131-144 | a wait that ends and a change of priority concern just that task's place |
| Mailbox.NothingLost | kernel/tkernel/src/mailbox.c:231-327 | over any run: delivered and listed messages are exactly those sent, with TA_MFIFO in exactly that order |
| Mailbox.ReceivesFirst | kernel/tkernel/src/mailbox.c:316-327 | a receive takes the oldest message, or the oldest of the smallest msgpri |
| Mailbox.LinkedInsert | kernel/tkernel/src/mailbox.c:112-125 | two writes link a message in at any place of the list |
| Mailbox.MbxCB.QueueInsertMpri | kernel/tkernel/src/mailbox.c:112-125 | the walk along the links finds that place |
| Mailbox.MbxCB.Append | kernel/tkernel/src/mailbox.c:263-272 | a message goes to the end of the list although mq_tail is stale after the list was empty |
| Mailbox.MbxCB.SndMbx | kernel/tkernel/src/mailbox.c:231-279 | on the links: each result code exactly in its case; the message goes to the first waiter, who alone leaves, or into the list behind all that go before it |
| Mailbox.SentTwice | kernel/tkernel/src/mailbox.c:112-125 | sending again a message that is listed cuts out the messages between it and its new place, or, when there are none, makes the list endless |
| Mailbox.ListedPosition | kernel/tkernel/src/mailbox.c:112-125 | with TA_MPRI the scan for the place of a message that is listed goes past it |
| Mailbox.MbxCB.RcvMbx | kernel/tkernel/src/mailbox.c:293-333 | on the links: each result code exactly in its case; the first message's address, and the list without it; a caller that waits goes to its place; no message's priority changes |
| FixedPool.BlockSizeOk | kernel/tkernel/src/mempfix.c:102-103 | the rounded block size is at least the size asked for if and only if that is at most 0x7FFFFFFC, and otherwise negative |
| FixedPool.PoolSizeOk | kernel/tkernel/src/mempfix.c:162-166 | the memory allocated holds all blocks if and only if their size does not wrap in 32 bits, and mpfsz is that size if and only if it is an INT |
| FixedPool.CheckIsExact | kernel/tkernel/src/mempfix.c:336-341 | the address check of a release accepts exactly the addresses of the pool's blocks if and only if the size of the pool is an INT |
| FixedPool.StepInv | kernel/tkernel/src/mempfix.c:256-366 | every step keeps: each block is held, on freelist or in the unused tail, and only one of these; frbcnt counts the last two; waiters mean frbcnt is 0 |
| FixedPool.BlocksConserved | kernel/tkernel/src/mempfix.c:280-294 | held blocks and frbcnt make up the pool |
| FixedPool.AlwaysConserved | kernel/tkernel/src/mempfix.c:183-360 | over any run that releases only held blocks, direct hand-off included |
| FixedPool.GetsFreeBlock | kernel/tkernel/src/mempfix.c:280-294 | a block is handed out exactly when frbcnt is positive, and nobody held it |
| FixedPool.RelServes | kernel/tkernel/src/mempfix.c:343-360 | a release gives the block to the first waiter, who alone leaves, or to freelist; no other block changes hands |
| FixedPool.GetAfterRel | kernel/tkernel/src/mempfix.c:280-360 | getting a block after a release gives the same block and restores the pool |
| FixedPool.UntouchedLast | kernel/tkernel/src/mempfix.c:285-294 | a block of the unused tail is handed out only with an empty freelist, and in order |
| FixedPool.StepQueue | kernel/tkernel/src/mempfix.c:120-133 | a wait that ends and a change of priority concern just that task's place |
| FixedPool.OnlyHeldReleased | kernel/tkernel/src/mempfix.c:343-360 | a release keeps the invariant if and only if the block is held |
| FixedPool.MpfCB.constructor | kernel/tkernel/src/mempfix.c:165-191 | a new pool has all its blocks in the unused tail |
| FixedPool.MpfCB.GetMpf | kernel/tkernel/src/mempfix.c:256-313 | on freelist and unused pointer: each result code exactly in its case; the block is the head of freelist, or else the first untouched one, and nobody held it |
| FixedPool.MpfCB.RelMpf | kernel/tkernel/src/mempfix.c:321-366 | each result code exactly in its case; the block goes to the first waiter, who alone leaves, or to the head of freelist |
| BitSearch.Halve | kernel/tstdlib/bitop.c:228-245 | each of the five tests keeps the first set bit in view and its distance counted |
| BitSearch.FirstMaskKeeps | kernel/tstdlib/bitop.c:210-218 | the mask of the first word keeps exactly the bits from the offset on, in either byte order |
| BitSearch.FirstInWord | kernel/tstdlib/bitop.c:224-265 | the in-word binary search finds the first set bit of any non-zero word |
| BitSearch.BinSearch | kernel/tstdlib/bitop.c:198-280 | for every offset and width, the least position with a 1, or -1; the word behind the bits is read only if there is no 1 before it |
| BitSearch.BitSearch1 | kernel/tstdlib/bitop.c:149-189 | the byte-wise search gives the same, on all inputs on which its inner loop ends |
| BitSearch.Search1Ends | kernel/tstdlib/bitop.c:165-176 | the inner loop ends if and only if the byte has a 1 at or after the offset |
| BitSearch.SearchSpins | kernel/tstdlib/bitop.c:161-184 | a call gets stuck in its first byte if and only if that has a 1, but only before the offset; in later bytes it never does |
| BitSearch.AlignedNotMissed | kernel/tstdlib/bitop.c:149-189 | from a byte boundary on it always ends |
| BitSearch.BitSearch0 | kernel/tstdlib/bitop.c:103-143 | the first 0, or the exact wrong answer when the first byte has its only 0 before the offset |
| BitSearch.MissedZeroRight | kernel/tstdlib/bitop.c:120-131 | that answer is right if and only if the bit after the byte is 0 or is not searched |
| BitSearch.SameBits | kernel/tstdlib/bitop.c:149-280 | a bit string read as words and as bytes is the same in both byte orders |
| BitSearch.SearchesAgree | kernel/tstdlib/bitop.c:149-280 | so the word-wise and the byte-wise search agree |
| BitSearch.BitSet | kernel/tstdlib/bitop.c:63-77 | sets one bit of the string and no other; nothing for a negative offset |
| BitSearch.BitClr | kernel/tstdlib/bitop.c:43-57 | clears one bit of the string and no other |
| BitSearch.BitTest | kernel/tstdlib/bitop.c:83-97 | the bit at the offset, FALSE for a negative one |
| Checksum.TwoFolds | usermain_t2ex/network_sample/util.c:80-81 | two folds turn any 32-bit sum into the 16-bit one's-complement number congruent to it modulo 65535 |
| Checksum.Checksum2 | usermain_t2ex/network_sample/util.c:66-84 | the loop computes the complement of that number for the sum modulo 2^32 of the halfwords, with one more for the last byte exactly if the number of bytes is odd |
| Checksum.RecomputedIsZero | usermain_t2ex/network_sample/util.c:66-89 | with the result stored where a 0 was, recomputing gives 0, for every length and initial value |
| Checksum.CarryLost | usermain_t2ex/network_sample/util.c:66-84 | the result is the one's-complement checksum of RFC 1071, section 1, if and only if the sum of the halfwords needs no more than 32 bits |
| Checksum.OddTail | usermain_t2ex/network_sample/util.c:76-78 | the last byte of an odd number is summed as if in the low half: not the same as in the high half, where a big-endian processor has it, unless it is 0 |
| Checksum.OddExact | usermain_t2ex/network_sample/util.c:66-84 | for an odd number of bytes of any length, exactly when the result is that of RFC 1071, section 1, in spite of the byte's place and lost carries |
| Checksum.InitialIsPrefix | usermain_t2ex/network_sample/util.c:66-84 | summing a header first and passing it as initial is the checksum of both |
| DevName.NameRoundTrip | kernel/sysmgr/src/device.c:393-445 | reading the logical name of a unit gives back device and unit if and only if the device's name has no digit |
| DevName.DecimalDigit | kernel/sysmgr/src/device.c:406-409 | digit k from the right of the unit number is that of 10^k, without leading zeros |
| DevName.AcceptsIsExact | kernel/sysmgr/src/device.c:255-285 | a device is accepted exactly when the logical names of all its units have at most L_DEVNM characters |
| DevName.LogDevNm | kernel/sysmgr/src/device.c:393-413 | the buffer holds the name followed by the decimal unit number less one |
| DevName.PrintDigits | kernel/sysmgr/src/device.c:399-409 | the digits fill the buffer from its end without overrunning its start |
| DevName.PhyDevNm | kernel/sysmgr/src/device.c:423-445 | the buffer holds the name up to the first digit, and the rest is read as a number, in INT arithmetic |
| DevName.NameFits | kernel/sysmgr/src/device.c:255-285 | the increments of the check are the rule of Accepts |

## Left out

- IMalloc.Imacb.TryAlloc: requires a size that rounding does not wrap; for larger ones the source goes on with a block of 0 bytes, and BlockCovers says that this is exactly when the block is too small.
- IMalloc.Imacb.AllocFromPages: requires page arithmetic that does not wrap, which FreshRunCovers characterises; GetSysMemBlk is a parameter, the pages it gives.
- MemPool.MemPool.RelBlk: leaves out the same addresses as RelMpl.
- MemPool.MemPool.RelMpl: leaves out addresses inside the pool that are no block's and have a word in front of them with the use flag; the source takes such a word, which may be a user's data, for that of an area.
- MessageRing.Ring.constructor: requires a size that rounding keeps positive; CreatedSizeOk gives the exact limit.
- ObjLock.StepInv: object locks do not nest, as a second LockOBJ by a task that holds any object lock returns at once.
- SvcLock.StepInv: no task locks an SVC lock that it holds, and exits release the running task's locks.
- DeviceOpen.StepInv: one device, no pending requests when a close begins, driver functions present, and no task of syncq is killed or released by others; abort_allrequest is then without effect. Blocks that other devices take and give back are a step of their own.
- BitSearch.BinSearch: positions are unbounded integers; the word after the last one searched must be readable if there is no 1 before it, because the source then reads it before it tests the width.
- DevName.PhyDevNm: INT arithmetic wraps around, which C leaves undefined.
- Mailbox.MbxCB.SndMbx: a message that is sent is not already in the list; SentTwice says what becomes of the list otherwise.
- FixedPool.MpfCB.RelMpf: only blocks that are held are released; OnlyHeldReleased says that this is exactly what the invariant needs.
- FixedPool.MpfCB.constructor: requires a block size that rounding keeps positive; BlockSizeOk gives the exact limit.
- The wait queues of pools, buffers, flags, mailboxes and locks are sequences of tasks; their rings are those of Queue. TCBs, the dispatcher, timers and interrupt masks appear only as the atomicity of steps and as events that end a wait.
- Which task has the processor while it holds an object lock (ready_queue.klocktsk) is not modelled.
- Creation and deletion of objects beyond the setup of their control blocks, object names, attribute checks, debugger support functions.
- Device requests, suspend and resume, registration beyond the length check, and DevCB lists: easy beside the open and close protocol or dependent on drivers.
- Network code other than the checksum, configuration look-up, SPI, console and startup code: hardware, sockets and user input.
