# FernOS in Dafny

FernOS is a small 32-bit x86 kernel. This project models its cores that need little hardware, in the form
the C code has, and proves what they are for. Most models come in two layers: a specification on values,
about which the laws are proved, and a class whose methods update their fields in place, loop by loop, and
are proved to do what the specification says.

| files | what they model |
|---|---|
| `sequences` | sequences without repetitions, for the lists of the other models |
| `raw_memory`, `heap_blocks`, `heap_steps`, `simple_heap` | the boundary-tag heap: one byte region with tags, free-list links and payloads in the same bytes |
| `process_tree`, `scheduling`, `timed_queue`, `kernel_model`, `kernel_keeps`, `kernel_spares`, `kernel_calls`, `kernel_runs`, `kernel_joins`, `kernel_signals`, `kernel_events`, `kernel_histories`, `kernel_answers`, `kernel_falls`, `kernel_shutdown`, `kernel_state` | processes, threads, signals, joins, wait queues and the run ring as one state machine, over all runs |
| `fat_chains`, `fat_device` | the FAT: cluster chains, the queue of free slots |
| `sectors`, `cached_device` | the write-back sector cache |
| `fat_layout`, `fat_files`, `fat_byte_files` | files as sectors over a chain, and as flat bytes |
| `fat_dir_entries`, `fat_dir_shape`, `fat_dir_volume`, `fat_dir_reads`, `fat_dir_steps`, `fat_dirs` | directories: sequences of long-name and short-name entries across clusters |
| `page_entries`, `page_roles`, `page_steps`, `page_ranges`, `page_memory`, `page_views`, `page_copies`, `page_releases`, `page_costs`, `page_directories` | frames, the free list, page tables, windows, allocation, release and copies of address spaces |
| `user_copies` | copies between kernel and user memory |
| `futex_mutex`, `futex_plugin` | the mutex as a protocol of atomic steps, and the plugin that carries it on the kernel's queues |
| `pipe` | the pipe as a bounded queue |
| `search_tree`, `shared_ranges`, `shared_memory`, `semaphores` | the binary search tree and what the shared memory plugin keeps in it |
| `id_table`, `hash_map` | the ID table and the chained hash map |

Addresses, sizes and counts are 32 bits wide where the code depends on it: the heap's rounding, the clock,
the range tests, the pieces of a user copy. What comes from outside is a parameter of the operation: how
many pages the memory manager maps, whether memory for a container can be had, how much of a user's memory
can be read. The random sectors that the search for free FAT slots looks at are a stream of which nothing is known.

## What the proofs show about the code

Some properties that one would expect hold only under a condition, which is then exact.

- Rounding a heap request up (`src/s_mem/include/s_mem/allocator.h:111`) wraps to 0 for 2^32 - 1 bytes, and
  only for that request; a block cut to that size breaks the tiling (`SimpleHeap.ValidateSizeServes`,
  `SimpleHeap.LargestRequestBreaks`).
- A signal cannot be sent, which shuts the system down, exactly for an ID out of range, or a process that has
  exited and neither has the signal pending nor allows it (`KernelRuns.SignalFails`). So a parent that signals a
  zombie of its own, which never allowed the signal, takes the system down;
  `KernelShutdown.ZombieSignalShutsDown` gives the events from boot.
- Exits go up the tree as long as parents do not allow FSIG_CHLD. `KernelFalls.DownExactly` says for every event
  when that reaches the root, and so takes the system down.
- A multi-sector read or write is right, and answers success, exactly up to 255 sectors (`FatLayout.NarrowCount`,
  `FatLayout.NarrowRead`), since the number of remaining sectors is narrowed to eight bits at
  `src/s_block_device/src/fat32.c:865`.
- The search for free FAT slots stays inside the table exactly when the last sector of the table holds one
  of its slots (`FatDevices.ScanInTable`); outside that case a popped slot can be refused as unknown. A table of
  two sectors for 100 slots is outside it (`FatDevices.ScanLeavesTable`).
- The pieces of a user copy are wrong exactly for copies that reach the end of the address space in one of
  the ways `UserCopies.Wrong` names, such as one from the second page to that end (`UserCopies.StraysAtOnce`);
  `mem_set_to_user` computes its pieces differently and has no such case.
- The header says that the characters after the end of a long name are padded with 0xFFFF
  (`src/s_block_device/include/s_block_device/fat32.h:476`); the code leaves zeros, and so does the model
  (`FatDirSteps.LfnEntryBytes`).
- The header of the mutex says that an unlock wakes one sleeper; the code wakes all, and so does the model
  (`FutexMutex.WakesAll`).
- The comment of `plg_shm_new_shm` promises an out-of-memory code; a failed insertion in the tree gives the
  unknown error instead, and so does the model.
- Resizing cuts at the slot where the new length ends, whatever that slot is. The queue of free slots survives
  exactly when that slot is not a queued one, as it never is on a chain; a queued slot resized to length 1
  is the simplest input that breaks it (`FatDevices.FatDevice.ResizeChain`, `FatDevices.QueuedSlotEnds`).

## Model

| member | source | states |
|---|---|---|
| `SimpleHeap.Heap.Malloc` | src/s_mem/src/simple_heap.c:405-486 | For every request but 2^32 - 1: a result is a new block of at least the requested and at most 15 bytes more than the rounded size, every other user block keeps its bytes, null means that no free block of the size is left and that growing could not have made one, and the whole heap invariant is kept. That request gives a whole block too small to be cut, null, or the cut that breaks the tiling, which is reported. |
| `SimpleHeap.Heap.Realloc` | src/s_mem/src/simple_heap.c:488-578 | The block returned is the old one or a new one, is large enough and keeps the first min(old, new) bytes; no other user block changes. One that is larger than the rounded request stays where it is and is cut to exactly that size, when the rest can be a block; any other result is shorter than the request plus a bound. A failure changes nothing a user sees and means that no block of the size is left; size 0 frees; 2^32 - 1 bytes are cut to none, which breaks the tiling and is reported. |
| `SimpleHeap.Heap.Free` | src/s_mem/src/simple_heap.c:580-602 | Exactly the freed block leaves the users' view; pointers that are no allocated block are ignored; the invariant is kept. |
| `SimpleHeap.Heap.Resize` | src/s_mem/src/simple_heap.c:512-578 | The branches of realloc after its checks: a larger block is cut in place to exactly the size; a smaller one stays in place if and only if its right neighbour is free and large enough, and moves otherwise. Each keeps the common prefix and all other blocks, and hands out less than a bound above the request. |
| `SimpleHeap.Heap.MoveBlock` | src/s_mem/src/simple_heap.c:537-550 | The new block starts with all the old bytes, the old block is gone and nobody else changes; on failure all stays. |
| `SimpleHeap.Heap.StretchRight` | src/s_mem/src/simple_heap.c:552-578 | Taking what is missing from the free right neighbour keeps the set of user blocks, their bytes, and the block's own bytes as a prefix. |
| `SimpleHeap.Heap.CopyPayload` | src/s_mem/src/simple_heap.c:546-546 | The copy puts one user's bytes at the start of the other's block and changes no other byte a user owns. |
| `SimpleHeap.Heap.Coalesce` | src/s_mem/src/simple_heap.c:217-240 | The result is one free block with used neighbours that contains the given one; other free blocks stay or are swallowed whole; all payloads but that of the given block are as before. |
| `SimpleHeap.Heap.ShrinkLeft` | src/s_mem/src/simple_heap.c:366-402 | A block in no list becomes a user block with its first bytes kept, cut to the requested size when the rest can be a block; the rest is merged and listed. |
| `SimpleHeap.Heap.RemoveFree` | src/s_mem/src/simple_heap.c:161-185 | The list writes keep tags, payloads, the other list and the links of the rest of the list. |
| `SimpleHeap.Heap.AddFree` | src/s_mem/src/simple_heap.c:246-267 | A free block between used ones is listed in the list of its size, once, with all links right. |
| `SimpleHeap.Heap.RequestMem` | src/s_mem/src/simple_heap.c:282-316 | The break moves up to where the memory manager stops, running short marks the heap exhausted, and all that was mapped becomes one isolated free block, merged with a free last block. |
| `SimpleHeap.Heap.SearchFreeList` | src/s_mem/src/simple_heap.c:326-356 | The block found is the first of the list that is large enough, and is out of it; none found means that all those looked at are too small, and with the bound not reached these are the whole list. |
| `SimpleHeap.Heap.WalkFreeList` | src/s_mem/src/simple_heap.c:326-356 | The walk ends at the first block that is large enough, at the end of the list, or at the bound. |
| `SimpleHeap.Heap.TryGrow` | src/s_mem/src/simple_heap.c:431-455 | Growing succeeds whenever the memory manager can give enough; a block too small joins the lists. |
| `SimpleHeap.Heap.FindBlock` | src/s_mem/src/simple_heap.c:414-476 | The bounded search, the growth and the exhaustive search together return no block only when no free block fits. |
| `SimpleHeap.Heap.constructor` | src/s_mem/src/simple_heap.c:79-154 | After the first page is mapped the heap is one free block, with no user blocks. |
| `SimpleHeap.ValidateSizeServes` | src/s_mem/include/s_mem/allocator.h:111-123 | Rounding yields an even size of at least a free block and at least the request, the least such, exactly when the request is not 2^32 - 1, which becomes 0. |
| `SimpleHeap.LargestRequestBreaks` | src/s_mem/include/s_mem/allocator.h:111-123 | A cut to the rounded request keeps the heap tiled if and only if the request is not 2^32 - 1. |
| `SimpleHeap.Heap.HandWhole` | src/s_mem/src/simple_heap.c:366-402 | For 0 bytes a block is handed over whole if it is too small to be cut, and otherwise cut so that the heap is not tiled any more. |
| `HeapSteps.CoalesceStep` | src/s_mem/src/simple_heap.c:217-240 | Fusing a block with its free neighbours keeps tiling, tags, both lists and every other payload, and leaves no two free neighbours. |
| `HeapSteps.CutStep` | src/s_mem/src/simple_heap.c:366-402 | Cutting a block in two hands over its first bytes only and keeps the invariant. |
| `HeapSteps.UnlinkStep` | src/s_mem/src/simple_heap.c:161-185 | Unlinking in the raw bytes takes exactly one block out of its list. |
| `HeapSteps.PushStep` | src/s_mem/src/simple_heap.c:246-267 | Pushing in the raw bytes adds exactly one block to its list. |
| `HeapSteps.JoinStep` | src/s_mem/src/simple_heap.c:568-575 | One tag over two used blocks keeps all other payloads. |
| `HeapBlocks.LayoutTiles` | src/s_mem/src/simple_heap.c:161-602 | Every byte of the heap is in exactly one block and no byte outside in any. |
| `HeapBlocks.UnlinkKeepsLinked` | src/s_mem/src/simple_heap.c:161-185 | The words written leave a doubly linked list without the element. |
| `HeapBlocks.PushKeepsLinked` | src/s_mem/src/simple_heap.c:246-267 | The words written leave a doubly linked list with the element in front. |
| `ProcessTree.EveryoneDescendsFromRoot` | src/k_startup/src/state.c:196-525 | Climbing from any process ends at the root: no orphans, no cycles. |
| `ProcessTree.ExitedHaveNoChildren` | src/k_startup/src/state.c:280-334 | An exited process has no children, dead or alive. |
| `ProcessTree.ForkKeepsTree` | src/k_startup/src/state.c:196-278 | A fork keeps the tree: the child is in one list of one parent, which is alive. |
| `ProcessTree.AdoptKeepsTree` | src/k_startup/src/state.c:280-334 | Giving all children to the root keeps the tree. |
| `ProcessTree.BuryKeepsTree` | src/k_startup/src/state.c:336-414 | Moving a process from its parent's children to its zombies keeps the tree. |
| `ProcessTree.ReapKeepsTree` | src/k_startup/src/state.c:426-525 | Removing a zombie keeps the tree. |
| `ProcessTree.BuryDropsLive` | src/k_startup/src/state.c:336-414 | Each exit takes exactly one process from the live ones, which bounds the mutual recursion of exit and signal. |
| `Scheduling.DetachOneIsDetachAll` | src/k_startup/src/thread.c:118-129 | Because a thread is in one place only, detaching it there removes it from ring and queues altogether. |
| `Scheduling.WakeKeeps` | src/k_startup/src/thread.c:151-175 | Waking a waiter keeps every thread where its state says. |
| `Scheduling.EnterKeeps` | src/s_data/src/wait_queue.c:183-194 | Going to sleep anywhere in a queue keeps every thread where its state says. |
| `TimedQueue.RemainingUnique` | src/s_data/src/wait_queue.c:359-377 | The remaining time is the one number of ticks after which the wrapping clock shows the wake time. |
| `TimedQueue.InsertPosition` | src/s_data/src/wait_queue.c:370-403 | An insertion keeps the order by remaining time modulo 2^32, behind everyone who waits as long: first in, first out. |
| `TimedQueue.DueExactly` | src/s_data/src/wait_queue.c:405-439 | Exactly those whose remaining time is at most the elapsed one are due, they are a prefix, and the rest is in order on the new clock, also when it wraps. |
| `TimedQueue.TimedWaitQueue.Enqueue` | src/s_data/src/wait_queue.c:370-403 | A wait time equal to now is ready at once; any other is inserted by its remaining time. |
| `TimedQueue.TimedWaitQueue.Notify` | src/s_data/src/wait_queue.c:405-439 | The due prefix goes to the ready queue in order and the rest waits on. |
| `TimedQueue.TimedWaitQueue.Pop` | src/s_data/src/wait_queue.c:441-448 | Ready items leave first in, first out. |
| `TimedQueue.TimedWaitQueue.Remove` | src/s_data/src/wait_queue.c:450-478 | Every occurrence of the item leaves both queues. |
| `KernelKeeps.SignalKeeps` | src/k_startup/src/state.c:622-690 | Signalling a live process, with whatever chain of forced exits it sets off, does not fail and keeps the kernel invariant or shuts the system down. |
| `KernelKeeps.ExitKeeps` | src/k_startup/src/state.c:336-414 | So does the exit of a live process. |
| `KernelKeeps.BuryKeeps` | src/k_startup/src/state.c:366-413 | So does its end, where the parent is signalled. |
| `KernelSpares.ExitSpares` | src/k_startup/src/state.c:336-414 | An exit leaves every process that is no ancestor its state, signals, children and threads; at most it gets the root for a parent. |
| `KernelSpares.SignalSpares` | src/k_startup/src/state.c:622-690 | The same for a signal. |
| `KernelModel.ListedIffLive` | src/k_startup/src/state.c:369-374 | A non-root process is among its parent's children if and only if it has not exited, so the failing pop is reached exactly for exited ones. |
| `KernelRuns.RunsKeep` | src/k_startup/src/state.c:134-1076 | In every run from boot, over forks, exits, reaps, signals, sleeps, joins, thread ends, waits in basic queues and ticks, every state that is not shut down has the tree, scheduling, signal and join invariants. |
| `KernelRuns.StepKeeps` | src/k_startup/src/state.c:134-1076 | Any one of these events on a running kernel keeps the invariant or shuts it down. |
| `KernelRuns.SignalFails` | src/k_startup/src/state.c:622-690 | A signal fails, which shuts the system down, if and only if the signal ID is out of range or the process has exited and neither has the signal pending nor allows it. |
| `KernelRuns.SignalZombie` | src/k_startup/src/state.c:622-690 | What becomes of a signal to an exited process, and that the invariant is kept where it does not fail. |
| `KernelRuns.ExitZombie` | src/k_startup/src/state.c:336-414 | Exiting a second time always fails. |
| `KernelRuns.ReapCallInv` | src/k_startup/src/state.c:426-525 | Reaping keeps the invariant, is never fatal, and returns a process if and only if it is among the caller's zombies. |
| `KernelRuns.TickWakes` | src/k_startup/src/state.c:134-177 | A tick wakes exactly the sleepers with at most one tick to go and takes one tick from the others; the woken ones run behind all that run already, in their order, before the ring advances. |
| `KernelRuns.WaitInv` | src/k_startup/src/state.c:751-811 | A signal wait keeps that nobody waits for a pending signal. |
| `KernelRuns.AllowInv` | src/k_startup/src/state.c:731-749 | A new mask keeps that the pending signals of a live process are allowed, or the process exits. |
| `KernelRuns.JoinInv` | src/k_startup/src/state.c:1014-1076 | A join keeps that nobody waits for a thread that has exited and is not yet joined. |
| `KernelRuns.ExitThreadCallInv` | src/k_startup/src/state.c:942-1012 | The end of a thread keeps the invariant, or the main thread takes the system down with the root. |
| `KernelRuns.WakeFirstFacts` | src/k_startup/src/thread.c:151-175 | The first n sleepers run behind all that run already, in their order; no other thread moves. |
| `KernelRuns.BootInv` | src/k_startup/src/kernel.c:82-105 | The first process alone, with its thread about to run, satisfies the invariant. |
| `KernelJoins.JoinedOnce` | src/k_startup/src/state.c:942-1076 | In every run a thread is handed to a joiner at most once for each time that it ends, and not yet while it waits to be joined. |
| `KernelJoins.ExitedStays` | src/k_startup/src/state.c:134-1076 | An exited thread stays until it is joined or its process is reaped, is gone once it is joined, and becomes exited by its own end only, whatever chain of signals and exits runs. |
| `KernelJoins.HandedToOne` | src/k_startup/src/state.c:942-1012 | An ending thread goes to the first thread that waits for it, which runs again while all others wait on; when nobody waits, it stays to be joined. |
| `KernelJoins.SignalSame` | src/k_startup/src/state.c:622-690 | Signals and forced exits neither end a thread in the sense of a join nor lose one that has ended. |
| `KernelSignals.SignalDelivered` | src/k_startup/src/state.c:622-690 | An allowed signal that is not pending is consumed by the first thread that waits for it, which alone leaves the queue and runs last, and then exactly the old signals are pending; when no thread waits for it, exactly it is pending too, and nobody moves. |
| `KernelSignals.SignalFollows` | src/k_startup/src/state.c:622-690 | Whatever chain of exits a signal sets off, no pending signal of any process is lost, only that signal and FSIG_CHLD become pending, those that had exited keep their status, and nobody else ends but by a signal. |
| `KernelSignals.ExitFollows` | src/k_startup/src/state.c:336-413 | The same of an exit, after which the process has exited with the status given. |
| `KernelSignals.SignalTold` | src/k_startup/src/state.c:622-690 | In that chain, every process that gets a zombie has FSIG_CHLD pending at its end, or a thread of it that waited for it runs. |
| `KernelSignals.ExitTold` | src/k_startup/src/state.c:280-413 | The same of an exit, whose orphaned zombies the root is told of. |
| `KernelEvents.PendingStays` | src/k_startup/src/state.c:134-1076 | In every event, a pending signal of a process that lives on stays pending unless a thread of it consumes or clears it; what is consumed or cleared is pending no more; a new one was sent; and a mask changes only by the call that asks for it. |
| `KernelEvents.SignalTaken` | src/k_startup/src/state.c:751-823 | A signal is handed out only to a thread that waits for it, when it is pending, as the lowest of those wanted; then exactly that one is gone. |
| `KernelEvents.MaskReplaced` | src/k_startup/src/state.c:731-749 | The answer to a new mask is the old one, and nothing but the mask changes. |
| `KernelEvents.StatusStays` | src/k_startup/src/state.c:134-1076 | In every event, whoever has exited keeps its status until its parent reaps it and gets that status; whoever exits does so with the status it gives, or the one of a forced exit. |
| `KernelEvents.ZombiesTold` | src/k_startup/src/state.c:134-1076 | In every event, every process that gets a zombie is told of it. |
| `KernelEvents.ForkedChild` | src/k_startup/src/state.c:196-278 | After a fork the child lives, with no children, no signal allowed or pending, and one thread, which runs last; the caller has one child more, and all others are what they were. |
| `KernelEvents.ReapedGone` | src/k_startup/src/state.c:426-525 | After a zombie is reaped nothing of it is left, and all others are what they were. |
| `KernelHistories.ReapedStatus` | src/k_startup/src/state.c:336-525 | In every run, the status that a parent gets of a child is the one with which that child has exited, in an earlier event. |
| `KernelHistories.NoSignalLost` | src/k_startup/src/state.c:134-1076 | In every run, a signal stays pending as long as its process is there and no thread of it takes it, over any number of events. |
| `KernelHistories.SleepsExactly` | src/k_startup/src/state.c:134-177 | In every run, a thread that goes to sleep for n ticks sleeps on through any events for n - 1 ticks of the clock and runs at the n-th, also when the clock wraps; 0 counts as 1. |
| `KernelHistories.TickPasses` | src/k_startup/src/state.c:134-177 | At a tick a sleeper runs if it has at most one tick to go, and has one less to go otherwise. |
| `KernelHistories.SleepsOn` | src/k_startup/src/state.c:881-903 | No call of another thread disturbs a sleeper whose process lives on. |
| `KernelHistories.TurnsComeRound` | src/k_startup/src/state.c:134-177 | Over the ticks that wake nobody every thread in the ring has its turn, in order. |
| `KernelAnswers.Served` | src/k_startup/src/state.c:196-1076 | For every call of the running thread what it does and what it answers, case by case: whom it forks, ends, reaps, joins or starts, which signals are pending afterwards, and in which queue the caller sleeps; unless the call takes the system down. |
| `KernelShutdown.ZombieSignalShutsDown` | src/k_startup/src/state.c:622-730 | From boot, the events in which the root allows the child signal, forks, is scheduled past, the child exits and the root signals it, with any signal at all, are those of exactly one run: before the signal the system is up and the child a zombie, after it the system is down. |
| `KernelFalls.DownExactly` | src/k_startup/src/state.c:134-1076 | The system goes down if and only if no thread runs, a signal cannot be sent, or a process exits, by itself or by a signal or mask it does not bear, that is the root, or whose end reaches a root that has FSIG_CHLD neither allowed nor pending: because it leaves zombies, or its parent does not bear the signal either. |
| `KernelFalls.ExitFalls` | src/k_startup/src/state.c:336-413 | The exit of a live process does not fail, and takes the system down exactly so, however long the chain of forced exits. |
| `KernelFalls.TellFalls` | src/k_startup/src/state.c:622-690 | A process that gets a zombie takes the system down if and only if neither it nor the root bears FSIG_CHLD. |
| `KernelFalls.SignalFalls` | src/k_startup/src/state.c:622-690 | A signal to a live process takes the system down if and only if it is neither allowed nor pending and the forced exit does. |
| `KernelInPlace.Kernel.Handle` | src/k_startup/src/state.c:134-1076 | The kernel updated in place makes exactly the transition of the model for every one of these events, and keeps the invariant. |
| `KernelInPlace.Kernel.ExitProc` | src/k_startup/src/state.c:336-414 | The loops over threads and lists do what the recursive model of exit says, recursion included. |
| `KernelInPlace.Kernel.SignalProc` | src/k_startup/src/state.c:622-690 | The same for a signal. |
| `KernelInPlace.Kernel.AbandonChildren` | src/k_startup/src/state.c:280-334 | Both child lists go to the root, whose zombies' arrival is signalled. |
| `KernelInPlace.Kernel.ReapProc` | src/k_startup/src/state.c:426-525 | Any zombie or a given one is taken from the caller's zombies, and its threads, queues and table entry disappear. |
| `KernelInPlace.Kernel.ForkProc` | src/k_startup/src/state.c:196-278 | The child gets a copy of the calling thread, scheduled, and is the newest child of the caller. |
| `KernelInPlace.Kernel.WaitForSignal` | src/k_startup/src/state.c:751-811 | A pending signal of the set is consumed, the lowest first; otherwise the thread sleeps. |
| `KernelInPlace.Kernel.AllowSignal` | src/k_startup/src/state.c:731-749 | Forbidding a pending signal makes the process exit. |
| `KernelInPlace.Kernel.JoinThread` | src/k_startup/src/state.c:1014-1076 | The lowest exited thread of the set is joined and deleted; otherwise the caller sleeps. |
| `KernelInPlace.Kernel.ExitLocalThread` | src/k_startup/src/state.c:942-1012 | The main thread takes the process along; any other goes to its first joiner, or waits for one. |
| `KernelInPlace.Kernel.ClockTick` | src/k_startup/src/state.c:134-177 | The due sleepers are scheduled in order, then the ring advances unless the system was halted. |
| `KernelInPlace.Kernel.DetachThreads` | src/k_startup/src/state.c:336-365 | The loop over the threads equals detaching all of them at once. |
| `KernelInPlace.Kernel.ThreadDetach` | src/k_startup/src/thread.c:118-129 | Only the thread's own queue or the ring changes. |
| `FatChains.ChainAcyclic` | src/s_block_device/src/fat32.c:505-541 | A chain that ends in an end mark never visits a cluster twice. |
| `FatChains.ChainUnique` | src/s_block_device/src/fat32.c:776-815 | There is one chain only from a cluster. |
| `FatChains.FreeWalk` | src/s_block_device/src/fat32.c:505-541 | Freeing terminates on every table, cyclic and malformed ones too: the non-zero slots get fewer. |
| `FatChains.FreeWhole` | src/s_block_device/src/fat32.c:505-541 | On a chain it clears exactly the slots of the chain. |
| `FatChains.FreeOnlyClears` | src/s_block_device/src/fat32.c:505-541 | On any table it does nothing but clear slots. |
| `FatChains.FreeSucceedsOnChains` | src/s_block_device/src/fat32.c:505-541 | Where it succeeds there was a well-formed chain. |
| `FatChains.ReplacedKeeps` | src/s_block_device/src/fat32.c:627-774 | When one chain is replaced by another over its own and free slots, all chains together stay disjoint and cover every used slot. |
| `FatChains.OtherChainStays` | src/s_block_device/src/fat32.c:690-774 | No other chain is touched. |
| `FatChains.Append` | src/s_block_device/src/fat32.c:758-773 | Linking the last cluster to the head of a disjoint chain gives their concatenation. |
| `FatChains.Cut` | src/s_block_device/src/fat32.c:719-742 | An end mark behind the n-th cluster and freeing the rest leaves the first n clusters and frees exactly the others. |
| `FatDevices.FatDevice.FreeChain` | src/s_block_device/src/fat32.c:505-541 | The loop is the walk above, and queued slots stay free. |
| `FatDevices.FatDevice.PopulateFreeQueue` | src/s_block_device/src/fat32.c:551-598 | A queue that is not empty stays; else it holds exactly the free slots of the first drawn sector that has any, in order. No space is reported if and only if five sectors were drawn and none has a free slot. |
| `FatDevices.FatDevice.PopFreeSlot` | src/s_block_device/src/fat32.c:600-625 | The last queued slot becomes a chain of one cluster and nothing else changes; no space is reported only when the queue is empty and five drawn sectors have no free slot. |
| `FatDevices.FatDevice.TightInside` | src/s_block_device/src/fat32.c:551-598 | On a table whose last sector holds one of its slots, every queued slot is one of the table, so that nothing that is queued is refused. |
| `FatDevices.FatDevice.NewChain` | src/s_block_device/src/fat32.c:627-688 | A chain of exactly the requested length over free slots. It succeeds whenever as many slots are queued; without space the table is as before, and the last five sectors drawn had fewer free slots than requested. |
| `FatDevices.FatDevice.ResizeChain` | src/s_block_device/src/fat32.c:690-774 | The old chain cut to a prefix, or followed by fresh clusters up to the length. It succeeds whenever the missing slots are queued; without space the table is as before, and the last five sectors drawn had fewer free slots than are missing. No other chain is touched; for any slot at all, the queue of free slots survives if and only if the slot where the length ends is not queued. |
| `FatDevices.QueuedSlotEnds` | src/s_block_device/src/fat32.c:690-774 | A queued slot that is resized to length 1 is one where the queue does not survive. |
| `FatDevices.FatDevice.Traverse` | src/s_block_device/src/fat32.c:776-815 | The loop computes the walk that indexes the chain. |
| `FatDevices.WalkIndexes` | src/s_block_device/src/fat32.c:776-815 | n links from the head give the n-th cluster, and an error exactly past the end. |
| `FatDevices.ScanInTable` | src/s_block_device/src/fat32.c:551-598 | The search for free slots stays inside the table if and only if its last sector holds a slot of the table. |
| `FatDevices.ScanLeavesTable` | src/s_block_device/src/fat32.c:551-598 | In a table of two sectors for 100 slots, which is not of that shape, what would be slot 128 is looked at. |
| `CachedDevices.CachedDevice.Read` | src/s_block_device/src/cached_block_device.c:107-165 | A range read gives the cached copy of each sector, or else the disk's; bad ranges change nothing. |
| `CachedDevices.CachedDevice.Write` | src/s_block_device/src/cached_block_device.c:167-221 | A range write changes exactly these sectors as a client sees them. |
| `CachedDevices.CachedDevice.GetCacheEntry` | src/s_block_device/src/cached_block_device.c:230-276 | Loading a sector, with eviction and write-back of a random one, leaves the view as it was; map and slots stay inverse. A cached sector stays where it is, and as long as a slot is free nothing is evicted or written. |
| `CachedDevices.CachedDevice.Load` | src/s_block_device/src/cached_block_device.c:230-276 | A sector that is not cached gets a free slot, or else the slot of a random one, which is written back first. |
| `CachedDevices.CachedDevice.ReadPiece` | src/s_block_device/src/cached_block_device.c:278-306 | Bytes of one sector as a client sees it; the sector is cached then, and the disk is not written if it was before. |
| `CachedDevices.CachedDevice.WritePiece` | src/s_block_device/src/cached_block_device.c:308-336 | Exactly these bytes of one sector change for a client, in the cache; the disk is not written if the sector was cached before. |
| `CachedDevices.CachedDevice.Flush` | src/s_block_device/src/cached_block_device.c:338-387 | The view is unchanged and now is what the disk holds; the cache is empty. |
| `CachedDevices.RangeTest` | src/s_block_device/src/cached_block_device.c:107-120 | The range test with 32-bit wrap-around refuses exactly the ranges that leave the device. |
| `FatLayout.NarrowCount` | src/s_block_device/src/fat32.c:817-909 | A write inside the file does what it should, and answers success, if and only if it is of at most 255 sectors: the rest is narrowed to eight bits. |
| `FatLayout.NarrowRead` | src/s_block_device/src/fat32.c:817-909 | The same of a read. |
| `FatLayout.NarrowContent` | src/s_block_device/src/fat32.c:817-909 | The sectors are the right ones for up to 255; for any more there is one in the range that a write leaves as it was. |
| `FatLayout.WriteSucceeds` | src/s_block_device/src/fat32.c:817-909 | At any offset and of any length, a write answers success if and only if it is of at most 255 sectors and ends inside the file. |
| `FatLayout.ReadSucceeds` | src/s_block_device/src/fat32.c:817-909 | The same of a read. |
| `FatLayout.WriteRunIs` | src/s_block_device/src/fat32.c:817-909 | Up to 255 sectors the walk over the clusters writes the whole range and no more. |
| `FatLayout.ReadRunIs` | src/s_block_device/src/fat32.c:817-909 | Up to 255 sectors it reads the whole range. |
| `FatLayout.OtherFileStays` | src/s_block_device/src/fat32.c:817-909 | Files over disjoint chains do not share a sector. |
| `FatFiles.FatVolume.WriteSectors` | src/s_block_device/src/fat32.c:817-909 | The loop over the clusters is the walk above on the file's sectors, so it succeeds if and only if it is of at most 255 sectors and ends inside the file; sectors of other chains stay. |
| `FatFiles.FatVolume.ReadSectors` | src/s_block_device/src/fat32.c:817-909 | The same for reading. |
| `FatFiles.FatVolume.ReadPiece` | src/s_block_device/src/fat32.c:911-964 | A piece of the file's n-th sector, over whichever cluster holds it. |
| `FatFiles.FatVolume.WritePiece` | src/s_block_device/src/fat32.c:911-964 | Exactly these bytes of that sector change, in this file and on the device. |
| `FatByteFiles.FatByteVolume.WriteFile` | src/s_block_device/src/fat32_file_sys.c:796-902 | It succeeds if and only if the range lies in the file and has at most 255 whole sectors between head and tail piece, or is empty; then exactly that range of the file's bytes is overwritten. Other chains keep their sectors. |
| `FatByteFiles.FatByteVolume.ReadFile` | src/s_block_device/src/fat32_file_sys.c:796-902 | It succeeds if and only if the same holds, and then gives exactly that range of the file's bytes. |
| `FatByteFiles.FatByteVolume.ResizeFile` | src/s_block_device/src/fat32_file_sys.c:912-973 | The new chain has the clusters the size needs, and the bytes both chains have room for are the same. It succeeds whenever the missing clusters are queued; no space means that the last five sectors drawn had fewer free slots than are missing. |
| `FatByteFiles.ClustersSuffice` | src/s_block_device/src/fat32_file_sys.c:912-973 | That number of clusters holds the bytes, and one less would not. |
| `FatByteFiles.PrefixKept` | src/s_block_device/src/fat32_file_sys.c:912-973 | Chains that begin alike hold files that begin alike. |
| `FatDirEntries.NameReadsBack` | src/s_block_device/src/fat32_dir.c:559-666 | A zero-free name laid out over long-name entries is read back as that name, multiples of 13 included. |
| `FatDirShape.AddKeeps` | src/s_block_device/src/fat32_dir.c:206-307 | A sequence written over free entries adds exactly one file of that name; all other files keep place, entries and name; the directory stays well formed. |
| `FatDirShape.EraseKeeps` | src/s_block_device/src/fat32_dir.c:329-407 | Erasing a sequence removes exactly that file. |
| `FatDirShape.PushKeeps` | src/s_block_device/src/fat32_dir.c:85-204 | Pushing the terminator back, over stale bytes too, exposes free entries only: no file appears, disappears or changes. |
| `FatDirShape.OtherFilesSame` | src/s_block_device/src/fat32_dir.c:206-407 | Files outside the entries that change keep their sequence and name. |
| `FatDirReads.FatDirReader.NextSeq` | src/s_block_device/src/fat32_dir.c:409-486 | The first entry in use from the offset on, across clusters, if it comes before the end. |
| `FatDirReads.FatDirReader.SeqSfn` | src/s_block_device/src/fat32_dir.c:488-557 | The short-name entry that ends the sequence at the offset, or malformed. |
| `FatDirReads.FatDirReader.SeqLfn` | src/s_block_device/src/fat32_dir.c:559-666 | The name of a stored file is exactly the one its long-name entries hold, read backwards and across clusters. |
| `FatDirReads.FatDirReader.NextFile` | src/s_block_device/src/fat32_dir.c:740-804 | The files of a well-formed directory are stepped through in order and none is left out. |
| `FatDirReads.FatDirReader.FindLfn` | src/s_block_device/src/fat32_dir.c:740-804 | A name is found if and only if it is stored, and the first such file is returned. |
| `FatDirReads.FatDirReader.FindSfn` | src/s_block_device/src/fat32_dir.c:692-738 | The same for short names. |
| `FatDirVolumes.FatDirVolume.ReadEntry` | src/s_block_device/src/fat32_dir.c:41-62 | An entry relative to any cluster of the chain is that entry of the directory. |
| `FatDirVolumes.FatDirVolume.WriteEntry` | src/s_block_device/src/fat32_dir.c:64-83 | Exactly that entry changes, and no sector of another chain. |
| `FatDirSteps.LfnEntryBytes` | src/s_block_device/src/fat32_dir.c:260-303 | The k-th entry of a long name byte by byte: its number from 1, with 0x40 on the one that is read first, attributes, type, checksum and reserved bytes, and the 13 characters at their offsets, low byte first, padded with zeros. |
| `FatDirSteps.ChecksumRotates` | src/s_block_device/src/fat32.c:7-17 | The checksum starts at 0, and for each of the 11 bytes it is rotated right by one bit and the byte is added, modulo 256. |
| `FatDirs.FatDir.FreeSeq` | src/s_block_device/src/fat32_dir.c:85-204 | The first place before the terminator where enough entries in a row are free, found or made, with all files as before. It is refused only when no such place is left: the directory has grown by every queued cluster, and the last five sectors drawn have no free slot. |
| `FatDirs.FatDir.NewSeq` | src/s_block_device/src/fat32_dir.c:206-307 | The directory gets a file of that name, at the first place where it fits, and keeps all others; other chains are untouched. A name that is too long is rejected; else it is refused only when there is no place in all the entries, every queued cluster has been added and no more can be had, and then it keeps the files it has. |
| `FatDirs.FatDir.EraseSeq` | src/s_block_device/src/fat32_dir.c:329-407 | From the start of a sequence all its entries become unused and nothing else changes; inside a sequence nothing happens. |
| `FatDirs.EraseOfFile` | src/s_block_device/src/fat32_dir.c:329-407 | At a file's start in a well-formed directory that is the removal of exactly this file. |
| `FatDirs.FatDir.NewDir` | src/s_block_device/src/fat32_dir.c:15-39 | A chain of one cluster that is a well-formed directory without files, whenever a slot is queued; no space means that the queue was empty and no slot could be found; on failure nothing changes. |
| `FatDirs.FatDir.Place` | src/s_block_device/src/fat32_dir.c:231-307 | The entries written last to first are the sequence of the name, at the place that was found. |
| `PageMemory.Pager.AssignFreePage` | src/k_startup/src/page.c:515-530 | One window slot changes and its old frame is returned. |
| `PageMemory.Pager.PushFreePage` | src/k_startup/src/page.c:536-547 | The frame heads the list, whose length is exact, and the windows are as before. |
| `PageMemory.Pager.PopFreePage` | src/k_startup/src/page.c:549-564 | The head of the list, or the null frame exactly when it is empty. |
| `PageMemory.Pager.PtAllocRange` | src/k_startup/src/page.c:590-635 | Every entry up to the reported end has a frame of its own that was free; the rest of memory is as before; it stops at a present entry or when no frame is left. |
| `PageMemory.Pager.PtFreeRange` | src/k_startup/src/page.c:637-670 | The entries are cleared and exactly the frames they owned are free. |
| `PageMemory.Pager.PageCopy` | src/k_startup/src/page_helpers.c:7-18 | The destination has the bytes of the source and the windows are as before. |
| `PageMemory.Pager.PtCopyRange` | src/k_startup/src/page_helpers.c:52-119 | Deep copies of unique pages and the same entries for others, for exactly as many frames as there are unique pages; or on any failure mapping, frames and contents as before. Memory runs out only when there are fewer free frames than that, and pages are in the way only when an entry of the destination is present. |
| `PageRanges.CopyUndone` | src/k_startup/src/page_helpers.c:52-119 | Freeing what a copy has made so far gives back every frame and the old mapping. |
| `PageViews.TableChanged` | src/k_startup/src/page.c:676-804 | When one table changes, exactly the pages of its directory entry change in the directory's view. |
| `PageViews.OtherViewsKept` | src/k_startup/src/page.c:676-804 | The view of every other directory is untouched. |
| `PageCosts.OwnedSize` | src/k_startup/src/page_helpers.c:254-276 | What a walk over the pages of an address space counts, one for each unique page and each table, is the number of frames that the directory owns. |
| `PageCosts.EmptyTakesAll` | src/k_startup/src/page_helpers.c:254-276 | A copy into an empty directory takes as many frames. |
| `PageDirectories.PdAllocPages` | src/k_startup/src/page.c:676-721 | Pages up to the reported end are mapped to frames that were free, in tables made where missing; nothing else is remapped. |
| `PageDirectories.PdFreePages` | src/k_startup/src/page.c:740-795 | The pages are unmapped, what they owned is free, and tables that are fully in the range are freed too. |
| `PageDirectories.PdCopyRange` | src/k_startup/src/page_helpers.c:143-245 | A deep copy of the range, for exactly one frame for each unique page and each missing table; or on any failure the same mapping view, the source untouched and no frame lost but to empty tables. Memory runs out only when there are fewer free frames than that, and pages are in the way only where the destination maps one in a table that the range touches. |
| `PageDirectories.CopyPageDirectory` | src/k_startup/src/page_helpers.c:254-276 | A new address space that is a deep copy of all pages, or no frame used at all: it fails if and only if there are fewer free frames than the directory, its tables and its unique pages, and takes exactly as many. |
| `PageDirectories.DeletePageDirectory` | src/k_startup/src/page.c:805-810 | Directory, tables and unique pages are free, and nothing else is. |
| `PageDirectories.CopyThenDelete` | src/k_startup/src/page_helpers.c:254-276 | Copying an address space and deleting the copy gives back exactly the set of free frames. |
| `PageDirectories.NothingLost` | src/k_startup/src/page_helpers.c:254-276 | A failed copy that is deleted has changed no frame's use. |
| `PageDirectories.GetUnderlying` | src/k_startup/src/page_helpers.c:20-46 | The frame behind a page, or none, with the borrowed window restored. |
| `UserCopies.UserSpace.CopyTo` | src/k_startup/src/page_helpers.c:284-333 | As far as pages are mapped the user's bytes become those of the buffer and no other byte changes; the count is exact; a piece leaves its page or the copy if and only if the copy reaches the wrong byte. |
| `UserCopies.UserSpace.CopyFrom` | src/k_startup/src/page_helpers.c:284-333 | The buffer gets exactly the mapped prefix of the user's bytes, under the same condition. |
| `UserCopies.UserSpace.SetTo` | src/k_startup/src/page_helpers.c:345-383 | The mapped prefix is filled and nothing else, wherever it lies. |
| `UserCopies.Wrong` | src/k_startup/src/page_helpers.c:284-333 | No byte is wrong if and only if the copy is empty, ends at or before the last page, or begins in that page and runs at least to its end, and at most to the start of that page again. |
| `UserCopies.StraysAtOnce` | src/k_startup/src/page_helpers.c:284-333 | A copy from the second page to the end of the address space goes astray with its first piece, which is the whole copy. |
| `UserCopies.TurnsWrong` | src/k_startup/src/page_helpers.c:284-333 | The 32-bit arithmetic for a piece is right before that byte and wrong at it. |
| `UserCopies.WrittenReads` | src/k_startup/src/page_helpers.c:284-333 | What was copied to a user is what is copied back. |
| `FutexMutex.MutualExclusion` | src/u_concur/src/mutex.c:20-58 | In every interleaving of any number of threads at most one holds the mutex. |
| `FutexMutex.UnlockNeverFails` | src/u_concur/src/mutex.c:42-58 | The mismatch branch is never reached by a holder. |
| `FutexMutex.NoLostWakeup` | src/u_concur/src/mutex.c:20-58 | While a thread sleeps, the word is contended and somebody owns it, or an unlocker has yet to wake all. |
| `FutexMutex.NobodyStuck` | src/u_concur/src/mutex.c:20-58 | When no thread can move, none is asleep and the mutex is free. |
| `FutexMutex.LockAlone` | src/u_concur/src/mutex.c:20-58 | Whoever wants a free mutex gets it within three steps, when no other thread moves. |
| `FutexMutex.UnlockAlone` | src/u_concur/src/mutex.c:42-58 | Whoever holds the mutex has given it back within three steps, and whoever slept on a contended one tries again. |
| `FutexMutex.WakesAll` | src/u_concur/src/mutex.c:42-58 | One wake-up moves every sleeper on. |
| `FutexMutex.RunInv` | src/u_concur/src/mutex.c:20-58 | The invariant behind these holds in every state of every run. |
| `FutexMutex.NextInv` | src/u_concur/src/mutex.c:20-58 | Every step, wait failure and deregistration keeps it. |
| `FutexPlugins.FutexPlugin.Wait` | src/k_startup/src/plugin_fut.c:205-242 | The caller sleeps, last in the queue, if and only if the futex is known, still holds the value and there is memory; no other futex is affected. |
| `FutexPlugins.FutexPlugin.Wake` | src/k_startup/src/plugin_fut.c:249-291 | The first sleeper, or all, run again in their order. |
| `FutexPlugins.FutexPlugin.Deregister` | src/k_startup/src/plugin_fut.c:146-190 | All sleepers run again and the futex is unknown afterwards. |
| `FutexPlugins.FutexPlugin.Register` | src/k_startup/src/plugin_fut.c:104-134 | A futex gets a queue of its own, unless it is null, known, unreadable or there is no memory. |
| `FutexPlugins.FutexPlugin.OnFork` | src/k_startup/src/plugin_fut.c:300-322 | A child starts without futexes and its parent's are untouched. |
| `FutexPlugins.FutexPlugin.OnReap` | src/k_startup/src/plugin_fut.c:387-419 | The futexes of a process that has exited go, and nobody was asleep on them. |
| `FutexPlugins.FutexPlugin.MutexWait` | src/k_startup/src/plugin_fut.c:205-242 | The wait of a lock is the step of the protocol on the kernel's own queue, or, without memory, the step in which the wait fails. |
| `FutexPlugins.FutexPlugin.MutexWake` | src/k_startup/src/plugin_fut.c:249-291 | The wake of an unlock is the step of the protocol. |
| `FutexPlugins.FutexPlugin.MutexCleanup` | src/k_startup/src/plugin_fut.c:146-190 | So is a deregistration. |
| `Pipes.Pipe.Write` | src/k_startup/src/plugin_pipe.c:190-276 | The bytes accepted are appended to what the pipe holds, at most its room and as far as the user memory goes; readers are woken if and only if it was empty. |
| `Pipes.Pipe.Read` | src/k_startup/src/plugin_pipe.c:308-382 | The bytes read are the front of what it holds: over all calls what was read followed by what is left is what was written. |
| `Pipes.Pipe.WaitWriteReady` | src/k_startup/src/plugin_pipe.c:162-188 | A writer sleeps if and only if the pipe is full and has a reader. |
| `Pipes.Pipe.WaitReadReady` | src/k_startup/src/plugin_pipe.c:278-306 | A reader sleeps if and only if it is empty and has a writer. |
| `Pipes.Pipe.NeverBoth` | src/k_startup/src/plugin_pipe.c:117-382 | Readers and writers never wait at the same time; the indices say empty and full exactly. |
| `Pipes.Pipe.DeleteHandle` | src/k_startup/src/plugin_pipe.c:117-160 | The last handle of a kind wakes everybody who waits, each side with its own code; the pipe goes if and only if no handle of either kind is left, and then nobody waits. |
| `Pipes.Pipe.CopyHandle` | src/k_startup/src/plugin_pipe.c:90-115 | A copied handle counts for its side. |
| `Pipes.Pipe.CopyIn` | src/k_startup/src/plugin_pipe.c:190-276 | A contiguous copy that stops early appends what it got, and wraps the index. |
| `Pipes.Pipe.CopyOut` | src/k_startup/src/plugin_pipe.c:308-382 | The same at the reading end. |
| `SearchTrees.SearchTree.Add` | src/s_data/src/binary_search_tree.c:308-358 | Nothing is added if and only if an equal element is there or memory is missing; otherwise the element stands after all below and before all above it, the others stay in order, and the values still go up. |
| `SearchTrees.SearchTree.RemoveNode` | src/s_data/src/binary_search_tree.c:411-457 | Exactly one element leaves the in-order sequence, and all parent and child links are right again. |
| `SearchTrees.SearchTree.PickMinimum` | src/s_data/src/binary_search_tree.c:378-409 | A detached subtree keeps its order with its minimum as the root and no left child. |
| `SearchTrees.SearchTree.Next` | src/s_data/src/binary_search_tree.c:76-103 | The element that follows in order, or null behind the last. |
| `SearchTrees.SearchTree.Min` | src/s_data/src/binary_search_tree.c:48-60 | The first element in order, or null. |
| `SearchTrees.SearchTree.Find` | src/s_data/src/binary_search_tree.c:14-35 | An element equal to any value at all, if and only if there is one. |
| `SearchTrees.SearchTree.Climb` | src/s_data/src/binary_search_tree.c:76-103 | Climbing until it comes from the left finds what follows a subtree. |
| `SearchTrees.SearchTree.SetKey` | src/k_startup/src/plugin_shm.c:193-316 | A value that changes where it stands, but compares as before, keeps the tree. |
| `SearchTrees.LawfulAligned` | src/s_data/src/binary_search_tree.c:14-35 | In a sorted order the walk down can go wrong for no value: below an element is below all that follow, above one is above all before. |
| `SearchTrees.AddedSorted` | src/s_data/src/binary_search_tree.c:308-358 | An element between those below and those above it leaves the values sorted. |
| `SearchTrees.ReplaceLinked` | src/s_data/src/binary_search_tree.c:411-457 | Hooking another subtree under a node's parent leaves all other links right. |
| `SearchTrees.DropLinked` | src/s_data/src/binary_search_tree.c:378-409 | Unhooking the leftmost node leaves the rest linked. |
| `SharedRanges.NothingFitsBefore` | src/k_startup/src/plugin_shm.c:34-59 | No place below a gap fits when all gaps before it are too small. |
| `SharedRanges.NothingFits` | src/k_startup/src/plugin_shm.c:34-59 | No place fits at all when every gap is too small. |
| `SharedRanges.MappedWhileHeld` | src/k_startup/src/plugin_shm.c:103-108 | A byte is mapped if and only if the kernel or a process holds its range. |
| `SharedRanges.OneRange` | src/k_startup/src/plugin_shm.c:34-59 | No byte lies in two ranges. |
| `SharedRanges.SettledAt` | src/k_startup/src/plugin_shm.c:180-316 | A change of one range's holders is seen at exactly its bytes, also when it is collected. |
| `SharedRanges.ReapedAt` | src/k_startup/src/plugin_shm.c:735-789 | A reaped process holds nothing, all others what they held, and only ranges nobody holds are gone. |
| `SharedRanges.ForkedAt` | src/k_startup/src/plugin_shm.c:697-744 | A child holds at every byte what its parent holds. |
| `SharedRanges.ForkThenReap` | src/k_startup/src/plugin_shm.c:700-789 | Forking and reaping the child gives the same ranges again. |
| `SharedRanges.InsertedAt` | src/k_startup/src/plugin_shm.c:125-182 | A new range is seen at exactly its bytes. |
| `SharedMemories.CmpLawful` | src/k_startup/src/plugin_shm.c:9-29 | The comparison by overlap is an order on ranges that are not empty, and places every other pair of addresses among them, the one whose end wraps included. |
| `SharedMemories.SharedMemory.FindShmStart` | src/k_startup/src/plugin_shm.c:34-59 | The lowest place that fits, or null if and only if none fits anywhere in the area. |
| `SharedMemories.SharedMemory.NewShm` | src/k_startup/src/plugin_shm.c:125-182 | On success one aligned range is added at that place, held once by the kernel. Every answer comes exactly in its case: bad arguments, no space, a node that cannot be had, no memory for the pages, or the fatal one; for the first four the ranges are as before. No range overlaps another. |
| `SharedMemories.SharedMemory.IncShm` | src/k_startup/src/plugin_shm.c:193-208 | The range of the byte gets one more hold, or the byte lies in none. |
| `SharedMemories.SharedMemory.DecShm` | src/k_startup/src/plugin_shm.c:221-232 | One hold less, and the range leaves the tree with the last. |
| `SharedMemories.SharedMemory.MapShm` | src/k_startup/src/plugin_shm.c:245-279 | The process is added to the holders if and only if it exists, has not mapped the range and the pages can be copied. |
| `SharedMemories.SharedMemory.UnmapShm` | src/k_startup/src/plugin_shm.c:289-316 | The process holds the range no more, which leaves the tree with its last holder. |
| `SharedMemories.SharedMemory.CheckGc` | src/k_startup/src/plugin_shm.c:103-108 | The range leaves the tree if and only if nobody holds it. |
| `SharedMemories.SharedMemory.ForkProc` | src/k_startup/src/plugin_shm.c:697-744 | The walk over the tree adds the child wherever the parent is. |
| `SharedMemories.SharedMemory.ReapProc` | src/k_startup/src/plugin_shm.c:746-792 | The walk takes the process out everywhere although nodes are removed under way. |
| `SharedMemories.SharedMemory.OpenShm` | src/k_startup/src/plugin_shm.c:645-674 | A process gets a range it alone holds, or after any failure but a fatal one the ranges are as before; success exactly when every part succeeds. |
| `SharedMemories.SharedMemory.AddRange` | src/k_startup/src/plugin_shm.c:150-162 | A range that overlaps none is never refused as already there. |
| `Semaphores.Semaphore.Dec` | src/k_startup/src/plugin_shm.c:466-501 | A pass is taken or the caller sleeps, last in the queue; nobody sleeps while a pass is there, and only threads of users sleep. |
| `Semaphores.Semaphore.Inc` | src/k_startup/src/plugin_shm.c:514-565 | The pass goes to the first waiter, which runs behind all others, or back, never beyond the maximum; no other queue and no other thread changes. |
| `Semaphores.Semaphore.Close` | src/k_startup/src/plugin_shm.c:580-623 | The waiters of the closing process run again, all others keep waiting in order, and the semaphore goes with its last user, when nobody waits for it. |
| `Semaphores.Semaphore.OnFork` | src/k_startup/src/plugin_shm.c:711-726 | A child can use what its parent can. |
| `Semaphores.Semaphore.OnReap` | src/k_startup/src/plugin_shm.c:758-774 | A reaped process uses the semaphore no more, which goes with its last user; no thread of the process was waiting. |
| `IdTables.IdTable.PopId` | src/s_data/src/id_table.c:186-201 | An unused ID, without data; the null ID if and only if all are taken or there is no memory to grow. Every other ID keeps its data. |
| `IdTables.IdTable.RequestId` | src/s_data/src/id_table.c:119-184 | That very ID, without data, or the error that says why not; every other ID keeps its data. |
| `IdTables.IdTable.PushId` | src/s_data/src/id_table.c:203-244 | An allocated ID is free again and its data gone, others are ignored; every other ID keeps its data. |
| `IdTables.IdTable.Resize` | src/s_data/src/id_table.c:77-117 | Growing puts exactly the new IDs before the free ones; the allocated IDs and their data stay, also when it fails. |
| `IdTables.IdTable.NextId` | src/s_data/src/id_table.c:254-264 | The iteration visits each allocated ID once, in list order. |
| `IdTables.IdTable.ResetIterator` | src/s_data/src/id_table.c:246-248 | The iteration starts at the first allocated ID. |
| `IdTables.IdTable.Get` | src/s_data/include/s_data/id_table.h:142-148 | The data of an allocated ID, which is what was set last, and none for others. |
| `IdTables.IdTable.Set` | src/s_data/include/s_data/id_table.h:155-159 | The data of an allocated ID changes, of no other ID, and no links. |
| `IdTables.IdTable.DataOfUsed` | src/s_data/src/id_table.c:77-233 | Exactly the allocated IDs have data. |
| `IdTables.UnlinkKeeps` | src/s_data/src/id_table.c:147-163 | Unlinking a cell leaves a doubly linked list without it. |
| `IdTables.PushKeeps` | src/s_data/src/id_table.c:165-184 | Pushing a cell leaves a doubly linked list with it in front. |
| `IdTables.GrowKeeps` | src/s_data/src/id_table.c:77-117 | The fresh cells in front of the free list are linked in order. |
| `HashMaps.ChainedHashMap.Put` | src/s_data/src/map.c:187-252 | The mathematical map is updated at the key, in place or by a new node; only a missing node's memory fails, and then nothing changes. The table grows only for a new key, and exactly when it is too full. |
| `HashMaps.ChainedHashMap.Remove` | src/s_data/src/map.c:254-281 | The key leaves the map, and the answer says whether it was there. |
| `HashMaps.ChainedHashMap.Get` | src/s_data/src/map.c:163-185 | The value of the map, or empty exactly for a key that is not in it. |
| `HashMaps.ChainedHashMap.GetNode` | src/s_data/src/map.c:142-161 | A node if and only if the key is in the map. |
| `HashMaps.ChainedHashMap.TryResize` | src/s_data/src/map.c:88-135 | A rehash keeps map and length, every key in the bucket of its hash, and all links; the table doubles if and only if it is too full, the doubled size fits in 32 bits and there is memory. |
| `HashMaps.ChainedHashMap.NextIter` | src/s_data/src/map.c:353-377 | From an entry, the one that follows in the order of buckets and chains, or empty behind the last; a value asked of a set is a bad argument and the iterator stays. |
| `HashMaps.ChainedHashMap.GetIter` | src/s_data/src/map.c:323-351 | The entry of the iterator, empty when the iteration has ended, or a bad argument for a value asked of a set. |
| `HashMaps.ChainedHashMap.ResetIter` | src/s_data/src/map.c:310-321 | The first entry in that order. |
| `HashMaps.FlatOnce` | src/s_data/src/map.c:310-377 | That order visits each entry exactly once. |
| `HashMaps.AllMoved` | src/s_data/src/map.c:88-136 | When all nodes are moved the new table holds them all in their buckets. |
| `HashMaps.MoveNode` | src/s_data/src/map.c:88-136 | Moving one node between two half-filled tables keeps both well linked. |
| `HashMaps.KeyInBucket` | src/s_data/src/map.c:142-161 | A key of the map is found in the bucket of its hash. |

## Left out

- SimpleHeap.Heap.Malloc: what later calls do to a heap that the request of 2^32 - 1 bytes has broken is not modelled; the model ends at that cut.
- SimpleHeap.Heap.Realloc: the same; and pointers other than null, block starts and addresses outside the heap are excluded, as the code reads a tag there that is none.
- SimpleHeap.Heap.Free: excludes the same stray pointers.
- KernelRuns.RunsKeep: exec and the handlers of plugins at ticks, forks and reaps are no events of a run; the futex and shared memory handlers are modelled by themselves.
- KernelRuns.StepKeeps: the same.
- KernelInPlace.Kernel.Handle: the same.
- KernelInPlace.Kernel.ClockTick: the plugin handlers of every sixteenth tick are not modelled.
- FatDevices.FatDevice.PopulateFreeQueue: does not promise to find a free slot when there is one, because the code tries five random sectors only; that these five have none is what no space means throughout.
- FatDevices.FatDevice.ResizeChain: says nothing of the table when the slot does not head a chain, other than that the queue of free slots survives exactly when the cut does not hit it.
- FatByteFiles.FatByteVolume.WriteFile: of a write that does not succeed it says nothing of the file's own bytes, other than for a range outside the file; what the sector walk leaves is given by `FatLayout.WriteRun`. The size kept in the file's entry is a parameter.
- FatByteFiles.FatByteVolume.ReadFile: of a read that does not succeed it says nothing of the buffer; the size is a parameter.
- FatByteFiles.FatByteVolume.ResizeFile: the size is a parameter, and the rewrite of the file's entry with the new size and first cluster is not modelled.
- PageDirectories.PdCopyRange: after a failure empty page tables may have come or gone, so rollback is stated on the mapping view.
- PageDirectories.PdFreePages: returning shared frames asks that nobody else maps them, as the code's callers see to.
- SearchTrees.SearchTree.Add: the value has to be one of those the comparison orders, as the ranges that are not empty are.
- HashMaps.ChainedHashMap.NextIter: a step after the iteration has ended is excluded, as the code reads through the null iterator there (`src/s_data/src/map.c:362`).
- SharedMemories.SharedMemory.MapShm: the copy of page-table entries is a parameter here; it is `PageDirectories.PdCopyRange` elsewhere. Kernel references do not wrap at 2^32.
- The layers of the file system are proved one above the other but not composed into one object: files and directories are stated over an array of sectors, which is what the cached device shows its clients.
- The device under the cache always succeeds, and errors of sector access in the FAT layers are not modelled.
- The top four bits of FAT slots are masked off and not kept; the model writes what the code writes.
- FAT mirrors, boot and info sectors, timestamps, `fat32_fs_new_node`, `fat32_fs_remove` and path walking: format detail, or compositions of modelled operations.
- Process reset by exec, which interferes with semaphore waits.
- Plugins other than futexes, pipes and shared memory, and the handle tables.
- Exit values of threads, saved contexts, stack growth and null user pointers in the system calls.
- A process record is split into maps by process ID, and bit vectors of signals and joins are sets; the waiting and the ready half of a wait queue are one queue in the kernel model, as each call drains the ready half.
- Memory for queue and list entries that runs out inside the kernel state machine.
- The semaphore table: a semaphore is one object, and the IDs that name it are left to the ID table.
- `UserCopies` sees an address space as a map from pages to frames; how that map comes from page tables is `PageDirectories.GetUnderlying`.
- `bst_prev`, `bst_max` and `delete_sbst`: mirror images and a teardown.
- Clearing and deleting containers, and the dump functions.
- Hardware: disk, interrupt and timer controllers, segment tables, boot; and the graphics and the shell.
