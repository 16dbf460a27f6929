# A verified model of the firmware core and its codecs

This project models the parts of the firmware repository whose correctness rests on an argument rather than on one
function body, and proves those arguments: the heap allocator, the FreeRTOS lists and the co-routine scheduler above
them, the event loop and its timers, the expansion protocol, the ownership of Wi-Fi boards, and the calendar, the
package catalog, the command registry, the DfuSe container and the credit channel.

Code that works by changing things step by step is modelled by classes whose methods change fields, and each method
is proved equal to a function on values; the theorems are about those functions. `dafny verify dfyconfig.toml` checks
the whole project.

| file | models | what it proves |
|---|---|---|
| `HeapBlocks.dfy`, `HeapLinks.dfy`, `Heap.dfy` | `furi/core/memmgr_heap.c` | The pointer surgery of malloc and free implements first fit and coalescing on a row of blocks that tile the heap. The row, hence the free list, is a canonical form of the live allocations. |
| `Rings.dfy`, `FreeRtosList.dfy` | `lib/FreeRTOS-Kernel/list.c` | The doubly linked ring, index and sentinel included, implements stable sorted insertion, insertion at the index, and removal. |
| `CoRoutines.dfy`, `CoRoutineTime.dfy`, `CoRoutineEvents.dfy` | `lib/FreeRTOS-Kernel/croutine.c` | A co-routine that delays for d > 0 ticks is ready after exactly d ticks, across any number of wraps of the counter, in every interleaving with other co-routines and events; and an event wakes its waiters by priority and arrival. |
| `Timers.dfy` | `furi/core/event_loop_timer.c` | The timer list stays in deadline order on a clock that wraps, the planned sleep never passes a deadline, and a timer ends as its last request asks. |
| `EventLoop.dfy` | `furi/core/event_loop.c`, `message_queue.c` | No wakeup is lost and every waiting item gets its callback in turn, under any interleaving with producers, where the queue operation and its notification are separate steps. |
| `Bytes.dfy`, `Expansion.dfy` | `dashboard/server/expansion.ts`, `wifi-board-connection.ts` | Decoding does not depend on how the stream is cut; any RPC payload survives the trip; a changed byte is noticed. |
| `ControlPlane.dfy` | `dashboard/server/wifi-control-plane.ts` | A board has an owner exactly while one session holds it, in every interleaving of the awaits. |
| `DateTime.dfy` | `lib/datetime/datetime.c` | Both round trips, with their exact domain, and strict monotonicity. |
| `Catalog.dfy` | `bridge/src/packages.rs` | Conflict marks are right after any operations; additions commute; saving and loading is the identity. |
| `Registry.dfy` | `scripts/marauder_registry.py` | Parsing and serialization are inverse to each other, in both directions. |
| `DfuSe.dfy` | `scripts/bin2dfu.py`, `scripts/update.py` | The parser accepts exactly the layouts of well-formed containers, the writer's output of a non-empty image among them. |
| `Channel.dfy` | `bridge/src/channel.rs` | Over a network that drops, repeats and reorders, the receiver accepts a prefix of what was sent, and credits are conserved. |

## Where the code does not keep what one would expect

Each of these is proved, with the exact condition under which the expected property holds.

- `include/list.h` promises that an item added by `vListInsertEnd` is served after every other. That holds if and only
  if `pxIndex` stands at the end marker; otherwise the item `pxIndex` is on is served after it (`Rings.InsertEndIsLast`, and a
  ring in which it happens in `Rings.NotServedLast`).
- A timer that nobody serves for 2^32 ticks becomes active again. `Timers.RemainingAfter` says exactly when the clamped
  remaining time goes down with the clock; `Timers.StaleTimerRevives` is a concrete instance.
- `event_loop_timer.h` promises that a restart uses the previously set interval. Behind a start that is still queued it
  uses the one before (`Timers.RestartForgets`).
- A thread-flag notification is lost when it is taken together with a pending callback and neither an event nor a
  timer flag (`EventLoop.WhatIsKept`, and a run in which it happens in `EventLoop.ThreadFlagLost`).
- `furi_event_loop_stop` swallows the flags taken with it. No later run of the loop misses anything if and only if, when
  it is run again, whatever is outstanding has its flag (`EventLoop.RestartExact`); `EventLoop.RestartLosesWakeup` is a
  run in which it has not, and the loop waits with a message in its queue.
- When the connection factory itself throws, the owner entry made just before stays, and the board can never be opened
  again (`ControlPlane.SingleOwner`, `ControlPlane.OrphanForever`, `ControlPlane.FactoryThrowLocksBoard`).
- A date goes to a timestamp and back unchanged if and only if its seconds fit in 32 bits and its weekday field is
  right (`Calendar.DateRoundTripExact`); `Calendar.DateLost` is the first date that does not. The timestamp itself is
  right modulo 2^32 if and only if the year is at most 2306 (`Calendar.ToTimestampWraps`).
- `bin2dfu.py` writes a container for an empty image that `update.py` refuses; the output is accepted if and only if
  the image is not empty (`DfuSe.WriterAccepted`).

## Model

| member | source | states |
|---|---|---|
| `HeapBlocks.Canonical` | furi/core/memmgr_heap.c:613-669 | Two heaps that tile the same span with no two free blocks touching, and have the same live blocks, are equal: the free list is a canonical form of the live allocations. |
| `HeapBlocks.RunKeeps` | furi/core/memmgr_heap.c:311-529 | After any sequence of mallocs and frees the blocks tile the heap without gap or overlap and no two free blocks touch. |
| `HeapBlocks.RunsAgree` | furi/core/memmgr_heap.c:311-529 | Two runs that end with the same live blocks end with the same free list, whatever their histories. |
| `HeapBlocks.FreeListOrdered` | furi/core/memmgr_heap.c:613-669 | The free list is strictly ordered by address, and each of its blocks ends below the next, so that no two touch. |
| `HeapBlocks.FreeListExact` | furi/core/memmgr_heap.c:613-669 | It links exactly the unallocated blocks, and the free count is the sum of their sizes. |
| `HeapBlocks.ReleaseOrderIrrelevant` | furi/core/memmgr_heap.c:472-529 | Freeing a set of live blocks gives the same heap in whatever order. |
| `HeapBlocks.ReleaseEverything` | furi/core/memmgr_heap.c:567-610 | Freeing every live block gives back the single block the heap was initialised with. |
| `HeapBlocks.TakeThenRelease` | furi/core/memmgr_heap.c:384-529 | Malloc followed by free of that pointer restores every block, split or not. |
| `HeapBlocks.TakeKeeps` | furi/core/memmgr_heap.c:394-422 | Taking the first block that fits, split when enough is left, keeps tiling and coalescing, and the free bytes go down by exactly the granted size. |
| `HeapBlocks.TakeGrants` | furi/core/memmgr_heap.c:394-435 | The lowest free block that is large enough is granted: whole when it fits exactly or with at most a minimum block to spare, and else cut to the size asked; it is the only new live block. |
| `HeapBlocks.ReleaseKeeps` | furi/core/memmgr_heap.c:613-669 | Freeing a block keeps tiling, merges with both neighbours so that no two free blocks touch, removes exactly that live block, and gives its bytes back. |
| `HeapBlocks.ReleaseAllKeeps` | furi/core/memmgr_heap.c:472-529 | The same for any list of live blocks: exactly those leave the live set. |
| `HeapBlocks.BlocksDisjoint` | furi/core/memmgr_heap.c:394-420 | Two different blocks, header and payload included, never overlap. |
| `HeapBlocks.BlocksAligned` | furi/core/memmgr_heap.c:573-583 | Every block starts aligned when the first does. |
| `HeapBlocks.FreeBytesBound` | furi/core/memmgr_heap.c:367-368 | No free block is larger than the free-byte count, so the guard on that count never refuses a request that a block could serve. |
| `HeapBlocks.BlockSizeRounds` | furi/core/memmgr_heap.c:324-350 | The size searched for is the least aligned one with room for header and payload, and is 0 exactly for a request of 0 or one that overflows 32 bits. |
| `HeapLinks.OccupiedLinks` | furi/core/memmgr_heap.c:394-435 | The assignments to the previous link, the block and the split-off rest turn a chain for the blocks into a chain for the blocks after first fit. |
| `HeapLinks.InsertedLinks` | furi/core/memmgr_heap.c:613-669 | The insertion by address with its two merges turns a chain for the blocks into a chain for the blocks after the free. |
| `Heap.MinOfIsMinimum` | furi/core/memmgr_heap.c:537-540 | The low-water mark kept by the invariant is the least free count since it was last reset. |
| `Heap.Heap.Init` | furi/core/memmgr_heap.c:567-610 | The first call lays out one free block that uses the region but for less than an alignment unit at each end and the end marker, and counts its bytes. |
| `Heap.Heap.FindFit` | furi/core/memmgr_heap.c:371-384 | The walk ends on the lowest free block that is large enough, and at the end marker exactly when there is none. |
| `Heap.Heap.Malloc` | furi/core/memmgr_heap.c:311-469 | A block is granted exactly when some free block holds header plus rounded size; then it is the lowest such one and its payload is aligned and long enough; otherwise nothing changes. Counters and low-water mark follow. |
| `Heap.Heap.Allocate` | furi/core/memmgr_heap.c:367-445 | The part under the suspended scheduler: granted exactly when a free block fits, with the free-bytes guard in place. |
| `Heap.Heap.Free` | furi/core/memmgr_heap.c:472-529 | The blocks become those of the coalescing release, one more free is counted, and the count of free bytes follows; NULL changes nothing. |
| `Heap.Heap.Cut` | furi/core/memmgr_heap.c:394-435 | The header updates of a split, cell by cell. |
| `Heap.Heap.FindGap` | furi/core/memmgr_heap.c:618-624 | The search by address ends on the last free block, or the list head, below the freed block. |
| `Heap.Heap.InsertIntoFreeList` | furi/core/memmgr_heap.c:613-669 | On pointers, insertion with merging gives exactly the released row of blocks. |
| `Heap.Heap.Merge` | furi/core/memmgr_heap.c:630-668 | The merging half, cell by cell. |
| `Heap.Heap.Stats` | furi/core/memmgr_heap.c:672-720 | Count, largest and smallest are those of the free list, 0 and the maximum size for an empty one; the space is the sum of its sizes; calls are counted modulo 2^32; and the minimum is that of the free counts since it was last reset. |
| `Heap.Heap.ListFreeBlocks` | furi/core/memmgr_heap.c:293-307 | The walk visits exactly the free list, in address order. |
| `Heap.Heap.ResetMinimum` | furi/core/memmgr_heap.c:542-545 | The low-water mark starts again from the present count. |
| `Heap.Heap.WritePayload` | furi/core/memmgr_heap.c:386-468 | Whatever is written into an owned payload, stale headers included, leaves the allocator valid. |
| `Rings.InsertEndIsLast` | lib/FreeRTOS-Kernel/include/list.h:338-347 | The new item is served last exactly when the index stands at the end marker; otherwise it is served just before the item the index is on. |
| `Rings.NotServedLast` | lib/FreeRTOS-Kernel/list.c:98-125 | A ring of two items, the first just served, in which a third one inserted at the end is served before the first comes round again. |
| `Rings.NextRotates` | lib/FreeRTOS-Kernel/include/list.h:285-296 | Each step serves the first upcoming item and sends it to the back. |
| `Rings.RoundRobin` | lib/FreeRTOS-Kernel/include/list.h:285-296 | Within one round every item is served once, at its place in the upcoming order. |
| `Rings.SortedInsert` | lib/FreeRTOS-Kernel/list.c:128-196 | Sorted insertion keeps a sorted list sorted. |
| `Rings.PositionUnique` | lib/FreeRTOS-Kernel/list.c:128-196 | The place found is the only one that keeps the list sorted and lies behind every equal value. |
| `Rings.PositionOfMax` | lib/FreeRTOS-Kernel/list.c:148-151 | The value portMAX_DELAY goes to the very end, the case the source treats apart. |
| `Rings.RemoveUndoesInsert` | lib/FreeRTOS-Kernel/list.c:199-225 | Removal undoes insertion at any place, index included. |
| `Rings.RemoveKeepsTurns` | lib/FreeRTOS-Kernel/list.c:199-225 | Taking an item out leaves the turns of all others as they were, also when it is the one just served. |
| `FreeRtosList.List.constructor` | lib/FreeRTOS-Kernel/list.c:50-83 | An empty ring whose sentinel points to itself. |
| `FreeRtosList.List.InsertEnd` | lib/FreeRTOS-Kernel/list.c:98-125 | The links become those of the ring with the item just before the index; the ring stays well formed, with the count its length and the index a member. |
| `FreeRtosList.List.FindPlace` | lib/FreeRTOS-Kernel/list.c:148-184 | The search ends, at the sentinel at the latest, on the node behind which the value belongs. |
| `FreeRtosList.List.Insert` | lib/FreeRTOS-Kernel/list.c:128-196 | The links become those of the ring with the item behind every value not larger. |
| `FreeRtosList.List.Remove` | lib/FreeRTOS-Kernel/list.c:199-225 | The links become those of the ring without the item, the index steps back if it was on it, and the rest of the ring is as before. |
| `FreeRtosList.List.NextEntry` | lib/FreeRTOS-Kernel/include/list.h:285-296 | The index moves to the next item, over the sentinel, and that item is returned. |
| `CoRoutineTime.ReadyAfterDelay` | lib/FreeRTOS-Kernel/croutine.c:163-199 | Main result: a co-routine that delays for d > 0 ticks stays unready for any steps with fewer ticks, and the next tick readies it if and only if it is the d-th, however often the counter wraps and whatever events are signalled. |
| `CoRoutineTime.ReadyAfterTimeout` | lib/FreeRTOS-Kernel/croutine.c:193-198 | Main result: the same for a co-routine that waits for an event for at most d ticks, as long as no drain of the pending list finds it there. |
| `CoRoutineTime.AwaitExact` | lib/FreeRTOS-Kernel/croutine.c:163-199 | A wait for an event leaves exactly d ticks to go, with the co-routine in the event list. |
| `CoRoutineTime.ReadyAfterEvent` | lib/FreeRTOS-Kernel/croutine.c:202-222 | When a drain does find it there, it is ready then, and waits no more. |
| `CoRoutineEvents.SignalServesInTurn` | lib/FreeRTOS-Kernel/croutine.c:339-361 | Main result: in every state reached, an event list stands in order of priority, and of arrival among equals; so a signal moves to the pending list the waiter than which none has a higher priority, the longest waiting of its equals. |
| `CoRoutineEvents.InsertInTurn` | lib/FreeRTOS-Kernel/croutine.c:193-198 | Sorted insertion by the item value puts a waiter behind all of its priority and above, and in front of all below. |
| `CoRoutineEvents.RunOrdered` | lib/FreeRTOS-Kernel/croutine.c:103-361 | Every run keeps the event lists so ordered. |
| `CoRoutineTime.StepUntied` | lib/FreeRTOS-Kernel/croutine.c:103-361 | No step puts the event item of a waiting co-routine into a list: a plain delay cannot be cut short by an event. |
| `CoRoutineTime.WaitsUntil` | lib/FreeRTOS-Kernel/croutine.c:225-281 | Over any steps the remaining ticks of a waiting co-routine go down by exactly the ticks that passed. |
| `CoRoutineTime.DelayExact` | lib/FreeRTOS-Kernel/croutine.c:163-199 | Delaying for d leaves exactly d ticks to go, whether the wake time wraps or not, and changes no other co-routine. |
| `CoRoutineTime.CountTickExact` | lib/FreeRTOS-Kernel/croutine.c:233-246 | Each count brings every waiting co-routine one tick closer; when the counter wraps, the list that is swapped out is empty. |
| `CoRoutineTime.TickExact` | lib/FreeRTOS-Kernel/croutine.c:225-281 | A tick readies exactly the co-routines with one tick to go, and keeps the current list to this epoch and the overflow list to the next. |
| `CoRoutineTime.ExpireExact` | lib/FreeRTOS-Kernel/croutine.c:248-277 | The early exit at the first later wake time loses nobody: exactly the due co-routines of the current list are readied. |
| `CoRoutines.DrainExact` | lib/FreeRTOS-Kernel/croutine.c:202-222 | Exactly the co-routines whose event is pending are readied, and leave whichever delay list held them. |
| `CoRoutines.DispatchHighest` | lib/FreeRTOS-Kernel/croutine.c:297-311 | The co-routine chosen is ready, none of higher priority is, and equals take turns. |
| `CoRoutines.DispatchIdle` | lib/FreeRTOS-Kernel/croutine.c:297-307 | Nothing is chosen exactly when no co-routine is ready. |
| `CoRoutineTime.StepKeeps` | lib/FreeRTOS-Kernel/croutine.c:103-361 | Every operation keeps each co-routine in one place, the ready mark an upper bound, and the delay lists sorted and in their epochs. |
| `CoRoutineTime.RunKeeps` | lib/FreeRTOS-Kernel/croutine.c:103-361 | So does every run. |
| `CoRoutineTime.StepSpares` | lib/FreeRTOS-Kernel/croutine.c:284-361 | Only the clock changes the remaining ticks of a co-routine whose event is not drained. |
| `CoRoutineTime.TicksKeeps` | lib/FreeRTOS-Kernel/croutine.c:225-281 | Catching up with the kernel tick keeps the invariant and ends at that tick. |
| `CoRoutines.AddEventKeeps` | lib/FreeRTOS-Kernel/croutine.c:193-198 | Joining an event list keeps the invariant and readies nobody. |
| `CoRoutines.SignalKeeps` | lib/FreeRTOS-Kernel/croutine.c:339-361 | Moving the first waiter of an event to the pending list keeps the invariant and readies nobody yet. |
| `CoRoutines.CreateKeeps` | lib/FreeRTOS-Kernel/croutine.c:103-160 | A new co-routine is ready with the priority asked for, or the highest there is, and nothing else changes. |
| `CoRoutines.ReadyTurn` | lib/FreeRTOS-Kernel/croutine.c:68-75 | A co-routine made ready gets the turn among those of its priority that insertion at the end gives it, and no other list changes. |
| `CoRoutineTime.Scheduler.constructor` | lib/FreeRTOS-Kernel/croutine.c:319-336 | The initial lists, one for each priority, satisfy the invariant. |
| `CoRoutineTime.Scheduler.AddToDelayedList` | lib/FreeRTOS-Kernel/croutine.c:163-199 | The state becomes that of the delay, with the event list joined when one is given. |
| `CoRoutineTime.Scheduler.CheckPendingReadyList` | lib/FreeRTOS-Kernel/croutine.c:202-222 | The loop over the pending list reaches the drained state. |
| `CoRoutineTime.Scheduler.ExpireDelayed` | lib/FreeRTOS-Kernel/croutine.c:248-277 | The inner loop reaches the state with the due co-routines readied. |
| `CoRoutineTime.Scheduler.CheckDelayedList` | lib/FreeRTOS-Kernel/croutine.c:225-281 | The outer loop ends with the co-routine tick equal to the kernel tick, one tick at a time, across a wrap of either. |
| `CoRoutineTime.Scheduler.Pick` | lib/FreeRTOS-Kernel/croutine.c:297-311 | The search for the top ready priority and the step along its list reach the dispatched state. |
| `CoRoutineTime.Scheduler.Schedule` | lib/FreeRTOS-Kernel/croutine.c:284-316 | Pending events first, then the ticks, then the choice: the co-routine run is that of the dispatch. |
| `CoRoutineTime.Scheduler.RemoveFromEventList` | lib/FreeRTOS-Kernel/croutine.c:339-361 | The first waiter moves to the pending list; true exactly when its priority is at least the current one. |
| `Timers.RemainingAfter` | furi/core/event_loop_timer.c:12-24 | The clamped remaining time follows the clock if and only if the timer is not left 2^32 ticks past its start, or its wrapped age still exceeds its interval. |
| `Timers.ExpiredExact` | furi/core/event_loop_timer.c:22-24 | A timer is expired exactly when it has no time left. |
| `Timers.ExpiresAfter` | furi/core/event_loop_timer.c:12-24 | A timer is expired from exactly its interval after its start on, across a wrap of the clock. |
| `Timers.StaleTimerRevives` | furi/core/event_loop_timer.c:12-24 | A concrete timer, expired and unserved, that comes back to life when the clock wraps. |
| `Timers.PassKeeps` | furi/core/event_loop_timer.c:12-51 | Time alone, wrap included, keeps the list sorted by clamped remaining time. |
| `Timers.WaitIsLeast` | furi/core/event_loop_timer.c:78-87 | The wait is the minimum of the remaining times of all active timers, or forever exactly when there is none. |
| `Timers.SleepMeetsDeadlines` | furi/core/event_loop_timer.c:78-87 | In every state reached, sleeping at most the computed wait leaves no timer stale and takes none past its deadline; the front one is expired exactly when the whole wait was slept. |
| `Timers.RunKeeps` | furi/core/event_loop_timer.c:26-203 | Every run of ticks, allocations, requests, drains and expiries keeps queue and list free of duplicates, a timer queued exactly while it has a request and listed exactly while active, and the list sorted; the clock stands at the ticks passed modulo 2^32. |
| `Timers.SlotIsPosition` | furi/core/event_loop_timer.c:26-51 | Walking back from the end finds the place behind all timers due no later, so equals stay in order of arrival. |
| `Timers.ScheduledKeeps` | furi/core/event_loop_timer.c:26-51 | Scheduling keeps the list sorted and adds exactly that timer. |
| `Timers.EnqueueKeeps` | furi/core/event_loop_timer.c:53-72 | A request keeps the timer queued exactly once. |
| `Timers.ServeHeadKeeps` | furi/core/event_loop_timer.c:89-116 | Serving the head of the queue does what its request asks to that timer and nothing to others. |
| `Timers.ServeAnswers` | furi/core/event_loop_timer.c:89-116 | Draining leaves every timer as its request asks: started now with the requested interval, stopped, freed, or untouched. |
| `Timers.LastRequestWins` | furi/core/event_loop_timer.c:53-116 | After any calls and a drain each timer obeys its last call: running from now with the whole interval of its last start, stopped, freed, or as it was when there was none. |
| `Timers.RestartForgets` | furi/core/event_loop_timer.c:180-196 | A restart right behind a start that is still queued runs with the old interval, and so with the new one only if they are the same. |
| `Timers.StartedInOrder` | furi/core/event_loop_timer.c:26-116 | Two timers started one after the other with one interval stand in the list in that order. |
| `Timers.RearmedOnGrid` | furi/core/event_loop_timer.c:127-137 | A periodic timer is re-armed on its original grid with its next deadline ahead, however late it was served. |
| `Timers.FireFrontKeeps` | furi/core/event_loop_timer.c:118-144 | Taking the front timer keeps the invariant: a one-shot becomes inactive, a periodic one goes back in order. |
| `Timers.TimerLoop.Schedule` | furi/core/event_loop_timer.c:26-51 | The backward search loop reaches the scheduled state. |
| `Timers.TimerLoop.Alloc` | furi/core/event_loop_timer.c:150-171 | A new timer is inactive, of the kind asked for, without a request, and in neither list. |
| `Timers.TimerLoop.EnqueueRequest` | furi/core/event_loop_timer.c:53-72 | The request replaces an earlier one and the timer moves to the end of the queue. |
| `Timers.TimerLoop.ProcessQueue` | furi/core/event_loop_timer.c:89-116 | The drain loop ends, with every request answered. |
| `Timers.TimerLoop.ProcessExpired` | furi/core/event_loop_timer.c:118-144 | Fires exactly when there is an active timer and the wait is 0, and then only the front one, which has no time left; the calls of its callback are queued. |
| `Timers.TimerLoop.GetWaitTime` | furi/core/event_loop_timer.c:78-87 | Returns the wait of which minimality is proved. |
| `EventLoop.NoLostWakeup` | furi/core/event_loop.c:208-264 | Main result: whenever the loop reaches its wait, every item whose level is up with no notification on the way, and every edge-triggered one that was notified, is waiting exactly once with the Event flag up; Timer and Pending are up when there is work for them. In the first run on any interleaving; in later ones when the loop was run again as `RestartExact` asks. |
| `EventLoop.StepKeeps` | furi/core/event_loop.c:143-258 | Every step of the loop, of the producers and of user code, runs after a stop included, keeps the structure of tree, links and waiting list and accounts for every raised level. |
| `EventLoop.RunKeeps` | furi/core/event_loop.c:208-264 | So does every run. |
| `EventLoop.StepStaysLive` | furi/core/event_loop.c:143-258 | No step but a stop takes a flag away from outstanding work. |
| `EventLoop.OneRunIsCareful` | furi/core/event_loop.c:208-264 | As long as a loop is run once, stopped or not, no care is needed. |
| `EventLoop.InitialOK` | furi/core/event_loop.c:54-71 | The allocated loop satisfies the invariant. |
| `EventLoop.NoStarvation` | furi/core/event_loop.c:143-191 | An item with k items ahead is dispatched within k + 1 pops, unless it is unsubscribed, however often others are notified. |
| `EventLoop.CalledInTurn` | furi/core/event_loop.c:96-191 | Main result: an item with k looks ahead of it has its callback entered at look k + 1 at the latest, unless it is unsubscribed or level-triggered with its level down when its turn comes. |
| `EventLoop.LookDecides` | furi/core/event_loop.c:96-132 | At its look an edge-triggered item is called, and a level-triggered one exactly when its level is up. |
| `EventLoop.CalledOnlyAfterCallback` | furi/core/event_loop.c:104-116 | In every run the second level check comes only after the callback of the same item. |
| `EventLoop.EdgeCallsBounded` | furi/core/event_loop.c:96-102 | In every run an edge-triggered item is called at most once for each notification: not for being subscribed, and not again because its level stays up. |
| `EventLoop.CallsConserved` | furi/core/event_loop.c:193-199 | Pending calls are made one by one: those made and those left are those there were and those that came. |
| `EventLoop.BackToWait` | furi/core/event_loop.c:222-258 | Left alone with callbacks that return, the loop comes back to its wait or has stopped; a wait that times out leads to the timer code. |
| `EventLoop.StepForward` | furi/core/event_loop.c:143-156 | No step moves a waiting item back, and every pop of another moves it forward. |
| `EventLoop.NoLeakedItem` | furi/core/event_loop.c:136-188 | At its wait the loop holds exactly the subscribed items, each linked from its object: an item unsubscribed in its own callback has been freed. |
| `EventLoop.WhatIsKept` | furi/core/event_loop.c:222-258 | Of the flags taken together, Event, Timer and Pending survive if and only if Stop is not among them; a thread flag under the stated stronger condition. |
| `EventLoop.FlagFate` | furi/core/event_loop.c:201-258 | In every step each flag stays, is held, is put back or dealt with, or is lost, the last only by a stop, or as a thread flag beside a bare pending call. |
| `EventLoop.ThreadFlagLost` | furi/core/event_loop.c:244-249 | A run in which a pending call and a thread flag are taken together: the loop is back at its wait, the flag is gone, and its callback was not called. |
| `EventLoop.RestartExact` | furi/core/event_loop.c:208-264 | Nothing is missed at any wait of any later run of a stopped loop if and only if, when it is run again, outstanding items have the Event flag and timer requests and pending calls theirs. |
| `EventLoop.StopSwallows` | furi/core/event_loop.c:232-234 | A run in which a stop is taken together with the Event flag of a queue that holds a message, and the flag is gone. |
| `EventLoop.RestartLosesWakeup` | furi/core/event_loop.c:208-234 | Run again after that, the loop waits with a message in the queue and no flag up: the condition can fail, and a wakeup is lost. |
| `EventLoop.Loop.ItemNotify` | furi/core/event_loop.c:543-558 | An item enters the waiting list at most once, and the Event flag goes up. |
| `EventLoop.Loop.LinkNotify` | furi/core/event_loop.c:587-601 | A queue operation notifies the item of its direction, if there is one. |
| `EventLoop.Loop.Subscribe` | furi/core/event_loop.c:316-359 | A new item is linked and starts out waiting when its level is already up. |
| `EventLoop.Loop.Unsubscribe` | furi/core/event_loop.c:446-482 | The item leaves tree, link and waiting list, and is freed at once or, if it is the current one, later. |
| `EventLoop.Loop.GetWaitingItem` | furi/core/event_loop.c:143-156 | The front of the waiting list is taken, if any. |
| `EventLoop.Loop.FinishItem` | furi/core/event_loop.c:134-188 | After the callback a level-triggered item that is still up goes back to the end of the list, and a released one is freed. |
| `EventLoop.Loop.SyncFlags` | furi/core/event_loop.c:158-170 | The Event flag is raised when items are still waiting. |
| `Expansion.ChunkingIrrelevant` | dashboard/server/expansion.ts:135-167 | Main result: for any stream and any way of cutting it, some push throws exactly when decoding the whole does, and otherwise frames and residue are those of the whole. |
| `Expansion.DecodeAppend` | dashboard/server/expansion.ts:138-166 | Decoding a concatenation is decoding the first part and then the second behind its residue. |
| `Expansion.ScanStable` | dashboard/server/expansion.ts:90-115 | A frame that can be read, or an error that can be seen, does not change when more bytes arrive. |
| `Expansion.ResidueBounded` | dashboard/server/expansion.ts:138-166 | At most 66 bytes are ever kept. |
| `Expansion.ThrowsForGood` | dashboard/server/expansion.ts:138-166 | A decoder that has thrown throws on every later push. |
| `Expansion.EncodedScans` | dashboard/server/expansion.ts:28-88 | An encoded frame reads back as itself, whatever follows. |
| `Expansion.EncodedDecodes` | dashboard/server/expansion.ts:117-166 | Every encodable frame sequence decodes to itself with empty residue. |
| `Expansion.WireFormat` | dashboard/server/expansion.ts:28-84 | A frame is its type byte, its content and one byte that brings the exclusive or over all to 0; everything but a baud rate of 0 and more than 64 bytes of data can be encoded. |
| `Expansion.BadExact` | dashboard/server/expansion.ts:90-163 | A buffer is rejected exactly when it starts with an unknown type, announces more than 64 bytes, or holds a whole frame over which the exclusive or is not 0. |
| `Expansion.ChecksumChanges` | dashboard/server/expansion.ts:28-34 | The checksum differs for any two byte strings that differ in one byte. |
| `Expansion.CorruptionThrows` | dashboard/server/expansion.ts:117-166 | A frame with one byte changed behind its type and length makes the decoder throw. |
| `Expansion.PiecesCover` | dashboard/server/wifi-board-connection.ts:230-235 | The pieces join to the original bytes, and each has 1 to 64 of them. |
| `Expansion.RpcRoundTrip` | dashboard/server/wifi-board-connection.ts:225-236 | Main result: any RPC byte string, cut by sendRpc, encoded, re-cut in any way and decoded, yields payloads that join to it, with nothing left over. |
| `Expansion.ComputeChecksum` | dashboard/server/expansion.ts:28-34 | The loop computes the exclusive or that the lemmas are about. |
| `Expansion.SendRpc` | dashboard/server/wifi-board-connection.ts:225-236 | The encoded pieces are sent in order up to the first whose exchange fails, and all of them exactly when every exchange is answered. |
| `Expansion.ExpansionDecoder.Push` | dashboard/server/expansion.ts:138-166 | Over any buffer, the loop returns the decoded frames and keeps the residue, or throws. |
| `Bytes.XorCancels` | dashboard/server/expansion.ts:28-34 | Exclusive or with one byte is injective, on all bits. |
| `ControlPlane.SingleOwner` | dashboard/server/wifi-control-plane.ts:60-101 | Main result: after any run, exactly when no factory threw for the board, it has an owner if and only if a session for it is connecting, live or closing; there is at most one, and the entry is its own. |
| `ControlPlane.StepKeeps` | dashboard/server/wifi-control-plane.ts:60-130 | Every stretch of code between two awaits keeps the invariant. |
| `ControlPlane.RunKeeps` | dashboard/server/wifi-control-plane.ts:60-130 | So does every interleaving. |
| `ControlPlane.ReleasesOnce` | dashboard/server/wifi-control-plane.ts:68-101 | A session releases exactly once, when it is over, though close and disconnect both may ask for it. |
| `ControlPlane.EndsFree` | dashboard/server/wifi-control-plane.ts:68-101 | However a session ends, by a failed connect, a state other than ready, a lost connection or a settled close, its board then has no owner and anybody can open it. |
| `ControlPlane.ClosedEndsFree` | dashboard/server/wifi-control-plane.ts:92-101 | Once a live session is closed it stays so, whatever happens in between, until its close settles, which frees the board. |
| `ControlPlane.CloseThenDone` | dashboard/server/wifi-control-plane.ts:92-101 | Closing a live session keeps the board until the close settles, and then frees it. |
| `ControlPlane.OpenThenReady` | dashboard/server/wifi-control-plane.ts:60-79 | Opening a free board takes it for the client, connecting; the session is live when connect() succeeds. |
| `ControlPlane.OpensExactly` | dashboard/server/wifi-control-plane.ts:60-66 | A board can be opened exactly when it is known, no session holds it, no factory threw for it, and the client id has 1 to 128 characters. |
| `ControlPlane.OnlyHolderClears` | dashboard/server/wifi-control-plane.ts:128-130 | An owner entry disappears only when the session it belongs to lets go: no stale session clears a newer owner. |
| `ControlPlane.OrphanForever` | dashboard/server/wifi-control-plane.ts:66-67 | When the factory throws, every later openSession for the board is refused, in every run. |
| `ControlPlane.FactoryThrowLocksBoard` | dashboard/server/wifi-control-plane.ts:66-67 | A one-step run that shows it. |
| `ControlPlane.ReleaseKeeps` | dashboard/server/wifi-control-plane.ts:128-130 | Letting go removes exactly the session's own owner entry. |
| `ControlPlane.FreeAgain` | dashboard/server/wifi-control-plane.ts:60-66 | After a session has let go its board can be opened again by anyone. |
| `ControlPlane.NamesAgree` | dashboard/server/wifi-control-plane.ts:52-58 | The state a board shows is available, connecting or in use exactly as its session is. |
| `ControlPlane.WifiControlPlane.Create` | dashboard/server/wifi-control-plane.ts:42-50 | Construction fails exactly when a board id comes twice. |
| `ControlPlane.WifiControlPlane.Statuses` | dashboard/server/wifi-control-plane.ts:52-58 | Every board once, in order, with the state of the session that holds it. |
| `ControlPlane.WifiControlPlane.OpenSession` | dashboard/server/wifi-control-plane.ts:60-69 | The checks in their order, and the owner entry set before the first await. |
| `ControlPlane.WifiControlPlane.Connected` | dashboard/server/wifi-control-plane.ts:68-79 | Failure and a state other than ready release the board; otherwise the session is live. |
| `ControlPlane.WifiControlPlane.Disconnected` | dashboard/server/wifi-control-plane.ts:84-91 | The board is released unless the session was closed before. |
| `ControlPlane.WifiControlPlane.Close` | dashboard/server/wifi-control-plane.ts:92-97 | Only the first close has anything to await. |
| `ControlPlane.WifiControlPlane.Closed` | dashboard/server/wifi-control-plane.ts:98-100 | The board is released when the close settles, either way. |
| `Calendar.TimestampRoundTrip` | lib/datetime/datetime.c:40-97 | For every 32-bit timestamp, to a date and back is the identity. |
| `Calendar.DateRoundTripExact` | lib/datetime/datetime.c:40-97 | A real date of any 16-bit year from 1970 survives the trip to a timestamp and back if and only if its seconds fit in 32 bits and its weekday is right. |
| `Calendar.DateLost` | lib/datetime/datetime.c:40-97 | 7 February 2106, 6:28:16, is a real date with timestamp 0, and does not come back. |
| `Calendar.DateRoundTrip` | lib/datetime/datetime.c:40-97 | So every date and time from 1970 through 2105 does. |
| `Calendar.FromTimestampExact` | lib/datetime/datetime.c:72-97 | Every timestamp becomes a real date that lies exactly that many seconds after the epoch, on the right weekday. |
| `Calendar.ToTimestampWraps` | lib/datetime/datetime.c:40-70 | The result is the exact count of seconds modulo 2^32 if and only if the year is at most 2306, after which the 8-bit counter of common years overflows. |
| `Calendar.DaysBeforeClosed` | lib/datetime/datetime.c:103-105 | The leap-year rule adds up to the Gregorian closed form. |
| `Calendar.DaysBeforeMonthClosed` | lib/datetime/datetime.c:12-14 | The month lengths add up to the closed form of the calendar. |
| `Calendar.FindMonth` | lib/datetime/datetime.c:85-91 | The month loop ends by December with a day that the month has. |
| `Calendar.Monotone` | lib/datetime/datetime.c:40-97 | Later timestamps are later dates in calendar order, and conversely. |
| `Calendar.WeekdayAdvances` | lib/datetime/datetime.c:77-78 | The weekday moves on by one each day, 1 following 7. |
| `Calendar.Epoch` | lib/datetime/datetime.c:72-97 | Timestamp 0 is Thursday, 1 January 1970. |
| `Calendar.ConvertToTimestamp` | lib/datetime/datetime.c:40-70 | The two loops and the wrapping additions compute the specified timestamp. |
| `Calendar.ConvertFromTimestamp` | lib/datetime/datetime.c:72-97 | Both loops end and compute the specified date. |
| `Catalog.RunKeeps` | bridge/src/packages.rs:78-175 | Main result: after any additions and source updates every record is valid, under its key, and marked conflicted exactly when another has its id and version but a different digest. |
| `Catalog.ConflictsExact` | bridge/src/packages.rs:78-175 | The same in terms of the fields. |
| `Catalog.InstallableAgree` | bridge/src/packages.rs:127-136 | No record at all contradicts an installable one: those of one id and version agree in digest. |
| `Catalog.AddKeeps` | bridge/src/packages.rs:78-115 | An addition marks exactly the records it contradicts, and itself. |
| `Catalog.AdmitsExactly` | bridge/src/packages.rs:78-91 | A record gets in exactly when it is valid, no other has its id, version, source and path, and there are fewer than 512. |
| `Catalog.ValidatesExactly` | bridge/src/packages.rs:196-222 | Valid records are those with texts of 1 to 256 bytes, a digest of 64 lower-case hexadecimal digits, and a revoked state exactly when the signer is revoked, and then unverified. |
| `Catalog.DropKeeps` | bridge/src/packages.rs:138-175 | Losing a source keeps validity and marks. |
| `Catalog.ReachedExactly` | bridge/src/packages.rs:138-175 | A source update reaches exactly the records of that source and path, or of that source and none of the paths. |
| `Catalog.GoneFields` | bridge/src/packages.rs:138-150 | It changes nothing but the freshness, and the state of an available record to quarantined. |
| `Catalog.GoneIsShut` | bridge/src/packages.rs:138-150 | A record whose source is gone is missing and not available. |
| `Catalog.GoneStaysGone` | bridge/src/packages.rs:138-175 | It stays so, and cannot be installed, whatever operations follow. |
| `Catalog.MarksDetermined` | bridge/src/packages.rs:92-112 | The marks follow from the rest of the records. |
| `Catalog.AddAllExact` | bridge/src/packages.rs:78-115 | A list of additions succeeds if and only if its records are valid, new, with distinct keys and within capacity; the catalog then holds exactly them and the old ones. |
| `Catalog.OrderIrrelevant` | bridge/src/packages.rs:78-115 | Lists with the same records in any order give the same catalog. |
| `Catalog.SaveThenLoad` | bridge/src/packages.rs:177-193 | What is saved from a catalog, in any order, loads as that catalog. |
| `Catalog.LoadIgnoresMarks` | bridge/src/packages.rs:181-193 | Whatever a cache says of conflicts is ignored: lists that differ only in their marks load alike, errors included. |
| `Catalog.PackageCatalog.AddRecord` | bridge/src/packages.rs:78-115 | The checks in their order; an error changes nothing. |
| `Catalog.PackageCatalog.Enter` | bridge/src/packages.rs:92-114 | The two loops and the insertion give the specified records. |
| `Catalog.PackageCatalog.ConflictingKeys` | bridge/src/packages.rs:92-101 | Exactly the keys of the records with the same id and version and another digest. |
| `Catalog.PackageCatalog.AllAgree` | bridge/src/packages.rs:108-112 | True exactly when no record contradicts the new one. |
| `Catalog.PackageCatalog.ListInstallable` | bridge/src/packages.rs:127-136 | Exactly the records that are verified, compatible, not revoked, fresh, available and not contradicted; any record of the same id and version has the same digest. |
| `Catalog.PackageCatalog.MarkSourceMissing` | bridge/src/packages.rs:138-150 | Exactly the records of that source and path lose it; true exactly when there was one. |
| `Catalog.PackageCatalog.ReconcileSourcePaths` | bridge/src/packages.rs:152-175 | Exactly the records of that source with another path lose it, and their number is returned. |
| `Catalog.PackageCatalog.Save` | bridge/src/packages.rs:177-179 | Every record once, so that loading gives the same catalog. |
| `Catalog.PackageCatalog.Load` | bridge/src/packages.rs:181-193 | The first record that cannot be added fails the load with its error. |
| `Registry.ParseExact` | scripts/marauder_registry.py:85-124 | Main result: a byte string is accepted and read as a list if and only if the list is valid, has at most 65535 commands, and serializes to that byte string. |
| `Registry.LayoutInjective` | scripts/marauder_registry.py:50-66 | No two valid lists share a serialization. |
| `Registry.Metadata` | scripts/marauder_registry.py:55-58 | A command begins with the rank of its capability and a byte with bit 0 for the argument and bit 1 for the capture. |
| `Registry.SampleBytes` | scripts/marauder_registry.py:50-66 | A registry of one command, byte by byte. |
| `Registry.EncodedHeader` | scripts/marauder_registry.py:69-75 | In front of the compressed bytes stand a one, a zero and their number. |
| `Registry.ChecksAreValid` | scripts/marauder_registry.py:22-47 | The checks let through exactly the non-empty lists of storable commands with distinct ids and matching argument flags. |
| `Registry.Utf8Exact` | scripts/marauder_registry.py:39 | Bytes are text exactly when they are the UTF-8 form of a string of Unicode scalar values. |
| `Registry.HasArgumentExact` | scripts/marauder_registry.py:45-46 | The argument mark is found exactly when it stands somewhere in the command. |
| `Registry.EntryExact` | scripts/marauder_registry.py:93-116 | An entry is read from a place exactly when its bytes stand there. |
| `Registry.EntriesExact` | scripts/marauder_registry.py:92-116 | The same for any number of entries, with the offset after them. |
| `Registry.EncodeDecodes` | scripts/marauder_registry.py:69-84 | With any compressor that is undone, an encoded registry decodes to its commands, and encoding fails exactly when the result exceeds 65535 bytes. |
| `Registry.ValidateCommands` | scripts/marauder_registry.py:22-47 | The first fault in the order of the checks. |
| `Registry.SerializeRegistry` | scripts/marauder_registry.py:50-66 | Succeeds exactly on valid lists of at most 65535 commands, with their layout. |
| `Registry.ParseRegistry` | scripts/marauder_registry.py:85-124 | The loops give the specified result, errors included. |
| `DfuSe.ParseExact` | scripts/update.py:32-85 | Main result: bytes are accepted and read as a container if and only if it is well formed and they are its layout, checksum included. |
| `DfuSe.Accounted` | scripts/update.py:32-85 | Prefix, target headers, element headers, payloads and suffix of an accepted container sum to its length. |
| `DfuSe.TargetExact` | scripts/update.py:59-82 | A target is read from a place exactly when its header and elements stand there and fill its size. |
| `DfuSe.ElementsExact` | scripts/update.py:70-80 | Elements are read from a place exactly when they stand there before the limit, none empty. |
| `DfuSe.ConvertIsLayout` | scripts/bin2dfu.py:35-67 | The writer succeeds exactly when every value fits its field, with the layout of one target with one element. |
| `DfuSe.ConvertWrites` | scripts/bin2dfu.py:43-63 | Where every field stands in what is written, the suffix in the order of the specification. |
| `DfuSe.ChecksumComplements` | scripts/bin2dfu.py:59-61 | The stored checksum is the exclusive or of the CRC with all ones. |
| `Bytes.LEDigit` | scripts/bin2dfu.py:43-61 | Byte i of a packed word is its digit of weight 256 to the power of i. |
| `DfuSe.WriterRoundTrip` | scripts/bin2dfu.py:35-67 | What is written from a non-empty image parses to exactly its one address and length, and to its bytes and name. |
| `DfuSe.WriterAccepted` | scripts/bin2dfu.py:35-67 | The writer's output is accepted if and only if the image is not empty. |
| `DfuSe.ParseElements` | scripts/update.py:26-85 | The nested loops give the addresses and sizes of the container, or its error. |
| `DfuSe.FlashExtent` | scripts/update.py:88-92 | Fails exactly when an element begins below the base; otherwise every payload ends within the extent and one at it. |
| `Channel.InOrderOnce` | bridge/src/channel.rs:43-85 | Over a network that drops, repeats and reorders, the accepted frames are a prefix of the sent ones, and sent frames plus credits equal initial plus granted credits. |
| `Channel.StepKeeps` | bridge/src/channel.rs:43-85 | Every step keeps this, and neither history is ever rewritten. |
| `Channel.AnswersBySequence` | bridge/src/channel.rs:60-76 | An open receiver answers a sent frame only by its place against what it has accepted; its sequence never wraps. |
| `Channel.AnswersExactly` | bridge/src/channel.rs:60-76 | What any frame from anywhere gets for an answer. |
| `Channel.SendsWithCredit` | bridge/src/channel.rs:43-58 | An open sender takes exactly the frames of at most 1024 bytes while it has a credit and a number left. |
| `Channel.GrantsWhole` | bridge/src/channel.rs:78-85 | A grant is taken whole or not at all, and credits never exceed four. |
| `Channel.Closes` | bridge/src/channel.rs:87-89 | Closing takes effect at once, at one end only. |
| `Channel.ClosedStays` | bridge/src/channel.rs:87-105 | A closed end neither sends nor accepts, for good. |
| `Channel.CatchesUp` | bridge/src/channel.rs:60-76 | From any state the outstanding frames, delivered in order, complete the transfer. |
| `Channel.ChannelState.Create` | bridge/src/channel.rs:29-41 | Fails exactly on an empty or long name or too many credits. |
| `Channel.ChannelState.ReserveSend` | bridge/src/channel.rs:43-58 | The first fault in order, or the next sequence number for one credit. |
| `Channel.ChannelState.Receive` | bridge/src/channel.rs:60-76 | Accepts exactly the next number. |
| `Channel.ChannelState.AddCredits` | bridge/src/channel.rs:78-85 | Credits never exceed their maximum. |

## Left out

- Heap thread tracing, the canary, crash macros, interrupt checks: instrumentation around the allocator. A failed
  allocation is the result NULL.
- Payload bytes: clearing memory on allocation and on free, and anything the owner writes there beyond cells the size of
  a header. `heapPROTECT_BLOCK_POINTER` is taken as the identity.
- `realloc`, `calloc`, `vPortHeapResetState` and the rest of `memmgr.c`: thin wrappers.
- Heap.Heap.Free: requires a pointer that was handed out and not yet freed; the checks that crash on others are the
  source's own way of demanding that.
- Interrupts and critical sections: methods are atomic. What can come between the statements of the loop thread is
  modelled in `EventLoop.dfy`, and between awaits in `ControlPlane.dfy`.
- The lists of the co-routine scheduler are ring and sequence values, proved of the pointers in `FreeRtosList.dfy` but
  not connected to objects in `CoRoutines.dfy`; the timer and waiting lists likewise are sequences.
- CoRoutineTime.Scheduler.AddToDelayedList: requires a delay of at least one tick, which its callers, `crDELAY` and the
  queue functions, check; what a delay of 0 would do is not modelled.
- Co-routine bodies, and `xCoRoutineCreate`'s allocation of the control block.
- `FuriEventLoopEventFlagOnce`, stream buffers, mutexes and semaphores as event-loop objects, the tick callback, and
  the pending-callback queue beyond its length.
- Thread flags beyond what `EventLoop.WhatIsKept` says of them.
- Timers.TimerLoop.ProcessExpired: a periodic timer with interval 0, which divides by zero in the source, is excluded.
- Expansion.SendRpc: why an exchange fails is not modelled, nor are the session state checked before the loop, baud
  changes, the heartbeat and the operation queue. Numbers that are not integers are not modelled.
- Board labels, listeners' own errors, sockets, HTTP, UART and tokens.
- Calendar.ConvertToTimestamp: signed overflow in the source's `int` products is taken as wrap-around; a month above
  13, which reads past the table, is excluded.
- `datetime_validate_datetime`: a conjunction of ranges.
- The JSON text of the catalog, the conversion from the wire enumeration, and `find`; iteration is in any order, which
  includes key order.
- Registry.ValidateCommands: the checks of types, schema and capability names hold of a typed command.
- Registry: JSON types and the schema check, lone surrogates, heatshrink itself (a pair of functions that undo each
  other), and the rendering of the include file.
- DfuSe: CRC-32 is any function from bytes to 32-bit words; file access and argument parsing.
- The channel's name accessor; the frames' bytes travel unchanged.
