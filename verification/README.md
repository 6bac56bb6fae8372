# Event loops, verified

This project models the two event-loop libraries of the repository, libev and libhv, with the
containers they run on, and proves what they promise: that no cross-thread wakeup is lost, that
timers fire once and in order, that the kernel is asked for exactly what the watchers want, that
the trees, heaps, queues and rings keep their shape and their content under every operation.

`dafny verify dfyconfig.toml` checks everything.

## How it is laid out

| file | models |
|---|---|
| `Wakeup.dfy` | libev's lock-free wakeup protocol, one shared access a step, as a state machine of any number of senders and one loop |
| `Epoll.dfy` | libev's epoll back end against an abstract kernel table of registrations |
| `FdInterest.dfy` | libev's change list and watcher lists, and the poll back end they drive |
| `Pending.dfy` | libev's pending queues with their back-indices |
| `TimerHeap.dfy`, `Timers.dfy`, `Periodics.dfy` | libev's 4-ary heap, relative timers and periodics |
| `RbSpec.dfy`, `RbMemory.dfy`, `RbTree.dfy` | libhv's red-black tree with parent pointers |
| `PointerHeap.dfy`, `HloopTimers.dfy` | libhv's heap of linked nodes and the timers on it |
| `EventQueue.dfy`, `CustomEvents.dfy` | libhv's array queue and the cross-thread event protocol on it |
| `RingBuf.dfy`, `VlBuf.dfy` | libhv's ring allocator and double-ended byte buffer |
| `Common.dfy` | what several models share |
| `Calendar.dfy`, `Varint.dfy` | libhv's date arithmetic and variable-length integers |

Code that updates objects in place is a class whose methods follow the source statement by
statement; each is proved against a function or predicate on values, and the laws are lemmas about
those. A memory of linked nodes is a map from addresses to cells, since the source only compares
and follows addresses. Address 0 is the null pointer. Arrays that the source grows on demand are
sequences. A callback is an arbitrary list of calls of the modelled operations.

Some terms used below. A *context* is a tree with a hole (its path to the root and all that hangs
off it), so that "tree in context" names one subtree of a whole tree. The *live view* of a pending
queue leaves out the slots that were cleared. A *disciplined* run of the epoll model is one in which
an application that closed and reopened a descriptor passes it through `ev_io_set` again.

## What turned out to need care

* **When epoll hands on a stale event.** If a descriptor is closed while its file stays open
  elsewhere, is reopened on another file, and its watcher is restarted with the old mask and without
  `ev_io_set`, libev makes no system call and then accepts events of the old file:
  `Epoll.UndisciplinedStaleEvent` is such a run. `Epoll.StaleExactly` says, for every state, that
  arming a reopened descriptor has this effect exactly when the mask is the old one, `ev_io_set` was
  not called, and the descriptor's last registration is still in the kernel. The discipline of the
  manual is sufficient (`Epoll.NoStaleDelivery`), `Epoll.GenerationTestExact` says what the
  generation test decides without it, and `Epoll.ReopenNeedsSet` when arming works at all.
* **The list of refused files may hold a descriptor twice.** `fd_rearm_all` clears the mark that
  keeps `epoll_modify` from appending again, but not the list (`Epoll.ListedAndUnmarked`).
  `Epoll.ListedTwice` is the exact condition. The sweep copes with it.
* **Tiny intervals leave the grid.** `periodic_recalc` starts from a grid of at least 1/8192 and
  then steps by the watcher's own interval. It finds the next point of the watcher's grid at every
  time if and only if the interval is at least 1/8192 or divides it (`Periods.GridKeptExactly`);
  `Periods.TinyIntervalOffGrid` is an input where it does not.
* **The ring refuses requests it has room for,** in two situations and no other:
  `RingSpec.RefusedThoughFree`.
* **A branch of `downheap` is dead.** Its slow path (`src/libev/ev.c:2615`) tests a fourth child,
  which the condition of the fast path has already excluded. `TimerHeap.Heap4.MinChild` omits it.
* **libhv's pending list is a stack.** Timers due together are therefore run with the latest deadline
  first (`HloopTimers.LatestDeadlineFirst`), where libev's double reversal gives the earliest first
  (`TimerSpec.FiringOrder`).
* **A repeat count of 0 wraps to INFINITE** (`HloopTimers.ZeroMeansForever`); any other is exact (`HloopTimers.FiresRepeatTimes`).
* **An `or` of disjoint bits is modelled as a sum** in `Varint`, and truncation to 64 bits is explicit.

## Model

| member | source | states |
|---|---|---|
| Wakeup.RunKeeps | src/libev/ev.c:2777-2890 | in every interleaving of any number of senders, watcher starts and stops and loop steps, a raised flag is backed by something that makes the loop run the callback, and every marked item by a flag, a sender or the scan |
| Wakeup.NoLostWakeup | src/libev/ev.c:4088-4167 | while the loop sleeps, an undelivered send whose sender has raised or found the flag leaves the pipe readable or a sender on its way to write it |
| Wakeup.QuietSendersLeavePipeReadable | src/libev/ev.c:5437-5442 | once all senders have returned, a sleeping loop with an undelivered send has a readable pipe |
| Wakeup.NoSpuriousFeed | src/libev/ev.c:2881-2888 | no watcher is fed more often than it was sent to |
| Wakeup.CallbackDelivers | src/libev/ev.c:2827-2890 | a callback entered with the flag up and the watcher present feeds every send that was complete by then before it returns, in every interleaving |
| Wakeup.EventuallyDelivered | src/libev/ev.c:4088-4167 | from every reachable state in which all senders have returned, the loop alone feeds each undelivered send within a number of steps fixed by the numbers of watchers, if polls report a readable pipe |
| Wakeup.StepCloser | src/libev/ev.c:2827-2890 | each step of the loop feeds the item or shortens the way to it |
| Wakeup.EventuallyIdle | src/libev/ev.c:2827-2890 | from every reachable state in which all senders have returned, the loop alone empties the pipe, clears every flag and delivers every send within a stated number of steps, entering the callback exactly as often as there is to read |
| Wakeup.Settles | src/libev/ev.c:2832-2857 | how often the callback is entered before the loop is idle: once for an eventfd, once for every four bytes of a pipe, once for a skipped write alone |
| Wakeup.IdleStays | src/libev/ev.c:4156-4167 | an idle loop finds the pipe unreadable at every poll and does not enter the callback again |
| Wakeup.IdleSleeps | src/libev/ev.c:4088-4093 | an idle loop that is willing to block does |
| Wakeup.RemoveCorrect | src/libev/ev.c:5423-5432 | stopping an async watcher removes just it and keeps every index right |
| Wakeup.SoloWrites | src/libev/ev.c:2780-2819 | a sender that will find a wake-up wanted, or has found so, writes to the pipe within six steps of its own |
| Epoll.RunGenerations | src/libev/ev_epoll.c:70-141 | in every run with any kernel replies, the live registration of the present file has the current generation, others an older one, and no two of a descriptor share theirs |
| Epoll.GenerationTestExact | src/libev/ev_epoll.c:166-190 | for a descriptor registered for its present file, the generation test accepts an event exactly when that file raised it |
| Epoll.RunInterest | src/libev/ev_epoll.c:70-141 | every disciplined run keeps each unflagged descriptor's kernel mask equal to the mask libev remembers, or the descriptor on the list of refused files |
| Epoll.NoStaleDelivery | src/libev/ev_epoll.c:166-216 | in every disciplined run a delivered event comes from the file the descriptor now refers to, through a registration with its wanted mask and current generation |
| Epoll.NoLostInterest | src/libev/ev_epoll.c:70-141 | in every disciplined run a watched, unflagged descriptor is served by the kernel or by the list of refused files |
| Epoll.ReopenNeedsSet | src/libev/ev_epoll.c:84-140 | arming a freshly opened descriptor works if and only if epoll refuses its file and libev knows or finds out, or the mask changed or `ev_io_set` was called and the kernel has memory |
| Epoll.StaleExactly | src/libev/ev_epoll.c:84-216 | arming a freshly opened descriptor lets another file's event through if and only if the mask is the old one, `ev_io_set` was not called, and the last registration made for the descriptor is still in the kernel |
| Epoll.UndisciplinedStaleEvent | src/libev/ev_epoll.c:166-216 | a concrete run in which an old file's event reaches a new file's watcher |
| Epoll.BatchNoStaleDelivery | src/libev/ev_epoll.c:166-216 | in one batch of events each is judged soundly although handling the earlier ones changes the table |
| Epoll.GenuinePassed | src/libev/ev_epoll.c:181-215 | a live event of the present file is passed on, even if it reports more than was wanted |
| Epoll.DroppedRearms | src/libev/ev_epoll.c:181-212 | dropping an event asks for the kernel table to be made anew, passing one on does not |
| Epoll.UnwantedStopped | src/libev/ev_epoll.c:188-213 | after an event nobody asked for, the kernel watches the file for just what is wanted, or not at all, under the current generation |
| Epoll.PollExact | src/libev/ev_epoll.c:166-216 | in every disciplined run, watchers are handed exactly the events of a batch that come from present files, on unflagged descriptors with watchers, each once and in order |
| Epoll.GenuineDelivered | src/libev/ev_epoll.c:166-216 | without the discipline those events are still all handed on |
| Epoll.EpollBackend.Modify | src/libev/ev_epoll.c:70-141 | the chain of ADD, MOD, EEXIST, ENOENT and EPERM recoveries ends in the state the outcome function names, for every kernel reply |
| Epoll.ModifyExact | src/libev/ev_epoll.c:70-141 | `epoll_modify` stops the watchers if and only if the descriptor is closed or memory is short for a new registration; otherwise the kernel watches for just what was asked, or the file is refused and listed |
| Epoll.UnrecoveredKills | src/libev/ev_epoll.c:133-140 | after an unrecovered error nothing is wanted of the descriptor, it is flagged, and its generation is the old one |
| Epoll.RearmRecovers | src/libev/ev.c:2541-2554 | after a fork each open watched descriptor is back in step at its next reification |
| Epoll.EpollBackend.Recover | src/libev/ev_epoll.c:99-136 | which errors are recovered from, with which registration, and that any other kills the descriptor |
| Epoll.EpollBackend.Refused | src/libev/ev_epoll.c:118-132 | the descriptor is marked, and appended to the list unless it carried the mark before |
| Epoll.ListedTwice | src/libev/ev_epoll.c:124-129 | a refusal lists a descriptor twice if and only if it was listed with its mark cleared |
| Epoll.ListedAndUnmarked | src/libev/ev.c:2541-2554 | a run that gets there: refused, listed, and rearmed |
| Epoll.RunMarked | src/libev/ev_epoll.c:118-132 | in every run only listed descriptors carry the mark |
| Epoll.RunUnflagged | src/libev/ev_epoll.c:70-141 | in every run an unflagged descriptor was last reified with the mask it wants |
| Epoll.EpollBackend.PollEvents | src/libev/ev_epoll.c:166-216 | a batch changes the table as the per-event outcome does in turn, and passes on just the accepted events |
| Epoll.EpollBackend.PollEvent | src/libev/ev_epoll.c:166-216 | one event is dropped, dropped with the kernel corrected, or passed |
| Epoll.EpollBackend.PollEperms | src/libev/ev_epoll.c:226-239 | the backward sweep keeps exactly the entries still refused and wanted, clears the mark of the others, and feeds those it keeps |
| Epoll.SwapOut | src/libev/ev_epoll.c:236 | filling a slot with the last entry removes just that slot's entry |
| PollBackend.Poll.Modify | src/libev/ev_poll.c:54-89 | afterwards `poll` is called with the new mask for this descriptor and the old one for all others, the arrays still inverse to each other |
| PollBackend.Poll.Remove | src/libev/ev_poll.c:79-88 | the entry moved into the gap is still found through its own index |
| PollBackend.Poll.Grow | src/libev/ev_poll.c:43-52 | new index cells change no descriptor's interest |
| FdInterest.Interest.FdChange | src/libev/ev.c:2470-2484 | a descriptor is listed once however often it is flagged, and no flag asked for is lost |
| FdInterest.Interest.IoStart | src/libev/ev.c:4330-4358 | the watcher comes first on its list, its descriptor is flagged, with EV__IOFDSET if it was set anew; no flag is lost and no other watcher changes |
| FdInterest.Interest.IoStop | src/libev/ev.c:4360-4381 | clears the watcher, takes just it off its list and keeps everything consistent |
| FdInterest.Interest.FdKill | src/libev/ev.c:2486-2497 | stops exactly the watchers of the descriptor, and clears and feeds each in list order |
| FdInterest.Interest.Perform | src/libev/ev.c:2397-2407 | any calls made from inside `backend_modify` keep the invariant at that point of the loop, and only append to the list |
| FdInterest.Interest.FdReify | src/libev/ev.c:2392-2468 | leaves the loop consistent whatever the back end adds meanwhile; with no additions the list is empty |
| FdInterest.Interest.ReifyOne | src/libev/ev.c:2434-2458 | the descriptor holds exactly the events its listed watchers want and no flag, and the back end is called if and only if that differs from before or EV__IOFDSET was set |
| FdInterest.Interest.InStep | src/libev/ev.c:2445-2457 | the back end watches an unlisted descriptor for an event if and only if some active watcher of it wants that event |
| FdInterest.Interest.WatcherServed | src/libev/ev.c:2445-2457 | so every active watcher's events are among those the back end watches for |
| FdInterest.RemovedCorrect | src/libev/ev.c:4261-4275 | list deletion takes out just the watcher |
| FdInterest.WantedExact | src/libev/ev.c:2447-2450 | an event is in the union of a list if and only if some watcher on it wants the event |
| Pending.PendingQueues.FeedEvent | src/libev/ev.c:2311-2329 | merges into the watcher's slot or pushes one, and restarts the scan at the top priority |
| Pending.PendingQueues.ClearPending | src/libev/ev.c:4287-4302 | the watcher's slot leaves the live view, all others stay, and the events it was pending with are returned |
| Pending.PendingQueues.RunOps | src/libev/ev.c:2311-2329 | any callback's feeds and clears act on the live view in turn and keep back-indices right |
| Pending.PendingQueues.Pop | src/libev/ev.c:3765-3769 | takes the top of the highest live queue, or a dummy that changes nothing |
| Pending.PendingQueues.InvokeOne | src/libev/ev.c:3765-3772 | one turn does what the live view prescribes, across dummies and feeds to higher priorities |
| Pending.PendingQueues.InvokePending | src/libev/ev.c:3754-3775 | under callbacks that feed and clear anything, the invocations are those of repeatedly taking the top of the highest non-empty live queue; all queues end empty |
| Pending.OneSlot | src/libev/ev.c:3568-3579 | a pending watcher occupies the slot its back-index names, in the queue of its priority, and no other; any other watcher has none |
| Pending.LivePlaced | src/libev/ev.c:3568-3579 | what the live view holds stands in the queue of its priority and is marked pending |
| Pending.LiveSingle | src/libev/ev.c:3568-3579 | the queues always hold a watcher at most once, as `PendingLaws.ClearedNeverInvoked` asks |
| PendingLaws.ClearedNeverInvoked | src/libev/ev.c:4276-4302 | a watcher that some callback clears and nothing feeds from then on is not invoked any more, even if it was pending when the run began |
| PendingLaws.UnfedNeverInvoked | src/libev/ev.c:3754-3775 | a watcher pending nowhere is not invoked unless it is fed |
| PendingLaws.PendingGetsInvoked | src/libev/ev.c:3754-3775 | a pending watcher that no callback clears is invoked |
| PendingLaws.QueuesRunEmpty | src/libev/ev.c:3754-3775 | whatever the callbacks do, nothing is left pending |
| PendingLaws.PassiveOrder | src/libev/ev.c:3754-3775 | with passive callbacks the order is by priority, newest first |
| PendingSpec.Highest | src/libev/ev.c:3758-3774 | a non-empty queue above which all are empty |
| TimerHeap.Parent | src/libev/ev.c:2584-2587 | with C's truncating division the root is its own parent and every other slot one of its parent's four children |
| TimerHeap.Heap4.Upheap | src/libev/ev.c:2669-2689 | restores heap order and every index, permuting only the heap |
| TimerHeap.Heap4.Downheap | src/libev/ev.c:2589-2631 | the same away from the root |
| TimerHeap.Heap4.MinChild | src/libev/ev.c:2602-2618 | an earliest child, whether there are four or fewer |
| TimerHeap.Heap4.Adjustheap | src/libev/ev.c:2691-2699 | settles one entry whose deadline moved either way |
| TimerHeap.Heap4.Reheap | src/libev/ev.c:2701-2711 | builds an ordered, indexed heap of the same entries from any order |
| TimerHeap.UpStep | src/libev/ev.c:2675-2685 | one step towards the root moves the only possible disorder up |
| TimerHeap.DownStep | src/libev/ev.c:2596-2627 | one step down below the earliest child moves the only possible disorder down |
| Timers.Loop.Start | src/libev/ev.c:4383-4406 | an inactive timer's time to run becomes a deadline; nothing else changes; the heap stays ordered, indexed and cached |
| Timers.Loop.Stop | src/libev/ev.c:4408-4437 | the timer leaves the heap and the queues and remembers its time to run |
| Timers.Loop.Again | src/libev/ev.c:4439-4465 | one period from now, or stopped without a period |
| Timers.Loop.Perform | src/libev/ev.c:4383-4465 | every sequence of starts, stops and restarts keeps all the heap's invariants and yields the deadlines, times to run and pending events of the plain map model |
| Timers.Loop.ActiveIs | src/libev/ev.c:3581-3593 | the active watchers are exactly those on the heap, with their cached deadlines |
| TimerSpec.StopStartUndo | src/libev/ev.c:4383-4437 | stop and start at one time undo each other |
| TimerSpec.PauseShifts | src/libev/ev.c:4383-4437 | a pause shifts a deadline by its length |
| TimerSpec.StartedFromNow | src/libev/ev.c:4383-4406 | a started timer is due its time to run from now |
| TimerSpec.AgainFromNow | src/libev/ev.c:4439-4465 | after `ev_timer_again` a repeating timer is due one period from now, whatever it was before |
| Timers.RootEarliest | src/libev/ev.c:3581-3593 | the root's deadline is the least |
| Timers.Loop.FireRoot | src/libev/ev.c:3810-3832 | the earliest timer is rescheduled past the present or stopped, and noted once |
| Timers.Loop.FeedReverseDone | src/libev/ev.c:2338-2344 | noted timers are fed last first |
| Timers.Loop.FireAll | src/libev/ev.c:3808-3834 | the loop ends with exactly the due timers noted, each once, by deadline |
| Timers.Loop.Reify | src/libev/ev.c:3802-3838 | terminates; exactly the timers due before now are dealt with, each once; the heap holds the rescheduled deadlines, none of them past |
| Timers.Loop.ReifyAt | src/libev/ev.c:3802-3838 | passes at any times are such passes, each firing exactly what is due then |
| Timers.Loop.RunTimers | src/libev/ev.c:3802-3838 | if no due timer is pending yet, reifying and invoking together call the fired timers of each priority by original deadline, ahead of what was pending |
| TimerSpec.FiringOrder | src/libev/ev.c:2331-2344 | the two reversals cancel, at every priority and over any queue content |
| TimerSpec.EqualPriorityInDeadlineOrder | src/libev/ev.c:3803-3838 | timers of one priority are called in non-decreasing order of original deadline |
| TimerSpec.FireStep | src/libev/ev.c:3810-3832 | firing the earliest due timer extends a correct partial run |
| TimerSpec.FiringDone | src/libev/ev.c:3834 | stopping when the root is not due misses no timer |
| TimerSpec.PhaseKept | src/libev/ev.c:3819-3821 | a timer served in time is next due one period after its deadline, one served late at once |
| TimerSpec.NoDrift | src/libev/ev.c:3802-3838 | over any passes, a repeating timer always served in time stands at its first deadline plus a period for each firing |
| TimerSpec.KeepsRunning | src/libev/ev.c:3802-3838 | however late the passes, a repeating timer stays on, is never left in the past, and never ahead of its phase |
| TimerSpec.OneShotOnce | src/libev/ev.c:3802-3838 | over any passes a timer without a period fires at most once, and is on until it has |
| Periods.EvFloor | src/libev/ev.c:1900-1934 | is the mathematical floor on all reals, negative or beyond the shift factor |
| Periods.PeriodicRecalc | src/libev/ev.c:3842-3865 | terminates at the due time |
| Periods.StepPast | src/libev/ev.c:3849-3862 | stepping ends at the first grid point after the present |
| Periods.DueSoon | src/libev/ev.c:3842-3865 | the due time is after the present by at most one interval |
| Periods.DueIsLeast | src/libev/ev.c:3842-3865 | from the minimum interval up the due time is the least offset-plus-multiple after the present |
| Periods.DueExact | src/libev/ev.c:3842-3865 | for any interval and time it is, if and only if the coarse start is on the watcher's grid |
| Periods.GridKeptExactly | src/libev/ev.c:3842-3865 | for any interval, it is at every time, if and only if the interval is at least 1/8192 or divides it |
| Periods.TinyIntervalOffGrid | src/libev/ev.c:579 | an interval below the minimum for which it is not |
| Periodics.PeriodicLoop.Recalculate | src/libev/ev.c:3922-3925 | which of callback, interval and fixed time sets the new deadline |
| Periodics.NewAtRenews | src/libev/ev.c:3922-3925 | the deadline each kind of periodic gets |
| Periodics.PeriodicLoop.Reschedule | src/libev/ev.c:3909-3931 | after a time jump a fixed time stays, a callback has been asked about the present, an interval timer is at most one interval ahead and at its own next grid point if its interval keeps to the grid; the heap is ordered again |
| RbSpec.PushRedCorrect | src/libhv/base/rbtree.c:75-86 | recolouring under a red uncle keeps black heights and order and moves the red pair up |
| RbSpec.RotatedCorrect | src/libhv/base/rbtree.c:87-98 | the rotations under a black uncle end the red pair, keeping black heights and order |
| RbSpec.RaisedCorrect | src/libhv/base/rbtree.c:139-146 | rotating a red sibling up keeps the deficit and gives a black sibling |
| RbSpec.PushedCorrect | src/libhv/base/rbtree.c:147-155 | a black sibling without red children hands the deficit up |
| RbSpec.TwistedCorrect | src/libhv/base/rbtree.c:158-167 | a red near nephew is turned into a red far one |
| RbSpec.RepaidCorrect | src/libhv/base/rbtree.c:168-174 | a red far nephew repays the deficit: the whole tree is red-black, in the same order |
| RbSpec.SpliceOrder | src/libhv/base/rbtree.c:276-289 | splicing out a node with one child removes it alone from the order |
| RbSpec.SuccessorOrder | src/libhv/base/rbtree.c:231-274 | moving the successor into the node's place removes the node alone from the order |
| RbSpec.DepthBound | src/libhv/base/rbtree.h:125-128 | a path visits at most 2 log2(n+1) nodes |
| RbSpec.PlugBalanced | src/libhv/base/rbtree.c:65-128 | a balanced subtree in a balanced context is a red-black tree |
| RbMemory.RepUnique | src/libhv/base/rbtree.h:138-145 | the pointers determine the tree |
| RbTree.Root.RotateLeft | src/libhv/base/rbtree.c:25-43 | the pointers hold the rotated tree in the same context |
| RbTree.Root.RotateRight | src/libhv/base/rbtree.c:45-63 | its mirror image |
| RbTree.Root.LinkNode | src/libhv/base/rbtree.h:138-145 | the slot holds a red leaf |
| RbTree.Root.InsertStepLeft | src/libhv/base/rbtree.c:73-99 | one round under a left parent keeps the order and shrinks the red pair's context |
| RbTree.Root.InsertStepRight | src/libhv/base/rbtree.c:99-124 | the same under a right parent |
| RbTree.Root.InsertColor | src/libhv/base/rbtree.c:65-128 | terminates with a red-black tree in the same order |
| RbTree.Root.Insert | src/libhv/base/rbtree.h:138-145 | linking and rebalancing leave a red-black tree with consistent links whose order has the node just beside its parent |
| RbTree.Root.EraseStepLeft | src/libhv/base/rbtree.c:137-176 | one round at a left child keeps the order and moves or repays the deficit |
| RbTree.Root.EraseStepRight | src/libhv/base/rbtree.c:177-216 | the same at a right child |
| RbTree.Root.EraseColor | src/libhv/base/rbtree.c:130-220 | terminates with a red-black tree in the same order |
| RbTree.Root.Unlink | src/libhv/base/rbtree.c:276-289 | the only child is lifted into the node's place |
| RbTree.Root.DetachSuccessor | src/libhv/base/rbtree.c:231-274 | with two children, the successor takes over place, links and colour, leaving a deficit only where it was black |
| RbTree.Root.ReplaceNode | src/libhv/base/rbtree.c:365-386 | every link to one node now leads to the other |
| RbTree.Root.Erase | src/libhv/base/rbtree.c:222-294 | a red-black tree with consistent links whose order is the old one without the node |
| RbTree.Root.First | src/libhv/base/rbtree.c:299-309 | the first node of the order, or null |
| RbTree.Root.Next | src/libhv/base/rbtree.c:323-344 | the node right after in the order, or null |
| PointerHeap.DescendGrows | src/libhv/base/heap.h:82-93 | following path bits only goes further down the level order |
| PointerHeap.Heap.PathTo | src/libhv/base/heap.h:79-85 | the bits of a count, read from the second highest, lead from the root to that slot |
| PointerHeap.Heap.ParentOf | src/libhv/base/heap.h:87-93 | the walk ends at the parent of the last slot, the leftover bit names the side |
| PointerHeap.Heap.Insert | src/libhv/base/heap.h:76-107 | the tree stays complete, linked and ordered, and gains just this node |
| PointerHeap.Heap.Remove | src/libhv/base/heap.h:109-166 | the same with just this node lost, its own links cleared and nodes outside the heap untouched |
| PointerHeap.Heap.Dequeue | src/libhv/base/heap.h:168-170 | removes a node of least key |
| PointerHeap.Heap.DetachLast | src/libhv/base/heap.h:115-141 | what is left after unhooking the last slot's node is the complete tree of one node less |
| PointerHeap.Heap.Replace | src/libhv/base/heap.h:28-43 | the new node stands in the old one's position, or nothing changes if they are the same |
| PointerHeap.Heap.Swap | src/libhv/base/heap.h:45-74 | the level order has parent and child exchanged, all links consistent |
| PointerHeap.Heap.SiftUp | src/libhv/base/heap.h:101-106 | from disorder above one node only, order is restored |
| PointerHeap.Heap.SiftDown | src/libhv/base/heap.h:152-165 | from disorder around one node only, order is restored |
| PointerHeap.Heap.Earliest | src/libhv/base/heap.h:156-158 | none of the node and its children precedes the choice |
| HeapShape.SwapRep | src/libhv/base/heap.h:45-74 | the link rewriting of a swap represents the exchanged level order |
| HeapShape.ReplaceRep | src/libhv/base/heap.h:28-43 | the link rewriting of a replacement represents the substituted level order |
| HeapShape.AppendRep | src/libhv/base/heap.h:95-99 | hooking a node under the last slot's parent appends it to the level order |
| HeapShape.DetachRep | src/libhv/base/heap.h:129-141 | unhooking the last node drops it from the level order |
| HeapShape.UpStep | src/libhv/base/heap.h:101-106 | one swap upwards moves the only possible disorder up |
| HeapShape.DownStep | src/libhv/base/heap.h:154-161 | one swap downwards moves the only possible disorder down |
| HeapShape.RootLeast | src/libhv/base/heap.h:16-21 | the root's key is the least |
| HloopTimers.DeadlineNear | src/libhv/event/hloop.c:681-685 | cutting to tenths of a second never makes a new timer due and costs it less than a tenth |
| HloopTimers.DeadlineExact | src/libhv/event/hloop.c:681-685 | only round timeouts of a second or more are cut, to whole tenths of a second |
| HloopTimers.CaughtUpLeast | src/libhv/event/hloop.c:75-79 | the rescheduled deadline is the old one plus the least whole number of periods that passes the present |
| HloopTimers.TimerLoop.AddTimeout | src/libhv/event/hloop.c:672-690 | a new timer with its deadline enters the heap and the count; none for a zero timeout |
| HloopTimers.TimerLoop.AddPeriod | src/libhv/event/hloop.c:718-739 | the same for calendar timers; none for fields out of range |
| HloopTimers.TimerLoop.Reset | src/libhv/event/hloop.c:692-716 | a live timer moves, a spent one comes back and is counted again |
| HloopTimers.RestartedLaw | src/libhv/event/hloop.c:703-715 | a reset takes a new timeout if there is one, gives a spent timer exactly one more firing, and leaves other counts alone |
| HloopTimers.TimerLoop.Drop | src/libhv/event/hloop.c:741-750 | leaves the heap and the count at most once |
| HloopTimers.TimerLoop.Delete | src/libhv/event/hloop.c:752-756 | is freed at once only if not pending; the count equals the heaps' sizes throughout |
| HloopTimers.TimerLoop.MarkPending | src/libhv/event/hevent.h:261-270 | a timer enters the pending list of its priority once |
| HloopTimers.TimerLoop.Requeue | src/libhv/event/hloop.c:72-86 | same heap members, new deadline for this timer only |
| HloopTimers.TimerLoop.FireRoot | src/libhv/event/hloop.c:59-88 | one firing spends one repetition, drops or requeues the timer, and marks it |
| HloopTimers.FiredDeadline | src/libhv/event/hloop.c:67-84 | where a firing sends each kind of timer |
| HloopTimers.TimerLoop.Process | src/libhv/event/hloop.c:55-91 | terminates; exactly the due timers fire, each once, earliest first; every deadline left is after now; the pending lists and the count of fired timers follow |
| HloopTimers.TimerLoop.ProcessAll | src/libhv/event/hloop.c:93-98 | after both passes no deadline in either heap is due and the count is that of the two heaps |
| HloopTimers.FiresRepeatTimes | src/libhv/event/hloop.c:64-71 | over any passes a timer with a finite count fires at most that often, stays in the heap until then with the count going down by one, and is given up at the last |
| HloopTimers.FiresForever | src/libhv/event/hloop.c:64-71 | a timer without a limit is never given up |
| HloopTimers.ZeroMeansForever | src/libhv/event/hloop.c:64-66 | a count of 0 has no limit from the first firing on |
| HloopTimers.PushedExactly | src/libhv/event/hevent.h:261-270 | a pending list gains the fired timers of its priority that were not marked yet, last fired first, and keeps what it held |
| HloopTimers.LatestDeadlineFirst | src/libhv/event/hevent.h:261-270 | the pending list holds the fired timers in reverse order of deadline, in front of what was there |
| EventQueue.Queue.PushBack | src/libhv/base/queue.h:83-93 | the content gains the element at the end, across moving down and across doubling, which happens only when the block is full |
| EventQueue.Queue.PopFront | src/libhv/base/queue.h:94-98 | the content loses its first element |
| EventQueue.Queue.PopBack | src/libhv/base/queue.h:100-103 | the content loses its last element |
| EventQueue.Queue.Resize | src/libhv/base/queue.h:73-77 | keeps every content that still fits, in a block of 16 when asked for none |
| CustomEventsSpec.RunKeeps | src/libhv/event/hloop.c:202-309 | in every interleaving, what the eventfd and the reader still count is what is queued or in flight, and what was run is what was posted before those |
| CustomEventsSpec.FifoOnce | src/libhv/event/hloop.c:273-309 | events are run in posting order, each once |
| CustomEventsSpec.NeverEmpty | src/libhv/event/hloop.c:211-219 | the reader's exit on an empty queue is unreachable |
| CustomEventsSpec.NeverStranded | src/libhv/event/hloop.c:273-309 | with the mutex free and no batch under way, the eventfd is readable exactly when an event waits |
| CustomEventsSpec.BatchRuns | src/libhv/event/hloop.c:202-231 | a batch runs exactly the events it counted, the oldest first, whatever is posted meanwhile |
| CustomEventsSpec.Drains | src/libhv/event/hloop.c:202-231 | left alone, the reader runs everything posted in at most two batches |
| CustomEvents.Loop.PostEvent | src/libhv/event/hloop.c:273-309 | one critical section is the protocol's steps in turn, including failed eventfd calls, over the array queue |
| CustomEvents.Loop.RunRound | src/libhv/event/hloop.c:211-226 | one round is the protocol's step, after any postings |
| CustomEvents.Loop.RunBatch | src/libhv/event/hloop.c:202-231 | the reader's loop is the batch of the protocol; from a consistent state it runs just the counted events |
| RingSpec.AllocKeeps | src/libhv/base/hbuf.h:210-233 | an allocation extends the layout by a block at the address returned |
| RingSpec.FreeKeeps | src/libhv/base/hbuf.h:235-244 | freeing the oldest block by its length alone leaves the layout of the others, although the skipped gap is recorded nowhere |
| RingSpec.OldestFound | src/libhv/base/hbuf.h:235-244 | the true start of the oldest block follows from the head and its length |
| RingSpec.LayoutApart | src/libhv/base/hbuf.h:204-255 | live blocks lie in the buffer and do not overlap |
| RingSpec.SizeIsTotal | src/libhv/base/hbuf.h:231-236 | the size field is the sum of the live lengths |
| RingSpec.RefusedThoughFree | src/libhv/base/hbuf.h:210-233 | exactly when a request is refused although some place in the buffer is clear of live blocks: nothing is live and it fits neither side of the head, or the ring has started over and only the gap at the top is long enough |
| RingSpec.RefusedWhenFull | src/libhv/base/hbuf.h:210-233 | with live blocks in one stretch, a refused request fits nowhere |
| RingSpec.RefusedWhenEmpty | src/libhv/base/hbuf.h:210-221 | with nothing live, a request is refused if and only if it is longer than both sides of the head |
| RingSpec.RefusedWhenWrapped | src/libhv/base/hbuf.h:224-229 | once started over, a request is refused if and only if it is longer than the space below the head, and how much room there really is |
| RingBuf.RingBuffer.Allocate | src/libhv/base/hbuf.h:210-233 | a returned block is in bounds and apart from every live block; a refusal changes nothing |
| RingBuf.RingBuffer.Release | src/libhv/base/hbuf.h:235-244 | the oldest block goes, and the next one's start is found |
| RingBuf.RingBuffer.Sound | src/libhv/base/hbuf.h:204-255 | what clients rely on, in every state |
| VlBuf.Buffer.PushFront | src/libhv/base/hbuf.h:128-143 | data goes in front of the content; no growth when it fits |
| VlBuf.Buffer.PushBack | src/libhv/base/hbuf.h:145-157 | data goes behind the content; no growth when it fits |
| VlBuf.Buffer.MakeRoom | src/libhv/base/hbuf.h:129-138 | doubling, which happens only when it must, always leaves room in front, and no move or growth changes the content |
| VlBuf.Buffer.PopFront | src/libhv/base/hbuf.h:159-168 | the first bytes come off, or nothing when too few |
| VlBuf.Buffer.PopBack | src/libhv/base/hbuf.h:170-177 | the last bytes come off, or nothing when too few |
| VlBuf.RunOps | src/libhv/base/hbuf.h:118-202 | any mix of operations acts as on a plain byte sequence |
| Calendar.DateTime.Past | src/libhv/base/htime.c:110-126 | subtracts exactly the days from the closed-form day count and keeps the date valid |
| Calendar.DateTime.Future | src/libhv/base/htime.c:128-146 | adds exactly the days and keeps the date valid |
| Calendar.DateTime.ForthAndBack | src/libhv/base/htime.c:110-146 | days added and taken away again: the date between is that many days later, the last one the first |
| Calendar.DateTime.BackAndForth | src/libhv/base/htime.c:110-146 | the same with days taken away first |
| Calendar.NumberIsUnique | src/libhv/base/htime.c:110-146 | the day count determines the date |
| Calendar.MonthLength | src/libhv/base/htime.c:102-108 | the table of month lengths agrees with the closed form |
| Calendar.YearLength | src/libhv/base/htime.h:14 | the leap year rule agrees with the closed form |
| Varint.Encode | src/libhv/base/hmath.h:28-39 | writes the encoding and nothing after it |
| Varint.Decode | src/libhv/base/hmath.h:41-66 | number and byte count, incomplete or endless, exactly as the bytes say |
| Varint.RoundTrip | src/libhv/base/hmath.h:28-66 | decoding inverts encoding for every non-negative 64-bit integer, whatever follows; nine bytes are enough |
| Varint.PrefixIncomplete | src/libhv/base/hmath.h:41-51 | every non-empty proper prefix is reported incomplete |
| Varint.TerminatedDecoded | src/libhv/base/hmath.h:41-60 | any terminated string of up to ten bytes is read to its end, and reported incomplete under a shorter limit |
| Varint.EndlessReported | src/libhv/base/hmath.h:61-65 | ten bytes without an end give -1 |
| Varint.WrapKeepsLowBits | src/libhv/base/hmath.h:52 | what does not fit 64 bits is cut to its low 64 bits |
| Varint.Canonical | src/libhv/base/hmath.h:28-39 | a decoded string is re-encoded to itself if and only if it has no idle last byte |

## Left out

- Memory fences: every shared access is one step of a sequentially consistent interleaving.
- Floating point: libev's times are exact reals, so the tests for lost resolution in `ev_floor` and `periodic_recalc` never fire.
- Integer overflow: counters, array sizes and libhv's microsecond clocks are unbounded, and epoll's 32-bit generation counter does not wrap; libhv's repeat counts and varints keep their width.
- The kernel: system calls appear only as abstract steps with the replies the code distinguishes; file numbers in the epoll model are never reused.
- System call failures of `epoll_wait`, `poll` and `read` other than those the code branches on.
- `loop_fork`, `ev_signal` delivery through signalfd, timerfd and the clock logic of `time_update`.
- The other back ends (select, kqueue, port, io_uring, linuxaio, Windows) and libhv's own event back ends.
- libev's 2-heap variant, compiled when `EV_USE_4HEAP` is off.
- `periodics_reify`, `ev_periodic_start`, `ev_periodic_stop`: the same heap and queue moves as the relative timers.
- `timers_reschedule`, idle, prepare, check, stat, child, embed, fork and cleanup watchers.
- Active reference counts of both libraries (`ev_ref`, `nactives`), which no modelled operation reads.
- `rb_last` and `rb_prev`: mirror images of `rb_first` and `rb_next`.
- RbTree.Root.DetachSuccessor: the substitution inlined in `rb_erase` writes the same cells and links as `rb_replace_node`, and is modelled by it; the order of those writes differs.
- The C++ and comparison-based wrappers around the red-black tree: a caller's search picks the empty slot.
- Heaps whose compare function is null, which only destroying a loop uses.
- `cron_next_timeout`: its result is a parameter, required to lie after the present.
- `hloop_process_pendings` and idle events of libhv: callbacks there run arbitrary client code.
- `hloop_cleanup`, which drops queued events when a loop is destroyed.
- Wakeup.EventuallyDelivered: senders have returned; that `ev_run` keeps being run is the client's doing.
- Timers.Loop.RunTimers: callbacks are passive and no due timer is pending beforehand, since a pending one keeps its old place in the queue and an active callback may stop the very timers whose order is stated; arbitrary callbacks are covered by Pending.PendingQueues.InvokePending.
- HloopTimers.TimerLoop.Reset: the pending list itself is not unlinked by the source, so a reset timer may still stand in it unmarked; the list walk is not modelled.
- RingBuf.RingBuffer.Release: frees come oldest first and with the length allocated, as the source silently assumes.
- EventQueue.Queue.Resize: says nothing of the content when the new block is too short for it; the source then keeps a window beyond the block.
- RingBuf.RingBuffer.constructor: a buffer without capacity is not modelled.
- Varint.Encode: negative numbers, for which the source's arithmetic shift never reaches 0.
- `floor2e` and `ceil2e`, and the parts of `htime.c` that format or ask the system for dates.
