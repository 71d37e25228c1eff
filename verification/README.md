# Verified core of the A37 device tree

Dafny models of the parts of this device tree that carry real algorithms or
protocols, with proofs of what they promise:

- **the GPS timer service**: `LocTimer` clients start and stop timers under a
  shared lock; each start and stop becomes a message on a FIFO queue; one worker
  thread applies the messages to a pointer heap; a poll thread turns kernel timer
  expiry into "expire" messages. The heap, the queue, the container and the
  spawning of threads are modelled as objects or as step machines, and the whole
  service as a transition system over every interleaving of its threads;
- **the DTB image builder**: sorted unique insertion into a doubly linked list,
  then a two-pass layout through shared master records;
- **the camera adapter's pixel copies**: the Venus copy with its fast path, the
  crop and the chroma swap;
- **the sensor HAL**: the circular event reader and the listener graph that
  programs each driver's delay;
- **the power HAL's frequency cap**.

`dafny verify dfyconfig.toml` checks everything. Where the source updates things
in place the model is a class whose methods are proved against a function on
values; the theorems are lemmas about those functions and about whole runs.

Results worth knowing:

- In the timer service nothing deleted is ever touched, each start ends at most
  once, no wakeup is lost, the service's own threads always come to rest, and then
  every timer whose second has passed has been called back
  (`TimerTheorems`, `TimerProgress`), taking `LocTimerDelegate::expire` as one step.
  In its three steps, read `mClient`, stop, call back, freed memory is used, or is
  about to be by the worker's next step, exactly if some LocTimer was deleted while
  the worker held its address (`TimerFine.FineSafeExactly`); `TimerFine.UseAfterFree`
  is a run that does. To clients that delete none the service guarantees all the same
  (`TimerFineTheorems`).
- A timer can be called back early, in two ways. The first pop of an expire message is
  unconditional, and removing the last timer leaves the kernel timer set:
  `TimerEarly.EarlyCallback` reaches a callback 99 seconds ahead of its deadline.
  `TimerExpire.FirstPopEarly` and `TimerExpire.LaterPopEarly` say, of the state
  before the step and to the nanosecond, exactly when a step takes a timer out
  early; `TimerExpire.CallbackEarly` says the same of the callback, in whole seconds
  and with expire() in one step. Later pops of a message are never early by a whole
  second, but timers due in the same second are popped together, so one of them may
  be early by less than a second (`TimerExpire.SameSecondEarly`). With expire() in
  three steps a client that stops its timer and starts another in between has the new
  one called back at once (`TimerFine.RestartedEarly`); `TimerFine.StopEarlyExactly`
  is the exact condition there.
- `syncDelay` starts from the head listener's delay even when that is zero, so the
  driver gets the least nonzero delay exactly when the head's delay is not zero or
  some delay is negative (`ListenerRuns.DriversTold`, `ListenerRuns.ZeroHeadWins`).
- A centred crop keeps the meaning of every pixel exactly when both margins are
  multiples of four (`Crop.CentredCropExact`): an odd offset splits chroma pairs or
  shifts chroma by a row. The crop writes past its buffer exactly when its width is
  odd and it has a chroma row (`Crop.WritesInsideExactly`), it reads past the frame
  exactly when its last chroma row does (`Crop.CentredReadsExactly`), which a window
  higher than the frame does, and the chroma swap runs
  past the frame exactly when half the luma plane is odd (`Crop.PairsInsideExactly`).
- The frequency cap does not always give way to another writer. A hint that leaves a
  mode on writes its cap over a lower limit, and a release does if the knob still
  holds the cap or cannot be read; `FreqCap.RaisesExactly` and
  `FreqCap.LimitLostExactly` give the exact condition, `FreqCap.ThermalLimitLost` runs.
- A joinable thread that is done before `create` looks at it is freed but never
  joined, and `start` answers false (`ThreadDelegate.JoinedExactly`,
  `ThreadDelegate.NeverJoined`).
- The image builder compares padded sizes only: a file that changed within its last
  page still passes (`DtbLayout.PaddedSizeSees`).

Where comments and code disagree the model follows the code:
gps/utils/LocHeap.h:84-85 says that `remove` looks for a node of the same rank, the
code compares addresses; gps/utils/LocTimer.cpp:207-209 has the two clocks the
wrong way round; gps/utils/LocTimer.cpp:337-338 says that the kernel timer is
updated when the removed timer is not the top, the code updates it when it is;
gps/utils/LocTimer.cpp:365 says that only timers older than now are popped;
dtbtool/dtbtool.c:200 leaves the subtype out of the sort order;
power/power.c:189-191 promises that another writer's lower limit is not overwritten;
sensors/NativeSensorManager.cpp:210-219 tests for a missing dependency after using it.

## Model

| member | source | states |
|---|---|---|
| HeapTree.PushContents | gps/utils/LocHeap.cpp:107-124 | a push adds exactly the pushed object |
| HeapTree.PushSized | gps/utils/LocHeap.cpp:101-124 | a push keeps every stored size equal to the number of nodes below it |
| HeapTree.PushOrdered | gps/utils/LocHeap.cpp:107-124 | a push keeps rank order, and the top is the higher of the old top and the pushed object |
| HeapTree.PushKeepsHeap | gps/utils/LocHeap.cpp:107-124 | order and sizes together are kept by a push |
| HeapTree.Pop | gps/utils/LocHeap.cpp:134-164 | a pop leaves one node fewer, whichever child it descends to |
| HeapTree.PopContents | gps/utils/LocHeap.cpp:134-164 | a pop takes out exactly the top object |
| HeapTree.PopSized | gps/utils/LocHeap.cpp:134-164 | a pop keeps every stored size exact |
| HeapTree.PopOrdered | gps/utils/LocHeap.cpp:134-164 | a pop keeps rank order, and nothing left outranks the object taken |
| HeapTree.PopBringsUp | gps/utils/LocHeap.cpp:134-164 | of two children the left one comes up only if it outranks the right one, and the other stays |
| HeapTree.PopKeepsHeap | gps/utils/LocHeap.cpp:134-164 | order and sizes together are kept by a pop |
| HeapTree.RootDominates | gps/utils/LocHeap.cpp:237-243 | what peek returns is in the heap and outranked by nothing in it |
| HeapTree.WfLocally | gps/utils/LocHeap.cpp:197-220 | checking each node against its children decides order and sizes of the whole tree, both ways |
| HeapTree.PruningSound | gps/utils/LocHeap.cpp:170-193 | an object that outranks a node is nowhere below it, so the search may skip the subtree |
| HeapTree.RemoveFinds | gps/utils/LocHeap.cpp:170-193 | the pruned search succeeds if and only if the object is in the tree |
| HeapTree.RemoveMisses | gps/utils/LocHeap.cpp:170-193 | a failed search leaves the tree as it was |
| HeapTree.RemoveContents | gps/utils/LocHeap.cpp:170-193 | a removal takes exactly one occurrence of the object, or changes nothing |
| HeapTree.RemoveSized | gps/utils/LocHeap.cpp:170-193 | a removal keeps every stored size exact along the search path |
| HeapTree.RemoveOrdered | gps/utils/LocHeap.cpp:170-193 | a removal keeps rank order |
| HeapTree.RemoveKeepsHeap | gps/utils/LocHeap.cpp:170-193 | order, sizes and exactness of a removal together |
| HeapRuns.StepKeepsHeap | gps/utils/LocHeap.cpp:228-267 | every operation keeps the tree a heap with exact sizes |
| HeapRuns.StepRefinesBag | gps/utils/LocHeap.cpp:228-267 | every operation does to the contents what it does to a bag with ranked removal |
| HeapRuns.RunRefinesBag | gps/utils/LocHeap.cpp:228-267 | over any run of pushes, pops and removes the heap stays well formed and refines a bag |
| HeapRuns.PopAllPermutes | gps/utils/LocHeap.cpp:245-254 | popping until empty yields a permutation of the contents |
| HeapRuns.PopAllSorts | gps/utils/LocHeap.cpp:134-164 | no popped object outranks one popped earlier |
| HeapRuns.PushBalanced | gps/utils/LocHeap.cpp:101-124 | a push keeps left size minus right size at 0 or 1 at every node |
| HeapRuns.BalancedIsShallow | gps/utils/LocHeap.cpp:101-124 | a balanced tree of depth h has at least 2^(h-1) nodes |
| HeapRuns.PushAllShallow | gps/utils/LocHeap.cpp:101-124 | a heap built by n pushes is balanced, holds n nodes and is at most 1 + log2 n deep |
| HeapRuns.PushAllPopAllSorts | gps/utils/LocHeap.cpp:228-254 | pushing any sequence and popping it all sorts it by tv_sec |
| LocHeap.LocHeapNode.Push | gps/utils/LocHeap.cpp:107-124 | swapping data down the pointer tree builds the tree of the value-level push and links in exactly the new node |
| LocHeap.LocHeapNode.Pop | gps/utils/LocHeap.cpp:134-164 | the node returned is a childless leaf carrying the old top's data, and the tree loses exactly that node |
| LocHeap.LocHeapNode.Remove | gps/utils/LocHeap.cpp:170-193 | the node returned is a childless leaf carrying the object, or NULL with nothing changed |
| LocHeap.LocHeapNode.CheckNodes | gps/utils/LocHeap.cpp:197-220 | answers true if and only if the tree is in rank order with exact sizes |
| LocHeap.LocHeap.Push | gps/utils/LocHeap.cpp:228-235 | the heap stays valid and its tree becomes that of the value-level push |
| LocHeap.LocHeap.Peek | gps/utils/LocHeap.cpp:237-243 | none if and only if the heap is empty, else a member outranked by nothing |
| LocHeap.LocHeap.Pop | gps/utils/LocHeap.cpp:245-254 | returns the top, and exactly one node leaves the heap |
| LocHeap.LocHeap.Remove | gps/utils/LocHeap.cpp:256-267 | returns the object if and only if it was there, and then exactly one node leaves the heap; otherwise nothing changes |
| LocHeap.LocHeap.CheckTree | gps/utils/LocHeap.cpp:270-272 | a heap reached through its methods always passes its own check |
| TimerContainer.RefreshWatches | gps/utils/LocTimer.cpp:281-306 | updating from no prior top leaves the top polled and armed with its exact deadline |
| TimerContainer.EmptyUnwatches | gps/utils/LocTimer.cpp:285-294 | a heap that has become empty is unpolled and disarmed; without a prior top nothing changes |
| TimerContainer.PushKeepsWatch | gps/utils/LocTimer.cpp:317-321 | a Push message keeps the top watched; it sets the kernel timer for a new top and leaves it alone otherwise |
| TimerContainer.RemoveKeepsTop | gps/utils/LocTimer.cpp:334-346 | the top changes only if it is the timer removed |
| TimerContainer.RemoveRefreshes | gps/utils/LocTimer.cpp:334-346 | the kernel timer is refreshed exactly when the top was removed or the heap was empty |
| TimerContainer.RemoveKeepsWatch | gps/utils/LocTimer.cpp:334-346 | a Remove message keeps the top watched |
| LocTimerContainer.ExpireConserves | gps/utils/LocTimer.cpp:360-374 | timers expired and timers left are together the timers there were, and the rest is a heap |
| LocTimerContainer.ExpiredInOrder | gps/utils/LocTimer.cpp:360-374 | timers expire in nondecreasing tv_sec, and all but the first are due |
| LocTimerContainer.RemainingNotDue | gps/utils/LocTimer.cpp:360-390 | every timer left has tv_sec beyond now's |
| LocTimerContainer.LocTimerContainer.UpdateSoonestTime | gps/utils/LocTimer.cpp:281-306 | polling and arming follow the change of the top in all its cases |
| LocTimerContainer.LocTimerContainer.ProcPush | gps/utils/LocTimer.cpp:317-321 | the object does what the Push message does to container values |
| LocTimerContainer.LocTimerContainer.ProcRemove | gps/utils/LocTimer.cpp:334-343 | the object does what the Remove message does to container values |
| LocTimerContainer.LocTimerContainer.PopIfOutRanks | gps/utils/LocTimer.cpp:383-390 | pops the top if and only if now does not outrank it |
| LocTimerContainer.LocTimerContainer.ProcExpire | gps/utils/LocTimer.cpp:360-374 | the loop expires exactly the sequence proved ordered and due, then watches the new top |
| TimerTheorems.StartMeans | gps/utils/LocTimer.cpp:475-560 | a start makes a timer of the kind asked for, due exactly after the timeout, linked both ways and pushed to that kind's container; with a timer running it changes nothing |
| TimerTheorems.StopMeans | gps/utils/LocTimer.cpp:562-575 | a stop() by the client ends its timer as stopped and queues its removal; without one it changes nothing |
| TimerTheorems.CloseStopMeans | gps/utils/LocTimer.cpp:534-540 | the destructor's stop() ends it as cancelled |
| TimerTheorems.PollHandles | gps/utils/LocTimer.cpp:377-380 | the poll thread's calls disarm the kernel timer, stop polling it and queue one Expire, for that container only |
| TimerTheorems.DeadlineExact | gps/utils/LocTimer.cpp:546-553 | the deadline is the start time plus the timeout, to the nanosecond, in normal form |
| TimerSteps.StopEffect | gps/utils/LocTimer.cpp:484-501 | stop() on a live client touches nothing deleted, clears both links, queues exactly one Remove and records the end; without a timer it changes nothing |
| TimerSteps.StepKeeps | gps/utils/LocTimer.cpp:310-390 | every step of clients, worker and poll thread keeps the whole invariant: links, places, counts, wakeups |
| TimerSteps.RunKeeps | gps/utils/LocTimer.cpp:281-575 | the invariant holds along every run |
| TimerSteps.ReachableKeeps | gps/utils/LocTimer.cpp:281-575 | the invariant holds in every reachable state |
| TimerTheorems.NothingDeletedIsTouched | gps/utils/LocTimer.cpp:310-350 | with expire() in one step, in every interleaving no deleted object is used or deleted again, and heaps hold each undeleted delegate once |
| TimerTheorems.OneMessageEach | gps/utils/LocTimer.cpp:484-501 | each delegate has at most one Push and at most one later Remove in the queue, never after its deletion |
| TimerTheorems.LockCounts | gps/utils/LocSharedLock.h:42-57 | a lock's count is its live client plus its undeleted delegates, and it is deleted with the last |
| TimerTheorems.AtMostOnce | gps/utils/LocTimer.cpp:484-575 | each start ends at most once, by stop, destructor or callback; mClient and mTimer always point at each other |
| TimerTheorems.NoLostWakeup | gps/utils/LocTimer.cpp:281-381 | between messages a nonempty heap has an Expire queued, the poll thread in expire(), or its fd polled and armed with the top's deadline |
| TimerTheorems.ExpireDrainsDue | gps/utils/LocTimer.cpp:355-390 | when an Expire message ends, what it popped was in order and due but for the first, and nothing due is left, with clients running in between |
| TimerTheorems.OnlyFirstCanBeEarly | gps/utils/LocTimer.cpp:367-369 | within one message, if the first timer popped was before its second then no other is popped, and no later one ever is |
| TimerExpire.FirstPopEarly | gps/utils/LocTimer.cpp:360-367 | taking up an Expire message takes out a timer before its time, to the nanosecond, if and only if the heap is not empty and the clock is before its top's deadline |
| TimerExpire.LaterPopEarly | gps/utils/LocTimer.cpp:367-390 | a later pop does if and only if the top is due later in the second read at the start; never before its second |
| TimerExpire.LaterPopNearly | gps/utils/LocTimer.cpp:383-390 | so it is early by less than one second |
| TimerExpire.CallbackEarly | gps/utils/LocTimer.cpp:515-527 | with expire() in one step, the callback comes before its second if and only if the delegate still has its client and is the first popped, taken out early |
| TimerExpire.SameSecondEarly | gps/utils/LocTimer.cpp:503-512 | two timers of one second, the second taken out 0.8 s early |
| TimerExpire.DrainStep | gps/utils/LocTimer.cpp:360-374 | no step of another thread changes what the message under way takes out or leaves |
| TimerExpire.MessageIsLoop | gps/utils/LocTimer.cpp:360-374 | with any steps of other threads in between, the timers popped and the heap left are those of the loop on the heap as it was when the message was taken up |
| TimerFine.FineStep | gps/utils/LocTimer.cpp:515-527 | with expire() in three steps, every step keeps the whole invariant unless it uses a deleted LocTimer, and then the fault shows |
| TimerFine.HoldsDeadStep | gps/utils/LocTimer.cpp:519-540 | a step that uses no deleted LocTimer leaves the worker holding one exactly if it did already or the step is its deletion |
| TimerFine.FineSafeExactly | gps/utils/LocTimer.cpp:515-575 | over every interleaving from the start, freed memory was used or is about to be by the worker's next step if and only if some LocTimer was deleted while the worker held its address; otherwise the whole invariant holds |
| TimerFine.HeldDeadIsUsed | gps/utils/LocTimer.cpp:519-527 | a worker that holds a deleted LocTimer uses it in its next step |
| TimerFine.CoarseIsFine | gps/utils/LocTimer.cpp:515-527 | every run with expire() in one step is a run with it in three |
| TimerFine.DeletedWhileHeld | gps/utils/LocTimer.cpp:519-540 | whenever a timer is about to be called back, its owner can delete it between the read of mClient and the stop() |
| TimerFine.UseAfterFree | gps/utils/LocTimer.cpp:519-540 | a run from the start of the service that uses freed memory |
| TimerFine.StopsWhom | gps/utils/LocTimer.cpp:519-527 | the stop() ends the timer its client has by then: the popped one exactly if nobody stopped it in between |
| TimerFine.StopEarlyExactly | gps/utils/LocTimer.cpp:519-527 | it calls a timer back before its second if and only if the client's mTimer is set then and not due |
| TimerFine.RestartedEarly | gps/utils/LocTimer.cpp:519-575 | a client that stops its timer with success and starts another after the read has the new one called back 1000 seconds early, from any state about to call back |
| TimerFineTheorems.FineNothingTouched | gps/utils/LocTimer.cpp:310-350 | in three steps, to clients that delete no LocTimer while held: nothing deleted is touched, heaps and lock counts are right |
| TimerFineTheorems.FineAtMostOnce | gps/utils/LocTimer.cpp:484-575 | likewise, each start ends at most once |
| TimerFineTheorems.FineNoLostWakeup | gps/utils/LocTimer.cpp:281-381 | likewise, no wakeup is lost |
| TimerFineTheorems.FineRunsEnd | gps/utils/LocTimer.cpp:355-527 | likewise, with clients and clock at rest the threads take a bounded number of steps |
| TimerFineTheorems.FineDueTimersFire | gps/utils/LocTimer.cpp:355-527 | likewise, when the service comes to rest every timer whose second had passed was called back exactly once and deleted |
| TimerProgress.InternalLowers | gps/utils/LocTimer.cpp:355-470 | every step of the service's own threads lowers one measure |
| TimerProgress.InternalRunsEnd | gps/utils/LocTimer.cpp:355-470 | with clients and clock at rest the threads take a bounded number of steps |
| TimerProgress.QuiescentNothingDue | gps/utils/LocTimer.cpp:281-306 | at rest the next timer lies in the future and no timer's second has passed |
| TimerProgress.QuiescentDelegates | gps/utils/LocTimer.cpp:334-346 | at rest running timers are in their heaps and all others are deleted, so none leaks |
| TimerProgress.QuiescentLocks | gps/utils/LocSharedLock.h:50-52 | at rest the lock of every deleted LocTimer is deleted too |
| TimerProgress.DueTimersFire | gps/utils/LocTimer.cpp:355-381 | when the service comes to rest, every running timer whose second had passed was called back exactly once and deleted |
| TimerProgress.ReachesRest | gps/utils/LocTimer.cpp:446-470 | from every state some run of the service's threads comes to rest |
| TimerEarly.EarlyCallback | gps/utils/LocTimer.cpp:334-381 | a reachable state in which a timer was called back 99 seconds early |
| LinkedList.List.Add | gps/utils/linked_list.c:110-155 | appends the item as the newest, or refuses a NULL object and changes nothing |
| LinkedList.List.Remove | gps/utils/linked_list.c:162-204 | takes out the oldest item, or reports that there is none |
| LinkedList.List.Empty | gps/utils/linked_list.c:211-223 | true if and only if there is no item |
| LinkedList.List.Flush | gps/utils/linked_list.c:230-260 | empties the list with exactly the deallocator calls its items ask for |
| LinkedList.List.Search | gps/utils/linked_list.c:267-327 | finds the match nearest the head, removes only that one if asked, and frees its data only if not handed out; on an empty list the caller's pointer is left alone |
| LinkedList.List.Unlink | gps/utils/linked_list.c:297-310 | relinking around an element keeps the list doubly linked and drops that element alone |
| MsgQueue.MsgQ.Snd | gps/utils/msg_q.c:185-221 | succeeds and appends exactly if the message is not NULL and the queue not unblocked; otherwise fails and changes nothing; its elements are old or new |
| MsgQueue.MsgQ.RcvEnter | gps/utils/msg_q.c:228-269 | sleeps exactly on an empty queue that is not unblocked, hands out and removes the oldest message of a nonempty one, refuses once unblocked |
| MsgQueue.MsgQ.RcvLoop | gps/utils/msg_q.c:255-262 | after each wakeup: back to sleep, the oldest message, or none from an unblocked queue |
| MsgQueue.MsgQ.Flush | gps/utils/msg_q.c:276-299 | empties the queue with exactly the deallocator calls of its items |
| MsgQueue.MsgQ.Unblock | gps/utils/msg_q.c:306-335 | sets the flag, loses nothing, and succeeds once |
| MsgQueue.SendAccepted | gps/utils/msg_q.c:198-216 | a message is accepted exactly if not NULL and the queue not unblocked, however much is queued |
| MsgQueue.UnblockUnblocks | gps/utils/msg_q.c:319-328 | unblocking unblocks, wakes every sleeper and loses nothing |
| MsgQueue.NothingLost | gps/utils/msg_q.c:185-335 | over any run of many threads, what left followed by what is queued is what was accepted, in order |
| MsgQueue.FirstInFirstOut | gps/utils/msg_q.c:185-269 | over any run without flush, messages received followed by those queued are those sent, in order |
| MsgQueue.NobodyLeftAsleep | gps/utils/msg_q.c:210-328 | in no run, spurious wakeups included, does a receiver sleep while there is a message and no woken receiver for it, or once the queue is unblocked |
| MsgQueue.UnblockIsFinal | gps/utils/msg_q.c:306-335 | after unblock no send succeeds, no receiver joins and nobody sleeps; only receivers already inside may each take one message |
| MsgQueue.FlushFreesEach | gps/utils/linked_list.c:230-260 | flush calls the deallocator of each item that has one, once, and no other |
| ThreadDelegate.ClientMovePlaced | gps/utils/LocThread.cpp:65-146 | every client step keeps the two threads and the steering fields consistent |
| ThreadDelegate.ThreadMovePlaced | gps/utils/LocThread.cpp:175-202 | so does every step of the spawned thread |
| ThreadDelegate.ClientStepCounted | gps/utils/LocThread.cpp:97-173 | every client step keeps the reference count equal to the holders, with no use after deletion |
| ThreadDelegate.ThreadStepCounted | gps/utils/LocThread.cpp:153-202 | so does every step of the spawned thread |
| ThreadDelegate.RunKeeps | gps/utils/LocThread.cpp:65-226 | both hold along every interleaving |
| ThreadDelegate.FreedOnce | gps/utils/LocThread.cpp:65-226 | the delegate is deleted exactly when both holders are done, once, and never used afterwards; the runnable at most once, exactly if the thread found it |
| ThreadDelegate.JoinedExactly | gps/utils/LocThread.cpp:111-146 | a released thread was joined if and only if a joinable one was asked for and mRunnable was still set when create() looked, that is, if the thread had not got past clearing it; start() answers true exactly then |
| ThreadDelegate.NeverJoined | gps/utils/LocThread.cpp:111-123 | a run in which a joinable thread leaves before create() looks: start() answers false, it is never joined, all is freed |
| ThreadDelegate.LoopGoesOn | gps/utils/LocThread.cpp:186 | while mRunnable is set and run() answers true the thread goes on calling it |
| ThreadDelegate.LoopEnds | gps/utils/LocThread.cpp:186-190 | it leaves the loop as soon as run() answers false or mRunnable is cleared |
| ThreadDelegate.StopAndBye | gps/utils/LocThread.cpp:51-146 | stop() clears mRunnable; bye() leads there for a joinable thread only and lets a detached one run on |
| ThreadDelegate.ClearedAdvances | gps/utils/LocThread.cpp:130-202 | once mRunnable is NULL every effective step brings one thread nearer its end |
| ThreadDelegate.ClearedRunsEnd | gps/utils/LocThread.cpp:130-202 | after stop() cleared mRunnable only a bounded number of steps is left, whatever run() answers |
| ThreadDelegate.RestIsFreed | gps/utils/LocThread.cpp:130-202 | no deadlock: where no step is left both threads are done and the delegate is freed |
| DtbLayout.Padding | dtbtool/dtbtool.c:849-850 | between one byte and a full page, to a whole number of pages |
| DtbLayout.EntryDecodes | dtbtool/dtbtool.c:980-1004 | the last two words of an entry decode to its offset and size in every version |
| DtbLayout.EntryNames | dtbtool/dtbtool.c:981-995 | an entry names its chip word by word, in each version's order |
| DtbLayout.EntryIsWords | dtbtool/dtbtool.c:981-1003 | an entry is exactly these words, in this order, in each version |
| DtbLayout.TableRow | dtbtool/dtbtool.c:980-1004 | row k sits k entries into the table |
| DtbLayout.BlobsLength | dtbtool/dtbtool.c:996-1045 | the second pass writes as many bytes as the first pass laid out |
| DtbLayout.BlobAt | dtbtool/dtbtool.c:996-1045 | each master's blob starts where those used before it end |
| DtbLayout.BlobsDisjoint | dtbtool/dtbtool.c:996-1045 | the blob of a master used earlier ends before that of a later one starts |
| DtbImage.ImageEntry | dtbtool/dtbtool.c:952-1009 | entry k of the image is the row of chip k |
| DtbImage.ImageBlob | dtbtool/dtbtool.c:1012-1045 | the bytes at chip k's offset are its master's blob |
| DtbImage.ReadBack | dtbtool/dtbtool.c:943-1053 | decoding entry k and following it yields its master's file, zero-padded, in versions 1 to 3 |
| DtbImage.ReadBackPlace | dtbtool/dtbtool.c:996-1003 | entry k of the image holds the offset and size planned for its master |
| DtbImage.ReadBackNames | dtbtool/dtbtool.c:980-1004 | entry k of the image names chip k |
| DtbImage.ReadBackHeader | dtbtool/dtbtool.c:951-1007 | the image starts with magic, version and count, and a zero word ends the table |
| DtbImage.ImageTight | dtbtool/dtbtool.c:957-965 | the first blob starts at the first whole page after the table, and the image ends with the last |
| DtbImage.OffsetsWholePages | dtbtool/dtbtool.c:962-1004 | every offset is a multiple of the page size |
| DtbImage.OffsetsDisjoint | dtbtool/dtbtool.c:996-1004 | entries of one master share its blob, blobs of two masters never overlap |
| Chips.LessIsLexicographic | dtbtool/dtbtool.c:213-219 | the order is the dictionary order of chipset, platform, subtype and revision |
| Chips.AboveFromHere | dtbtool/dtbtool.c:212-252 | past the place where a chip goes, every chip is above it, so stopping there misses no duplicate |
| Chips.InsertKeepsOrder | dtbtool/dtbtool.c:212-252 | inserting there keeps the list sorted and free of duplicates |
| Chips.ChipList.InsertBefore | dtbtool/dtbtool.c:220-232 | relinking inserts the chip at that place and keeps the list doubly linked |
| Chips.ChipList.Append | dtbtool/dtbtool.c:245-250 | relinking appends the chip and keeps the list doubly linked |
| Chips.ChipList.Place | dtbtool/dtbtool.c:212-252 | the walk stops at the first chip above the new one, at a duplicate, or at the end |
| Chips.ChipList.Add | dtbtool/dtbtool.c:201-254 | fails if and only if a chip equal in all nine fields is there, and then changes nothing; else inserts in order |
| DtbScan.AddFurther | dtbtool/dtbtool.c:853-861 | the count is the growth of the list, only these chips were added, and all their ids are listed |
| DtbScan.AddFile | dtbtool/dtbtool.c:823-861 | a file adds its chips under its first as master with its padded size, or nothing if empty or a duplicate |
| DtbScan.ScanFile | dtbtool/dtbtool.c:796-861 | one file more keeps the record of which ids are listed and which file each chip came from |
| DtbScan.Scan | dtbtool/dtbtool.c:724-866 | after any files the list is sorted, unique and as long as the count; its ids are exactly those of the files taken in; every master has the first id, path and padded size of its file |
| DtbTool.TakeOffset | dtbtool/dtbtool.c:996-1002 | zero stands for "no offset yet": the first entry of a master gets the running total, later ones the same offset |
| DtbTool.WriteTable | dtbtool/dtbtool.c:980-1004 | pass one writes the table of the layout and ends at the planned total |
| DtbTool.CopyFile | dtbtool/dtbtool.c:1024-1029 | block-wise copying gives the whole file |
| DtbTool.WriteBlob | dtbtool/dtbtool.c:1017-1044 | writes the padded file, or fails if it is gone or changed size |
| DtbTool.WriteBlobs | dtbtool/dtbtool.c:1012-1045 | pass two succeeds if and only if every file is there with the padded size it had, and then writes each master once in order of first use |
| DtbTool.WriteFront | dtbtool/dtbtool.c:943-1009 | header, table, end mark and padding up to the first blob |
| DtbTool.Build | dtbtool/dtbtool.c:943-1053 | succeeds if and only if every file is there with the padded size it had, with the bytes written equal to those expected, and the output is the image proved readable |
| DtbLayout.PaddedSizeSees | dtbtool/dtbtool.c:1030-1036 | padded sizes are equal if and only if the files fill the same number of whole pages |
| DtbLayout.LaidBound | dtbtool/dtbtool.c:996-1002 | the layout takes no more than all the files together, each counted once |
| DtbCombine.Combine | dtbtool/dtbtool.c:916-1053 | from files to image: it succeeds if and only if every listed id's file still has the whole pages it had, and then each entry names its id and leads to that file's contents, zero-padded; magic, version, count and end mark are right, and blobs are whole pages, one for each file, that do not overlap |
| VenusCopy.Align | camera/hal3on1/HAL3on1-adapter.cpp:244-246 | the next multiple at or above |
| VenusCopy.FramesOf | camera/hal3on1/HAL3on1-adapter.cpp:277-298 | strides are the next multiple of 128, luma lines of 32 and chroma lines of 16, with chroma right after luma on both sides |
| VenusCopy.FramesAre | camera/hal3on1/HAL3on1-adapter.cpp:277-298 | the copied rectangle has the smaller width and the smaller height |
| VenusCopy.VenusLuma | camera/hal3on1/HAL3on1-adapter.cpp:297-326 | in the sizes given: every luma byte of a pixel that both frames have is the source's, every other is 16 |
| VenusCopy.VenusChroma | camera/hal3on1/HAL3on1-adapter.cpp:328-344 | every chroma byte whose two pixel rows and column both frames have is the source's, every other is 128 |
| VenusCopy.WithinRows | camera/hal3on1/HAL3on1-adapter.cpp:316-321 | the last row lies inside a buffer if and only if every row does |
| VenusCopy.CopyRows | camera/hal3on1/HAL3on1-adapter.cpp:316-321 | the row loop meets the per-byte specification and touches nothing else |
| VenusCopy.CopyContiguous | camera/hal3on1/HAL3on1-adapter.cpp:313-314 | the single memcpy meets the same specification |
| VenusCopy.FillRest | camera/hal3on1/HAL3on1-adapter.cpp:323-326 | the lines below get the fill value |
| VenusCopy.CopyPlane | camera/hal3on1/HAL3on1-adapter.cpp:313-326 | a whole plane meets the specification on both paths |
| VenusCopy.CopyDetermined | camera/hal3on1/HAL3on1-adapter.cpp:306-340 | the specification fixes every byte, so the two paths give the same buffer |
| VenusCopy.CopyToVenus | camera/hal3on1/HAL3on1-adapter.cpp:274-345 | every luma and chroma byte is the source byte inside the copied rectangle and 16 or 128 outside, for all sizes; nothing past the planes changes |
| VenusCopy.PixelCopied | camera/hal3on1/HAL3on1-adapter.cpp:274-345 | a copied pixel keeps its luma, and its chroma exactly while its pair is copied |
| VenusCopy.OddLosesChroma | camera/hal3on1/HAL3on1-adapter.cpp:297-344 | with an odd copied width or height the corner pixel of a blank frame loses its chroma |
| VenusCopy.ChromaKeptExactly | camera/hal3on1/HAL3on1-adapter.cpp:297-344 | every copied pixel of every frame keeps its chroma pair if and only if the copied width and height are even |
| Crop.CropPoint | camera/hal3on1/HAL3on1-adapter.cpp:792-803 | a window that fits is placed inside the source with margins that differ by at most one; any other at the corner |
| Crop.WritesInsideExactly | camera/hal3on1/HAL3on1-adapter.cpp:823-841 | every row copied stays inside the buffer allocated if and only if the width is even or there is no chroma row |
| Crop.OddCropOverruns | camera/hal3on1/HAL3on1-adapter.cpp:823-841 | a crop of three by two writes a ninth byte into eight |
| Crop.WritesInsideRows | camera/hal3on1/HAL3on1-adapter.cpp:831-841 | that means each row copied ends inside the buffer |
| Crop.InsideReads | camera/hal3on1/HAL3on1-adapter.cpp:831-841 | a window inside a whole frame is read inside it |
| Crop.CentredReadsExactly | camera/hal3on1/HAL3on1-adapter.cpp:792-841 | a crop at the point computed for it, fitting or not, is read inside a whole frame if and only if its last chroma row is |
| Crop.TallReadsExactly | camera/hal3on1/HAL3on1-adapter.cpp:792-841 | no wider than the frame: if and only if it has no more chroma rows |
| Crop.TallCropOverreads | camera/hal3on1/HAL3on1-adapter.cpp:1563-1569 | a stream of 1280 by 960 asked for 640 by 1080 is read past its end |
| Crop.YuvCrop | camera/hal3on1/HAL3on1-adapter.cpp:812-844 | wherever its reads and writes stay inside their buffers, every byte is the source byte at its shifted place; for a window inside the frame it is the cropped frame |
| Crop.CropLuma | camera/hal3on1/HAL3on1-adapter.cpp:831-835 | luma of the crop is luma of the source, shifted |
| Crop.CropChroma | camera/hal3on1/HAL3on1-adapter.cpp:837-841 | chroma of the crop is chroma of the source, shifted by half as many rows |
| Crop.CropKeepsPixel | camera/hal3on1/HAL3on1-adapter.cpp:812-844 | at even offsets each pixel's Y, U and V are those of the source pixel at the shifted position |
| Crop.OddCropLoses | camera/hal3on1/HAL3on1-adapter.cpp:831-841 | at an odd offset some frame changes meaning |
| Crop.CropExact | camera/hal3on1/HAL3on1-adapter.cpp:812-844 | a crop keeps the meaning of every frame if and only if both offsets are even |
| Crop.CentredCropExact | camera/hal3on1/HAL3on1-adapter.cpp:792-844 | the centred crop does if and only if both margins are multiples of four |
| Crop.CropTwice | camera/hal3on1/HAL3on1-adapter.cpp:812-844 | cropping a crop is one crop with the offsets added, unless both vertical offsets are odd |
| Crop.OddCropsDiffer | camera/hal3on1/HAL3on1-adapter.cpp:837-841 | with both vertical offsets odd some frame comes out different |
| Crop.CropTwiceExact | camera/hal3on1/HAL3on1-adapter.cpp:812-844 | two crops compose for every frame if and only if not both vertical offsets are odd |
| Crop.PairsInsideExactly | camera/hal3on1/HAL3on1-adapter.cpp:846-855 | the pair loop stays inside a frame if and only if half the luma plane is even |
| Crop.OddSwapOverruns | camera/hal3on1/HAL3on1-adapter.cpp:852-855 | a frame of three by two has nine bytes, and the loop writes a tenth |
| Crop.Nv21ToNv12 | camera/hal3on1/HAL3on1-adapter.cpp:846-856 | for every size whose pairs fit the buffers, luma is copied and pairs are swapped; an even frame is the frame with its chroma swapped |
| Crop.SwappedPixel | camera/hal3on1/HAL3on1-adapter.cpp:846-856 | every pixel of a swapped frame has its luma and its two chroma bytes the other way round |
| Crop.SwapTwice | camera/hal3on1/HAL3on1-adapter.cpp:846-856 | the swap is its own inverse |
| Crop.SwapCropCommute | camera/hal3on1/HAL3on1-adapter.cpp:812-856 | swapping and cropping at an even column commute |
| CircularReader.TailMoves | sensors/InputEventReader.cpp:62-68 | the head follows the last unread event through the strict wrap test |
| CircularReader.WrapAppends | sensors/InputEventReader.cpp:64-68 | writing past the end and copying down appends to the unread events and overwrites none |
| CircularReader.ScribbleKeeps | sensors/InputEventReader.cpp:54-58 | a failed or partial read can spoil only free slots |
| CircularReader.NextDrops | sensors/InputEventReader.cpp:82-89 | moving on, with its wrap, drops exactly the oldest event |
| CircularReader.InputEventCircularReader.constructor | sensors/InputEventReader.cpp:36-43 | an empty queue, for any capacity |
| CircularReader.InputEventCircularReader.CopyDown | sensors/InputEventReader.cpp:64-66 | copies the overflow half's start down; the ranges never overlap |
| CircularReader.InputEventCircularReader.Fill | sensors/InputEventReader.cpp:50-73 | whole events join the queue in order, errors leave it alone, and events given out followed by unread ones stay the events read in |
| CircularReader.InputEventCircularReader.ReadEvent | sensors/InputEventReader.cpp:75-80 | 1 and the oldest unread event if there is one, else 0 |
| CircularReader.InputEventCircularReader.Next | sensors/InputEventReader.cpp:82-89 | gives out exactly the oldest unread event; the reader stays valid if and only if there was one |
| ListenerGraph.UnregisteredDistinct | sensors/NativeSensorManager.cpp:632-649 | a listener taken off is gone and the others stay, each once |
| ListenerGraph.EffectiveDelayIsLeast | sensors/NativeSensorManager.cpp:999-1017 | the delay is the least nonzero one if and only if the head's is not zero or some delay is negative |
| ListenerGraph.EffectiveLatencyIsLeast | sensors/NativeSensorManager.cpp:1040-1050 | the latency is the least of the listeners' |
| ListenerGraph.AttachKeeps | sensors/NativeSensorManager.cpp:933-946 | attaching changes one sensor's listeners and leaves every driver told right |
| ListenerGraph.DetachKeeps | sensors/NativeSensorManager.cpp:948-968 | so does detaching, also from an empty list and for a sensor that was not listening |
| ListenerRuns.UseAllKeeps | sensors/NativeSensorManager.cpp:931-971 | the loop over the background sensors moves v on or off exactly their lists |
| ListenerRuns.SyncAllSyncs | sensors/NativeSensorManager.cpp:1091-1094 | every sensor on the list is told, the others stay as they were told |
| ListenerRuns.InitialInv | sensors/NativeSensorManager.cpp:281-310 | the invariant holds at start-up |
| ListenerRuns.ActivateKeeps | sensors/NativeSensorManager.cpp:909-980 | activate keeps listener lists, delays, latencies and switches right |
| ListenerRuns.RetuneKeeps | sensors/NativeSensorManager.cpp:1084-1165 | telling the sensors v depends on is enough, for no other can have v as a listener |
| ListenerRuns.ActivateMeans | sensors/NativeSensorManager.cpp:909-980 | the sensor's flag is set and no other setting changes; a virtual or one-shot sensor's own driver is told |
| ListenerRuns.SetDelayMeans | sensors/NativeSensorManager.cpp:1084-1089 | the sensor gets the delay asked for, raised to the minimum as computed in 32 bits, and no other setting changes |
| ListenerRuns.BatchMeans | sensors/NativeSensorManager.cpp:1154-1156 | the sensor gets the sample period as delay and the latency as latency, and no other setting changes |
| ListenerRuns.RefusedChangesNothing | sensors/NativeSensorManager.cpp:1069-1152 | refused calls, and rates for a one-shot sensor, change nothing |
| ListenerRuns.AttachesLast | sensors/NativeSensorManager.cpp:610-629 | a sensor with one background sensor goes to the end of its list |
| ListenerRuns.MinimumKeptExactly | sensors/NativeSensorManager.cpp:1084-1089 | the sensor's own minimum is kept for every delay asked for if and only if it fits an int in nanoseconds |
| ListenerRuns.StepKeeps | sensors/NativeSensorManager.cpp:909-1166 | every call keeps the invariant |
| ListenerRuns.RunKeeps | sensors/NativeSensorManager.cpp:909-1166 | so does every sequence of calls |
| ListenerRuns.ListenersExact | sensors/NativeSensorManager.cpp:610-649 | after any calls v is on hw's list, once, if and only if it is enabled, not one-shot and depends on hw |
| ListenerRuns.DriversTold | sensors/NativeSensorManager.cpp:909-1166 | after any calls each driver's last delay and latency are those its listeners call for, and a hardware driver is on exactly while it has listeners, once told |
| ListenerRuns.ZeroHeadWins | sensors/NativeSensorManager.cpp:1001-1017 | a run in which a driver is told 0 although a listener asked for 20 ms |
| NativeSensorManager.NativeSensorManager.AddDependency | sensors/NativeSensorManager.cpp:198-236 | adds a background sensor once, to virtual sensors only, and narrows the maximum delay; for an unknown handle it reads through NULL and gives no answer |
| NativeSensorManager.NativeSensorManager.RegisterListener | sensors/NativeSensorManager.cpp:610-629 | appends a listener unless it is there |
| NativeSensorManager.NativeSensorManager.UnregisterListener | sensors/NativeSensorManager.cpp:632-649 | takes the listener off, or fails and changes nothing |
| NativeSensorManager.NativeSensorManager.SyncDelay | sensors/NativeSensorManager.cpp:982-1021 | the loop computes the delay of the graph and tells only a sensor with listeners |
| NativeSensorManager.NativeSensorManager.SyncLatency | sensors/NativeSensorManager.cpp:1023-1058 | likewise for the latency, told only to a sensor with a FIFO |
| NativeSensorManager.NativeSensorManager.Activate | sensors/NativeSensorManager.cpp:909-980 | keeps the invariant, does what the graph says, and reports an unknown handle |
| NativeSensorManager.NativeSensorManager.SetDelay | sensors/NativeSensorManager.cpp:1060-1097 | likewise, and refuses a zero delay |
| NativeSensorManager.NativeSensorManager.Batch | sensors/NativeSensorManager.cpp:1131-1166 | likewise, and refuses a latency below the sample period |
| FreqCap.LowestCap | power/power.c:198-205 | a cap of an active mode, no higher than that of any active mode: 800000 in low power, else 1209600 |
| FreqCap.PowerHal.ApplyFreqCapLocked | power/power.c:193-244 | the static variables and the knob change as the step function says, for every outcome of reading and writing |
| FreqCap.PowerHal.HintLowPower | power/power.c:315-330 | one LOW_POWER hint is one step |
| FreqCap.PowerHal.HintSustained | power/power.c:331-345 | one SUSTAINED_PERFORMANCE hint is one step |
| FreqCap.RunConsistent | power/power.c:193-244 | whatever fails, an applied cap is the one the modes call for |
| FreqCap.HintRecords | power/power.c:193-244 | which mode a hint sets, when a cap is recorded and a value saved, for every outcome of reading and writing |
| FreqCap.UndisturbedRun | power/power.c:193-244 | undisturbed, the knob holds the lowest active cap while any mode is on and its original value whenever both are off |
| FreqCap.ReleaseYields | power/power.c:233-243 | exactly when a release overwrites the knob: it still holds the applied cap or cannot be read |
| FreqCap.NothingInvented | power/power.c:193-244 | whatever fails and whoever else writes, the knob holds a cap, the first value or one another writer wrote |
| FreqCap.SpellKeepsSaved | power/power.c:207-227 | while some mode stays on the value to restore is never overwritten |
| FreqCap.SpellRestores | power/power.c:193-244 | a whole spell of capping restores the earlier value if the knob still holds the cap, else keeps another writer's |
| FreqCap.WorkingRun | power/power.c:193-244 | where reading and writing work, whoever else writes, the cap recorded is always the one the modes call for |
| FreqCap.RaisesExactly | power/power.c:193-244 | for every hint and every outcome of reading and writing, the exact condition on the state before for the knob to be raised |
| FreqCap.LimitLostExactly | power/power.c:193-244 | after any run, a limit that another writer sets is raised by the next hint exactly then |
| FreqCap.WorkingLimitLost | power/power.c:193-244 | where all works: exactly if the hint leaves a mode on with a higher cap, or it is a release, the limit equals the cap and the saved value is higher |
| FreqCap.ThermalLimitLost | power/power.c:207-243 | runs in which a thermal limit is raised by a second hint, and by a release that cannot read the knob |

## Left out

- TimerTheorems.NothingDeletedIsTouched: takes `LocTimerDelegate::expire` as one step, which `TimerFine` takes apart; objects are named by numbers that are never reused, so the reuse of a freed address is not modelled.
- TimerTheorems.ExpireDrainsDue: deadlines are ordered by whole seconds, as the code orders them, and the difference of two tv_sec values is taken to fit an int.
- TimerProgress.DueTimersFire: timerfd, epoll and allocation are taken to succeed, and the kernel to report a timer that is polled and past its time; the fallback to CLOCK_MONOTONIC is not modelled.
- LocHeap.LocHeapNode.Pop: the C++ reference to the parent's child pointer becomes a returned pointer that the caller stores; the destructor of a whole tree is not modelled.
- Crop.YuvCrop: sizes and offsets are not negative; what an access outside a buffer does is not modelled.
- ListenerRuns.SetDelayMeans: a product that overflows an int is taken to wrap around.
- MsgQueue.NobodyLeftAsleep: a signal wakes one sleeper if there is any, and fairness of the mutex is not modelled.
- LinkedList.List.Add: NULL list handles and failing allocation are not modelled.
- ThreadDelegate.FreedOnce: one delegate with one client; destroy() is one step, and whether the runnable leaks when stop() comes before the thread reads it is stated, not excluded.
- DtbScan.Scan: takes a list of files with their ids parsed; dtc, the directory walk, a failing subdirectory, and the uninitialised oppoId of version 1 files are not modelled.
- DtbCombine.Combine: all files together are taken to stay below 4 GiB, since offsets are 32-bit words.
- DtbTool.Build: the image is taken to stay below 4 GiB, since offsets are 32-bit words, the host to be little-endian and the version to be 1, 2 or 3; short writes are not modelled.
- VenusCopy.CopyToVenus: sizes are not negative, the buffers are large enough and do not overlap; 32-bit overflow of the sizes is not modelled.
- NativeSensorManager.NativeSensorManager.Activate: `enable` is a flag, and what drivers answer is ignored except for one-shot sensors, as in the code.
- FreqCap.PowerHal.ApplyFreqCapLocked: frequencies are numbers, and the knob reads back what was written; text conversion and rounding by the kernel are not modelled.
- The callbacks a client makes from timeOutCallback, and the C wrapper LocTimerWrapper.
- The destruction of queues, lists, containers and the poll task.
- readEvents and flush of the sensor HAL, and the virtual sensors' event ring.
- The rest of the camera adapter and wrapper, the sensor drivers, calibration and sysfs scanning.
- gps/core, gps configuration and logging, HIDL radio wrappers, lights, usb, vibrator, init and shims: forwarding or I/O.
- Weak memory effects: every step is atomic and seen by all threads at once.
