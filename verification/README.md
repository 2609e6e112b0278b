# PFunc in Dafny

PFunc is a shared-memory task-parallel runtime. This project models its synchronisation protocols, its scheduler, its
task queues, the fork-join algorithms built on them and its argument packing, and proves what they are for: safety over
every run and every interleaving, independence of the schedule, and round trips.

`dafny verify dfyconfig.toml` checks everything.

| module | what it models |
|---|---|
| `FutexMutex` | the three-state futex mutex, one action per memory operation or futex call |
| `BarrierSpec`, `FutexBarrier`, `GroupBarrier`, `GroupOnWorkers` | a reference barrier, the thread barrier and the work-stealing group barrier that refine it, and a group on a limited number of worker threads |
| `CompletionEvent` | the testable and the waitable completion event |
| `Policies`, `TaskQueues`, `GetTask` | task predicates, the four task queue sets, and the regulated search for a task |
| `Scheduler`, `SchedulerTheorems`, `SchedulerHistory` | spawning, running and nested execution of tasks on any number of threads, what every run keeps, and what happens to tasks and searches over time |
| `ForkJoin`, `SpawnAndWait` | fork-join programs over a shared memory: race-free programs do not depend on the schedule; and how spawn and wait run them |
| `ParallelFor`, `ParallelReduce`, `MatrixViews`, `MatrixMultiply`, `ProductLaws` | range splitting, the parallel loop, the reduction, block matrix multiplication, and what a product of matrices is |
| `GraphTraversal`, `TraversalJoin`, `TraversalStacks` | the parallel graph traversal with 8-bit colours, its tree of spawns and waits, and the call stacks of its workers |
| `PackFormat`, `PackScanner`, `PackBuffer` | the format language, the hand-written scanner, and packing and unpacking |

## How to read the model

Protocols whose threads interleave between two memory operations cannot be methods that run to their end. They are
transition systems: a `State`, an `Action` per memory operation, `Enabled`, `Do`, and `After` for a run of any length.
History that the program does not store (rounds entered, tasks started) is part of the state and never decides a step.
Code that one thread runs undisturbed is imperative: the queue sets and the parallel loop are classes, `get_task`, the
three-loop product, the format scanner and the packing procedures are methods with loops, proved against specification
functions.

Number of threads, length of a run, queue contents, ranges, matrices, graphs and formats are unbounded. Machine words
wrap where the code relies on it: the waiter count, the barrier counts, the attempt counter, `size_t` split points, and
colours.

Where the code and its documentation differ, the model follows the code:

- `trylock` (pfunc/mutex.hpp:64-69) answers the negation of what pfunc/mutex.hpp:131-132 documents.
- Compare-and-swap returns the old value (pfunc/asm/x86.h:69-78), not what pfunc/pfunc_atomics.h:34-39 says.
- The prioS predicates need a strictly greater priority (pfunc/predicate.hpp:231-236).
- The order axioms of pfunc/concepts/PartialOrder.concept.ipp:15-19 contradict each other; priorities are assumed to
  form a strict weak order, as tutorial/custom.tex:517-519 asks.
- `char` and `unsigned char` pointers get the same tokens (lib/pfunc_pack.cpp:127-144).

Properties that do not hold in general come with the exact condition:

- The block product is right for all matrices if and only if every halved dimension is even
  (`MultipliesExactlyWhenEven`).
- The traversal expands each vertex at most once with fewer than 256 workers, and can expand one twice with 256 or more
  (`TraversalIsExact`, `TooManyWorkersExpandTwice`).
- The barrier scan of priority queues can miss an acceptable task (`GroupScanIsIncomplete`). It can return NULL if and
  only if every queue with an acceptable task has a maximal task of the caller's group (`GroupScanCanFailExactly`), and
  must, however ties are broken, if and only if all maximal tasks of those queues are of it
  (`GroupScanMustFailExactly`).
- Range splitting terminates if and only if the base case is positive or the range is empty (`SplittingEndsExactly`).
- `event::wait` can be relied on throughout a run if and only if no futex_wait of the run returned before completion,
  spuriously or by a wake still owed from an earlier use of the event (`WaitsAreSafeExactlyWithoutEarlyReturns`). The
  second happens without any spurious return: a client that has seen completion may reset and wait again before the
  notifier calls futex_wake (`ReuseCanReturnEarly`). A reset of a waitable event is safe if and only if no notifier still
  owes its wake (`ResetIsSafeExactly`).
- A group alone never gets stuck at the stealing barrier if and only if it has no more members than there are worker
  threads (`NeverStuckExactly`, `LargerGroupIsStuck`), as tutorial/design.tex:525-529 asks.
- The testable event stores INACTIVE at most once before 2^32 + n decrements, and twice is possible at that number
  (`InactiveIsStoredOnce`, `SecondStoreIsPossible`).

## Model

| member | source | states |
|---|---|---|
| `FutexMutex.ExclusionStep` | pfunc/mutex.hpp:40-75 | every memory operation keeps mutual exclusion, and keeps the word nonzero exactly while somebody holds the lock |
| `FutexMutex.OthersKeepHelping` | pfunc/mutex.hpp:44-75 | while somebody sleeps, no operation other than a wake can leave the sleeper without the waiters mark and without an awake helper |
| `FutexMutex.WakeupStep` | pfunc/mutex.hpp:44-75 | every operation keeps the no-lost-wake-up condition |
| `FutexMutex.InvAlways` | pfunc/mutex.hpp:40-75 | both invariants hold after every run from a state that has them |
| `FutexMutex.MutexCorrect` | pfunc/mutex.hpp:40-75 | for any number of threads and any interleaving: the word is nonzero exactly when one thread holds the lock, and a sleeper has the waiters mark, an owed wake, or an awake thread in the slow path |
| `FutexMutex.StepRefinesLock` | pfunc/mutex.hpp:40-75 | every operation is a step of an abstract lock: only a free lock is taken, only the owner releases it |
| `FutexMutex.TryLockAnswerIsInverted` | pfunc/mutex.hpp:64-69 | trylock answers true exactly when it did not take the lock, which is exactly when somebody holds it; it takes a free lock without a mark and otherwise changes nothing |
| `FutexMutex.UncontendedLockAndUnlock` | pfunc/mutex.hpp:40-75 | an uncontended lock and its unlock are one memory operation each, make no futex call and leave the word as it was |
| `FutexMutex.ContendedLockSleeps` | pfunc/mutex.hpp:40-57 | a lock that finds the word taken marks it, spins exactly its limit and sleeps, and leaves the other threads alone |
| `FutexMutex.FreeWordIsTakenAtOnce` | pfunc/mutex.hpp:44-61 | a thread in the slow path that finds the word free, or returns from the futex for any reason, takes it with its next operation, marked |
| `FutexMutex.UnlockHandsOver` | pfunc/mutex.hpp:71-75 | unlock, wake and the woken thread's attempt hand a marked lock over to a sleeper |
| `FutexMutex.ProgressStep` | pfunc/mutex.hpp:40-75 | unless all threads are idle some operation brings them closer to being idle |
| `FutexMutex.EverybodyCanFinish` | pfunc/mutex.hpp:40-75 | no state that satisfies the invariant is a deadlock: a continuation exists in which all threads get and release the lock |
| `BarrierSpec.BarrierSafe` | pfunc/barrier.hpp:31-57 | the reference barrier: in every behaviour nobody leaves a round before all have entered it, and nobody is a round ahead |
| `BarrierSpec.ArrivedBounds` | pfunc/barrier.hpp:31-57 | the number of arrivals is the size exactly if all have arrived, and zero exactly if nobody has |
| `FutexBarrier.LocalAtFlip` | pfunc/barrier.hpp:42-45 | the phase flip leaves every thread's view of its round consistent, because everybody has arrived by then |
| `FutexBarrier.CountStep` | pfunc/barrier.hpp:31-57 | the count is the size minus the arrivals, except in the window between last arrival and reset, and one thread at most closes a round |
| `FutexBarrier.SleepStep` | pfunc/barrier.hpp:43-55 | a thread asleep on a finished round is still owed a wake |
| `FutexBarrier.InvAlways` | pfunc/barrier.hpp:31-57 | the whole invariant holds after every run |
| `FutexBarrier.BarrierCorrect` | pfunc/barrier.hpp:31-57 | over any number of threads, rounds and interleavings: nobody leaves round k before all have entered it, the count is the size whenever a round starts, finished rounds' sleepers are owed a wake, and not everybody sleeps |
| `FutexBarrier.StepRefinesBarrier` | pfunc/barrier.hpp:31-57 | every memory operation is a step of the reference barrier or invisible to it |
| `FutexBarrier.RunRefinesBarrier` | pfunc/barrier.hpp:31-57 | every run is a behaviour of the reference barrier and inherits its safety |
| `FutexBarrier.PhaseTellsTheRound` | pfunc/barrier.hpp:46-55 | a waiting thread finds its phase unchanged exactly while its round is open |
| `FutexBarrier.WaiterFallsAsleep` | pfunc/barrier.hpp:47-55 | a thread whose round is open spins exactly its limit and sleeps on the phase it has read |
| `FutexBarrier.ChangeEndsTheWait` | pfunc/barrier.hpp:47-55 | once the phase has changed a test leaves, a spin ends, a futex call does not sleep, and a sleeper that returns tests again |
| `FutexBarrier.EverybodyCanLeave` | pfunc/barrier.hpp:38-57 | no state of the invariant is stuck: a continuation without spurious returns exists in which everybody enters and leaves the open round |
| `GroupBarrier.LocalAtFlip` | pfunc/group.hpp:62-67 | when the bit flips every other member is polling with the old value, so no waiter is lapped |
| `GroupBarrier.LockStep` | pfunc/group.hpp:59-74 | exactly the member between lock and unlock owns the group's lock |
| `GroupBarrier.CountStep` | pfunc/group.hpp:59-74 | the count is the number of arrivals of the open generation, up to its reset by the last one |
| `GroupBarrier.InvAlways` | pfunc/group.hpp:59-74 | the whole invariant holds after every run |
| `GroupBarrier.GroupBarrierCorrect` | pfunc/group.hpp:59-74 | for any group size, rounds and interleaving: nobody returns from its k-th barrier before all have made the k-th call, members stay within one flip of the generation, and the bit is the generation's parity |
| `GroupBarrier.StepRefinesBarrier` | pfunc/group.hpp:59-74 | every operation is a step of the reference barrier or invisible to it |
| `GroupBarrier.RunRefinesBarrier` | pfunc/group.hpp:59-74 | every run is a behaviour of the reference barrier and inherits its safety |
| `GroupBarrier.PhaseTellsTheGeneration` | pfunc/group.hpp:69-71 | comparing one bit decides the unbounded question whether the generation has moved past the member's call |
| `GroupBarrier.EverybodyCanLeave` | pfunc/group.hpp:59-74 | if every member runs on a thread of its own, no state of the invariant is stuck: a continuation exists in which everybody enters and leaves the open round |
| `GroupOnWorkers.NeverStuckExactly` | pfunc/taskmgr.hpp:732-765 | on a limited number of workers, each keeping the member it runs and refusing others of the group: wherever a run of a group alone has got to, its open round can be left by all, if and only if the group has no more members than there are workers |
| `GroupOnWorkers.EverybodyCanEnd` | pfunc/group.hpp:59-74 | with enough workers the whole group can begin, make all its barrier calls and end |
| `GroupOnWorkers.CallsAreBounded` | pfunc/group.hpp:59-74 | in every run each member arrives at the barrier at most as often as it calls it |
| `GroupOnWorkers.LargerGroupIsStuck` | pfunc/predicate.hpp:94-96 | with more members than workers no run completes a round and no member ever returns from the barrier |
| `CompletionEvent.OneIsSeenOnce` | pfunc/event.hpp:63-71 | a 32-bit count finds the value one at the n-th decrement and then once per 2^32 |
| `CompletionEvent.InvAlways` | pfunc/event.hpp:63-109 | the event's invariant holds after every run in which no futex_wait returned before completion, resets that overtake an owed wake included |
| `CompletionEvent.EventCorrect` | pfunc/event.hpp:63-109 | in every such run, in any interleaving and however often it is repeated, a test answers exactly whether completion had been published when it began; a wait returns only after completion; a sleeper means incomplete or an owed wake |
| `CompletionEvent.InactiveIsStoredOnce` | pfunc/event.hpp:63-81 | the tests that store INACTIVE are counted by the decrements alone: none before the n-th, at most one until the count wraps |
| `CompletionEvent.SecondStoreIsPossible` | pfunc/event.hpp:63-71 | for every n the bound is tight: after 2^32 + n decrements a second test can go on to store INACTIVE |
| `CompletionEvent.InactiveExactlyAfterAStore` | pfunc/event.hpp:63-100 | in every run the state is INACTIVE exactly if the event has never been used or one of the stores due has been made |
| `CompletionEvent.TestableEventCloses` | pfunc/event.hpp:63-71 | a used testable event that nobody is testing is INACTIVE exactly if at least n tests have decremented the count |
| `CompletionEvent.ClosedEventIsLeftAlone` | pfunc/event.hpp:65 | a test of an inactive event answers true and leaves count and state alone |
| `CompletionEvent.UndisturbedTest` | pfunc/event.hpp:63-71 | a test that runs undisturbed on a complete event answers true, takes one off the count, and stores INACTIVE exactly if it found one |
| `CompletionEvent.UndisturbedWait` | pfunc/event.hpp:94-100 | a wait that runs undisturbed on a complete event returns, takes one off the count, and stores INACTIVE exactly if it found zero |
| `CompletionEvent.CompletionBeforeTheSleep` | pfunc/event.hpp:95-99 | if completion comes between a wait's look at the state and its futex call, the wait does not sleep and returns |
| `CompletionEvent.SpuriousReturnBreaksWait` | pfunc/event.hpp:94-100 | from every sleep before completion, a spurious return makes wait return before completion |
| `CompletionEvent.WaitsAreSafeExactlyWithoutEarlyReturns` | pfunc/event.hpp:94-109 | waits can be relied on at every point of a run if and only if no futex_wait of the run returned before completion, be it spuriously or by the wake of an earlier use |
| `CompletionEvent.ResetIsSafeExactly` | pfunc/event.hpp:78-81 | after a reset of a waitable event, waits can be relied on in all runs without spurious returns and with such resets only, if and only if no notifier owed its wake at the reset |
| `CompletionEvent.ReuseCanReturnEarly` | pfunc/event.hpp:105-109 | from a fresh event: wait, see completion, reset and wait again, and the first use's wake ends the second wait before completion, with nothing spurious |
| `CompletionEvent.StepRefinesFlag` | pfunc/event.hpp:63-109 | every memory operation is a step of a one-bit flag or invisible to it; a test is atomic at its first read, a wait ends only while the flag is up |
| `CompletionEvent.RunRefinesFlag` | pfunc/event.hpp:63-109 | every run in which no futex_wait returns before completion is a run of the flag |
| `TaskQueues.GetUndoesPut` | pfunc/cilk.hpp:143-181 | a task put into the caller's queue comes straight back from the next scan there and leaves all queues as before, whenever it is next: always under cilkS and lifoS, into an empty queue under fifoS, above all others under prioS |
| `TaskQueues.TaskQueueSet.End` | pfunc/prio.hpp:49-54 | the element a queue shows: first, last, by ownership, or a maximal one |
| `TaskQueues.TaskQueueSet.TestAndGet` | pfunc/prio.hpp:116-139 | takes the shown element exactly if the predicate accepts it, and otherwise changes nothing |
| `TaskQueues.TaskQueueSet.Get` | pfunc/cilk.hpp:143-161 | the cyclic scan: the first queue in the order of visits whose end is accepted gives up that end, and no other queue changes; fails only if all refuse |
| `TaskQueues.ScanVisitsEachQueueOnce` | pfunc/fifo.hpp:107-122 | a scan starts at its own queue and its attempts and the queues correspond one to one |
| `TaskQueues.ScanConserves` | pfunc/lifo.hpp:106-121 | the tasks in all queues before a scan are those after it and the one returned |
| `TaskQueues.TopDecides` | pfunc/prio.hpp:116-139 | if a priority queue's top does not outrank the waiting task, nothing in the queue does |
| `TaskQueues.PrioWaitingScanIsComplete` | pfunc/prio.hpp:156-172 | at a waiting point NULL is returned exactly if no task in any queue has a priority above the waiting task's, and a returned task is maximal in its queue |
| `TaskQueues.RegularScanFailsOnlyWhenEmpty` | pfunc/fifo.hpp:107-122 | at the main loop, under every policy, a scan fails exactly if all queues are empty |
| `TaskQueues.UnhinderedScanFailsOnlyWhenEmpty` | pfunc/predicate.hpp:61-283 | at a wait and at a barrier, too, a scan returns NULL exactly if all queues are empty, when no queued task has a lower level (cilkS), lacks a higher priority (prioS) or is of the caller's group (barrier); under fifoS and lifoS a wait takes anything |
| `TaskQueues.TakenIsSuitable` | pfunc/predicate.hpp:61-283 | and what a scan returns has none of these hindrances |
| `TaskQueues.GroupScanIsIncomplete` | pfunc/predicate.hpp:277-283 | at a barrier the priority scan can fail although an acceptable task is queued |
| `TaskQueues.GroupTopDecides` | pfunc/predicate.hpp:277-283 | in a queue that holds an acceptable task the top is refused exactly if it is of the caller's own group |
| `TaskQueues.GroupScanCanFailExactly` | pfunc/prio.hpp:156-172 | a barrier scan can return NULL if and only if every queue with an acceptable task has a maximal task of the caller's group |
| `TaskQueues.GroupScanMustFailExactly` | pfunc/prio.hpp:156-172 | every barrier scan returns NULL, however ties are broken, if and only if in every queue with an acceptable task all maximal tasks are of the caller's group |
| `TaskQueues.HistoryIsOrdered` | pfunc/cilk.hpp:68-181 | over any history of puts and scans each queue stays ordered by arrival |
| `TaskQueues.TakesInOrder` | pfunc/cilk.hpp:68-163 | over any history and with any predicates: a cilkS owner takes the newest task left in its queue, a thief the oldest of the queue it robs, fifoS the oldest and lifoS the newest of the chosen queue |
| `GetTask.SearchBurst` | pfunc/taskmgr.hpp:580-583 | the inner loop ends by completion, by a task, or with its budget of scans used up exactly |
| `GetTask.Search` | pfunc/taskmgr.hpp:560-593 | for every max_attempts, 0 included: at most max_attempts scans before the first yield and max(1, max_attempts/2) between later ones, yields only after full bursts, NULL only after completion was seen, a found task always returned; after completion was seen nothing is scanned, and if it stays one more test ends the search with NULL; the wrapped counter is never read |
| `Scheduler.ThreadStep` | pfunc/taskmgr.hpp:646-765 | every step keeps each call stack well formed, the saved copies equal to the task below, and the cache right |
| `SchedulerTheorems.ConservationStep` | pfunc/taskmgr.hpp:281-298 | every step keeps the bag of queued, carried and finished tasks equal to the set of spawned tasks |
| `SchedulerTheorems.HistoryStep` | pfunc/taskmgr.hpp:652-654 | starts are the tasks now running plus the finished ones, notifications are the finished ones |
| `SchedulerTheorems.InvAlways` | pfunc/taskmgr.hpp:560-765 | the scheduler's invariant holds after every run |
| `SchedulerTheorems.TasksAreConserved` | pfunc/taskmgr.hpp:281-298 | in every reachable state each spawned task is in one queue slot, on one stack, or finished, and in one of them only; it starts and is notified at most once; a popped task is never dropped, whatever completion or cancellation does meanwhile |
| `SchedulerHistory.TasksLieWhereTheyWereSpawned` | pfunc/taskmgr.hpp:290-295 | in every run a task lies only in the queue that its spawn named |
| `SchedulerHistory.QueuesLieInPutOrder` | pfunc/taskmgr.hpp:295 | in every run each queue holds some of the tasks put into it, in the order of the puts, under cilkS in the opposite order |
| `SchedulerHistory.TakesFromTheEnd` | pfunc/cilk.hpp:143-161 | a thread takes the first task of a queue under fifoS, the last under lifoS, and under cilkS the newest of its own queue and the oldest of another |
| `SchedulerHistory.SuccessfulSearchIsScan` | pfunc/taskmgr.hpp:580-583 | visits that refuse some queues and take from the next, undisturbed, are the scan of the queue set from the thread's own queue on |
| `SchedulerHistory.FailedSearchIsScan` | pfunc/taskmgr.hpp:746-749 | visits that refuse every queue, undisturbed, are a scan that returns NULL; a wait then tests again and a barrier returns |
| `SchedulerHistory.CompletedSearchEnds` | pfunc/taskmgr.hpp:580-584 | once the completion predicate holds, two tests end the search: no queue is looked into and nothing more is run |
| `SchedulerHistory.CancelledWorkerEnds` | pfunc/taskmgr.hpp:648-655 | a cancelled worker leaves its loop at its next test |
| `SchedulerHistory.FinishedBlockReturns` | pfunc/task.hpp:123 | a blocked wait for a finished task returns in one step |
| `SchedulerHistory.NotifierOwesTheWake` | pfunc/event.hpp:105-109 | from publishing a waitable task to its wake the notifier owes the wake, and no longer |
| `SchedulerHistory.SpawnPutsTask` | pfunc/taskmgr.hpp:281-298 | an undisturbed spawn into an object that nothing uses leaves the task in the named queue and the caller as it was |
| `SchedulerHistory.WaitsBegin` | pfunc/taskmgr.hpp:697-705 | a worker's task can begin a nested wait or a barrier search with its description saved, anybody a blocking wait, the main program no search |
| `SchedulerHistory.SearchGoesOn` | pfunc/taskmgr.hpp:579-587 | a search that is not complete looks into its own queue first, or yields and is where it was |
| `SchedulerHistory.TaskStarts` | pfunc/taskmgr.hpp:652-653 | a task that was found runs next, with the cache describing it |
| `SchedulerHistory.TaskEnds` | pfunc/taskmgr.hpp:713-721 | when its function returns a task is published and notified once, and the loop that ran it goes on with the cache restored, a barrier back in its caller |
| `SchedulerHistory.ThreadsAtStart` | pfunc/taskmgr.hpp:697 | all threads but the last start in the worker loop, the last is the main program |
| `SchedulerTheorems.WaitReturnsAfterCompletion` | pfunc/task.hpp:116-129 | a wait returns only after its task has run once and been notified once; a nested wait always, a blocked one unless a notifier of an earlier use of the same task object still owes its wake |
| `SchedulerTheorems.EventsAreUsedProperly` | pfunc/taskmgr.hpp:281-298 | in every run whose callers respawn an object only after its last use and its waits: an event is reset only while nobody waits on it, notified once while incomplete, completed by that alone, and no object is live twice; that the last wake has been issued is not among it |
| `SchedulerTheorems.CacheDescribesInnermostTask` | pfunc/taskmgr.hpp:700-721 | whenever user code runs on a worker, at any depth, the cache holds the attribute, group, size and rank of the innermost task |
| `SchedulerTheorems.PrioritiesIncrease` | pfunc/predicate.hpp:231-244 | under prioS priorities strictly increase from the bottom of a stack to its top |
| `SchedulerTheorems.LevelsDoNotDecrease` | pfunc/predicate.hpp:135-141 | under cilkS levels never decrease from the bottom of a stack to its top |
| `SchedulerTheorems.NestingIsOrdered` | pfunc/predicate.hpp:135-283 | both orders in every run, and a task run from a barrier is not of the group of the task directly below it |
| `SchedulerTheorems.DepthIsBoundedByPriorities` | pfunc/predicate.hpp:231-236 | under prioS a worker never nests more tasks than there are priorities among the spawned tasks |
| `ForkJoin.TraceIsPermutation` | pfunc/parallel_for.hpp:72-90 | every schedule performs the operations of the serial execution, each as often |
| `ForkJoin.EveryScheduleIsSerial` | pfunc/parallel_for.hpp:72-90 | a race-free spawn-and-wait program ends in the memory of its serial execution under every schedule |
| `ForkJoin.SerialIsTrace` | pfunc/parallel_for.hpp:85-90 | the serial execution is itself a schedule, so statements about all schedules are never empty |
| `SpawnAndWait.StepSimulates` | pfunc/parallel_for.hpp:72-90 | a step of any task of a spawn-and-wait program, at any depth, followed by a trace of what is then left, is a trace of what was left before |
| `SpawnAndWait.EveryRunIsTrace` | pfunc/parallel_for.hpp:72-90 | however spawned tasks are scheduled, the memory operations of a complete run of spawns and waits are a trace of the program |
| `SpawnAndWait.TracesAreExactlyTheRuns` | pfunc/parallel_for.hpp:72-90 | the traces of a program are exactly what its complete runs perform: a spawned task can run beside its parent in every way the waits allow |
| `SpawnAndWait.EveryRunIsSerial` | pfunc/parallel_for.hpp:72-90 | so a race-free program run by spawning and waiting ends in the memory of its serial execution |
| `SpawnAndWait.EveryRunTakesAsLong` | pfunc/parallel_for.hpp:72-90 | until nothing is left some task can step, and a run that is done has taken exactly as many steps as the program has, whatever the schedule |
| `ParallelFor.SplitPointIsMidpoint` | pfunc/space_1D.hpp:60-77 | on a range no intermediate value of the split overflows, the split point is the midpoint, and for a base case of at least one both halves are shorter |
| `ParallelFor.SplittingEndsExactly` | pfunc/space_1D.hpp:32-34 | splitting a range over and over terminates if and only if the base case is positive or the range is empty |
| `ParallelFor.LeavesPartition` | pfunc/parallel_for.hpp:56-98 | the leaves tile the range in order, each has at most B elements, and after a split at least floor((B+1)/2) |
| `ParallelFor.LeafCountIsBounded` | pfunc/parallel_for.hpp:56-98 | there are at most n / floor((B+1)/2) leaves |
| `ParallelFor.Loop.Call` | pfunc/parallel_for.hpp:56-98 | the call overwrites its space down to the leftmost leaf; that leaf and the leaves of the spawned subspaces are all leaves, in order |
| `ParallelFor.ForIsRaceFree` | pfunc/parallel_for.hpp:56-98 | iterations that do not interfere make the loop race-free |
| `ParallelFor.EveryIterationInPlace` | pfunc/parallel_for.hpp:94-97 | the sequential loop performs every iteration of its range, between those before and those after it |
| `ParallelFor.LoopIsOneOperationEach` | pfunc/parallel_for.hpp:94-97 | and nothing else: with one operation an iteration, it is the operations of begin to end - 1 in order |
| `ParallelFor.ParallelForIsSequentialLoop` | pfunc/parallel_for.hpp:56-98 | under every schedule each iteration is performed as often as in the sequential loop, and if iterations do not interfere the final memory is the sequential loop's |
| `ParallelReduce.JoinContinuesFold` | pfunc/parallel_reduce.hpp:97-101 | joining a fold that began at the unit is folding on |
| `ParallelReduce.SerialReduceFolds` | pfunc/parallel_reduce.hpp:56-106 | run serially, a call leaves the left-to-right fold of its range in its accumulator |
| `ParallelReduce.ReduceIsRaceFree` | pfunc/parallel_reduce.hpp:68-90 | a call and the tasks it spawned never share an accumulator |
| `ParallelReduce.ParallelReduceIsFold` | pfunc/parallel_reduce.hpp:56-106 | for every range and every schedule the result is the sequential left-to-right fold, if join is associative and split gives a left unit; commutativity is not needed |
| `ParallelReduce.EveryScheduleUsesEachElementOnce` | pfunc/parallel_reduce.hpp:56-106 | reducing single indices by appending gives, under every schedule, the list of all indices of the range in order |
| `MatrixViews.QuadrantIndex` | examples/cxx/matmult.cpp:135-159 | an element of a quadrant is the element of the whole view at the shifted position |
| `MatrixViews.QuadrantIsSafe` | examples/cxx/matmult.cpp:135-147 | a quadrant of a view inside a vector is inside the vector |
| `MatrixViews.QuadrantsAreDisjoint` | examples/cxx/matmult.cpp:135-147 | no address belongs to two quadrants |
| `MatrixViews.RowTimesColumn` | examples/cxx/matmult.cpp:211-214 | the inner loop computes the dot product of a row and a column, within bounds |
| `MatrixViews.ThreeLoopProduct` | examples/cxx/matmult.cpp:202-218 | the array of C has the product added on its view and is unchanged elsewhere |
| `MatrixMultiply.KernelIsThreeLoopProduct` | examples/cxx/matmult.cpp:250-252 | the base case as a task, operation by operation, leaves in memory what the three loops leave in C's array |
| `MatrixMultiply.MultiplyIsRaceFree` | examples/cxx/matmult.cpp:283-305 | the quadrant operations of one phase never touch the same element, at any depth |
| `MatrixMultiply.SerialMultiply` | examples/cxx/matmult.cpp:246-307 | run serially, a call adds what the halved dimensions reach and changes nothing outside its view |
| `MatrixMultiply.EvenHalvesAddEverything` | examples/cxx/matmult.cpp:268-281 | if halved dimensions are even the quadrant products add up to the full dot product |
| `MatrixMultiply.MultipliesExactlyWhenEven` | examples/cxx/matmult.cpp:246-307 | the recursion multiplies all matrices correctly if and only if every halved dimension is even |
| `MatrixMultiply.EveryScheduleAdds` | examples/cxx/matmult.cpp:246-307 | whatever the dimension, the result does not depend on the schedule |
| `MatrixMultiply.EveryScheduleMultiplies` | examples/cxx/matmult.cpp:246-307 | under every schedule of the quadrant tasks C(i,j) ends as C(i,j) + sum of A(i,k)*B(k,j), and nothing outside C's view changes |
| `ProductLaws.DotAddsLeft` | examples/cxx/matmult.cpp:211-214 | the product is additive in A |
| `ProductLaws.DotAddsRight` | examples/cxx/matmult.cpp:211-214 | the product is additive in B |
| `ProductLaws.DotScalesLeft` | examples/cxx/matmult.cpp:211-214 | the product is homogeneous in A |
| `ProductLaws.DotScalesRight` | examples/cxx/matmult.cpp:211-214 | the product is homogeneous in B |
| `ProductLaws.SingleEntryLeft` | examples/cxx/matmult.cpp:211-214 | a row of A with one entry picks that multiple of a row of B |
| `ProductLaws.SingleEntryRight` | examples/cxx/matmult.cpp:211-214 | a column of B with one entry picks that multiple of a column of A |
| `ProductLaws.LoopsRespectIdentity` | examples/cxx/matmult.cpp:202-218 | the three loops leave C + A if B is the identity, C + B if A is, and C if either is zero |
| `ProductLaws.EveryScheduleRespectsIdentity` | examples/cxx/matmult.cpp:246-307 | and so does every schedule of the tasks |
| `GraphTraversal.InvAlways` | examples/cxx/while.cpp:107-127 | after every run colours count the workers that won or are counting, only reachable vertices are in play, and no successor of an expanded vertex is forgotten |
| `GraphTraversal.TraversalIsExact` | examples/cxx/while.cpp:107-127 | with at most 255 workers no vertex is expanded twice, only vertices reachable by a nonempty path are expanded, and when no work is left all of them have been |
| `TraversalJoin.RootWaitReturnsAfterTraversal` | examples/cxx/while.cpp:203-211 | with at most 255 workers and any schedule, when the program's wait for the root returns every vertex reachable by a nonempty path has been expanded exactly once and no other has |
| `TraversalJoin.RunIsBounded` | examples/cxx/while.cpp:107-127 | under every schedule a run takes at most 3 steps per edge, 5 per vertex and 3 + 3 per edge of the start |
| `TraversalStacks.EveryRunEnds` | pfunc/taskmgr.hpp:699-721 | with each worker's waiting tasks on its call stack and only the topmost allowed to return: runs have that bound, and one that cannot go on has come to the return of the root with exactly the reachable vertices expanded, each once |
| `TraversalStacks.RunProjects` | pfunc/taskmgr.hpp:699-721 | forgetting the stacks gives a run of the join tree, step by step |
| `TraversalJoin.RunProjects` | pfunc/parallel_while.hpp:81-107 | forgetting who waits for whom gives a run of the traversal |
| `GraphTraversal.TooManyWorkersExpandTwice` | examples/cxx/while.cpp:107-127 | with 256 or more workers a run exists in which the 8-bit colour wraps and a vertex is expanded twice |
| `GraphTraversal.WalkSpawnsEveryElement` | pfunc/parallel_while.hpp:81-97 | the while loop spawns one visit for each element of its list, and nothing else |
| `PackFormat.ParseUndoesRender` | lib/pfunc_pack.cpp:100-311 | scanning any rendering of a token list, with any spaces at the allowed places and with or without a final comma, gives back the list |
| `PackFormat.AcceptedIsRendered` | lib/pfunc_pack.cpp:100-311 | every accepted format is such a rendering |
| `PackFormat.AcceptsExactlyTheRenderings` | lib/pfunc_pack.cpp:100-311 | the scanner answers a token list exactly for the renderings of items with these tokens |
| `PackFormat.SpacingIsIrrelevant` | lib/pfunc_pack.cpp:72-104 | formats that differ in spaces and final comma only get the same tokens |
| `PackFormat.OneItemFormat` | lib/pfunc_pack.cpp:107-305 | an item is accepted exactly if its word and stars name a type that can be passed, and its token stands for that type, characters read as unsigned |
| `PackFormat.BufferHoldsAll` | lib/pfunc_pack.cpp:111-294 | the size is the sum of the sizes of the argument types: a pointer, or int, long or double by value |
| `PackScanner.GetStarCount` | lib/pfunc_pack.cpp:72-88 | counts stars up to comma or NUL, or reports anything else; never reads past the NUL |
| `PackScanner.MatchKeyword` | lib/pfunc_pack.cpp:105-308 | the letter-by-letter switch recognises exactly the words of the language and stops in time |
| `PackScanner.ExtractOne` | lib/pfunc_pack.cpp:103-309 | one turn of the main loop consumes exactly one item |
| `PackScanner.ExtractTokens` | lib/pfunc_pack.cpp:100-311 | terminates on every NUL-terminated format without reading past the NUL, answers INVALID_TOKEN exactly outside the language, and otherwise delivers the tokens and the sum of their sizes |
| `PackBuffer.SlicesOfConcat` | lib/pfunc_pack.cpp:483-644 | cutting the packed bytes by the tokens gives back the arguments |
| `PackBuffer.ConcatOfSlices` | lib/pfunc_pack.cpp:313-481 | packing what was cut out of a buffer gives back the buffer |
| `PackBuffer.SliceAt` | lib/pfunc_pack.cpp:498-638 | argument k is read at the sum of the sizes of the tokens before it |
| `PackBuffer.UnpackUndoesPack` | lib/pfunc_pack.cpp:313-644 | for every accepted format and any other format with the same tokens: the buffer has the computed size, every argument is read back unchanged from where it was put, and repacking gives the buffer |
| `PackBuffer.Pack` | lib/pfunc_pack.cpp:313-481 | fails exactly for rejected formats; otherwise a new buffer of exactly the computed size holds the arguments' bytes back to back |
| `PackBuffer.Unpack` | lib/pfunc_pack.cpp:483-644 | fails exactly for rejected formats, writing nothing; otherwise writes slice k of the buffer through pointer k |

## Left out

- The pthread and Windows variants of mutex, barrier and event, and thread, condition and performance-counter wrappers: thin layers over system calls.
- `barrier_spin` and BARRIER_WAIT (pfunc/group.hpp:35-50, 129-134): the first depends on the inverted trylock, the second has no implementation.
- `join_group` and `leave_group`: ranks are tokens from a fetch-and-add; group membership is fixed in the model.
- `wait_any` and `test_all` (pfunc/pfunc.hpp:296-377): the first calls a function that does not exist, the second never advances.
- Exceptions, attribute accessors, C wrappers, generators and trampolines: no algorithm.
- Weak memory and compiler reordering: memory operations are sequentially consistent.
- Liveness under fairness: proved are deadlock freedom of the mutex, of the thread barrier and of the group barrier with no more members than workers, and termination of the traversal; prioS with equal priorities can wait forever.
- Internals of the standard containers: a priority queue shows some maximal element, chosen freely among equals.
- Floating-point rounding in the matrix product: elements are reals. The transposed flag of a view is false, and C does not share storage with A or B.
- Overflow of `int` in the buffer size, the star count and matrix indices.
- Printed error messages, a failing allocation in `pfunc_pack`, and the release of the buffer after `pfunc_unpack`.
- The release of task objects in `parallel_while`, and its reference to the current element: elements are handed over by value.
- TaskQueues.TaskQueueSet.Get: the four template specialisations are one class with a policy field, and a scan runs undisturbed; the interleaved scan, one locked visit at a time, is part of `Scheduler`.
- Scheduler.ThreadStep: the machine allows any number of attempts between two completion tests, more than `get_task` makes; the exact numbers are proved in `GetTask`. A task is one spawn into a task object, and spawning into a live object is not modelled. A completion test and a publication are one step each: `CompletionEvent.RunRefinesFlag` shows that the event is such a flag while no futex_wait returns early.
- SchedulerTheorems.WaitReturnsAfterCompletion: says nothing for a blocked wait on a reused task object whose last notifier has not yet called futex_wake, because there the code returns early.
- GroupOnWorkers.NeverStuckExactly: the group is alone and its members do nothing but barrier calls; a wait inside a member, which may run another member on top, is not modelled.
- TraversalStacks.EveryRunEnds: a free or waiting worker may start any queued task; levels are all equal there, so the predicate accepts, but which end of a deque is shown is left out.
- SpawnAndWait.EveryRunIsTrace: waits follow the reverse order of the spawns, as nested pairs; between the waits of one task no memory operation happens.
- ParallelReduce.ParallelReduceIsFold: the recursion that overwrites the space field is modelled as a fork-join program of memory operations on accumulators, since the accumulators of concurrent calls interleave; splitting is into two, as for `space_1D`.
- PackBuffer.Unpack: the places written to are distinct and do not overlap the buffer.
