# A verified model of alpaka's CPU runtime, reduction, index maps and atomics

alpaka's CPU back-ends rest on a small concurrent runtime: self-resetting barriers, a pool of worker
threads, a kernel task that composes the two, and events over queues of one worker each. This project
models that runtime as state machines whose steps are single accesses to shared memory, proves what
holds after every schedule of such steps, and ties the machines to classes that update the same fields
in place. It also models the parallel reduction example, the index maps that every back-end shares, the
element loop of the counter-based random number example, and the atomic operations built on
compare-exchange loops and on a ticket lock.

`dafny verify dfyconfig.toml` checks the whole project.

## How the model is built

- *Protocols.* `Do(state, action)` is one access by one thread; `Run(schedule)` applies an arbitrary
  finite schedule. An action that cannot proceed (spinning, sleeping, waiting for a future) leaves the
  state unchanged. Theorems speak about `Run(schedule)` for every schedule, or about a state that
  satisfies the invariant `Inv`, which the `RunInv` lemma of the module gives for every run. Some
  fields of the states are history: they record what happened and influence nothing.
- *In place.* Each protocol has a class with the source's fields. Its methods make one access each, and
  their `ensures` say that the fields afterwards are those of the machine after that action.
- *Algorithms.* Loops over arrays, iterators and index vectors are methods with loops, proved against
  recursive specification functions; what the source promises is then proved about those functions.
- Atomics and mutex-protected fields are sequentially consistent accesses. Kernels do not throw between
  barriers, and all threads of a block make the same number of barrier calls.

| file | source |
|---|---|
| SpinBarrier.dfy, PredicateBarrier.dfy | include/alpaka/core/BarrierThread.hpp |
| ExecPool.dfy, PoolOutcome.dfy, PoolProgress.dfy, PoolShutdown.dfy | include/alpaka/core/ConcurrentExecPool.hpp, condition-variable form |
| KernelTask.dfy, KernelGrid.dfy | include/alpaka/kernel/TaskKernelCpuThreads.hpp with the yielding pool and the spinning barrier |
| Events.dfy, EventCalls.dfy, EventPromise.dfy, EventRelease.dfy, EventDeadlock.dfy | include/alpaka/event/EventGenericThreads.hpp over non-blocking queues |
| Reduce.dfy, Folding.dfy | example/reduce/src |
| IndexMaps.dfy | include/alpaka/idx/MapIdx.hpp |
| ElemLoop.dfy | example/counterBasedRng/src/counterBasedRng.cpp, include/alpaka/idx/Accessors.hpp |
| AtomicOps.dfy, AtomicLaws.dfy, CasLoop.dfy, TicketLock.dfy, AtomicRuns.dfy | include/alpaka/atomic |
| Finite.dfy, Arithmetic.dfy, Options.dfy | counting and division facts and a datatype used by the others |

## What the proofs found

- With two or more threads the predicate barrier keeps its promise exactly when the generation counter
  wraps at an even value (`PredicateBarrier.ModulusMustBeEven`); at an odd one a fast thread overwrites an
  answer that a slow thread has yet to read. Unsigned integer types wrap at even values.
- The tree of the reduction kernel sums a full block correctly exactly when the block size is a power
  of two (`Reduce.TreeRightIffPowerOfTwo`).
- `wait(event)` is documented to return after all tasks that precede the event in its queue. It does if a
  pending event is never enqueued into another queue (`EventPromise.SteadyRunsKeepPromise`). In general the
  workers can bring a wait to return before a given task has run exactly if no chain of needs (earlier task
  of the queue, copied future, latest marker of an event that a wait has not reached) leads from the wait to
  that task or round in a circle (`EventRelease.ReturnsEarlyIff`). An enqueue can cut such a chain. For a
  wait that is about to look at its event, one into a blocking queue always does, and one into another queue
  exactly if no chain from the tasks of that queue leads to the task, to a wait for the event or round in a
  circle (`EventRelease.HeadReleasedIff`; for any wait `BlockingReleasesIff`, `MarkerReleasesIff`). A wait
  that is already blocked on the future of a marker behind the task is not released by any enqueue
  (`EventRelease.CopiedFutureIsSafe`).
- The event queues can finish from a state exactly when no task needs itself through others
  (`EventDeadlock.FinishesIffNoCycle`), and the only action that brings that about is to enqueue an event
  behind a task that needs, directly or through others, an unfinished wait for this event
  (`EventDeadlock.OneActionCloses`). Enqueuing a pending event closes no circle otherwise. Without one the
  tasks finish in whatever order the workers take their steps, and the waiting loops end
  (`EventDeadlock.EveryOrderFinishesIffNoCycle`, `EventDeadlock.StepsAreBounded`).
- A task whose body throws is never counted off `m_numActiveTasks`, so its pool never reports idle again
  (`ExecPool.IdleMeansReturned`, `ExecPool.ThrowingTaskKeepsPoolBusy`).
- A detached pool runs everything that was pushed before if a worker takes the handle
  (`ExecPool.GracefulDetach`). If the device takes it first and destroys the pool, queued tasks may be
  dropped (`ExecPool.OutsideTakerDropsTask`). Which ones is decided when the shutdown flag is set: as many
  tasks as there are workers about to pop are still run, from the front of the queue, and exactly the others
  get the destruction exception (`PoolShutdown.DroppedExactly`).
- The pool's destructor does not wait for callers that have yet to notify. A caller of `detach` has given the
  pool away, and a worker may take it and destroy it before `detach` calls `notify_one`
  (`PoolShutdown.DetachNotifiesTooLate`, `PoolShutdown.LateNotificationIff`).
- The decrement of AtomicAtomicRef.hpp (line 165) differs from the function object of Op.hpp (line 133),
  whose comment promises a count down to zero followed by a reset to the limit. `AtomicOps.DecAgreement`
  says for which values the two agree, `CasLoop.AgreesWithFunctionObjects` for which runs; at zero the code
  goes to and fro between zero and the type's maximum (`AtomicOps.LoopDecrements`). The code is modelled as
  it is.
- The N-dimensional index map is right for every index of the element type exactly when the product of all
  extents but the slow one fits that type (`IndexMaps.ToNdRightIffFits`).
- The ticket lock excludes exactly when there are no more threads than tickets
  (`TicketLock.ExclusionIffEnoughTickets`).

## Model

| member | source | states |
|---|---|---|
| SpinBarrier.BarrierThread.Step | include/alpaka/core/BarrierThread.hpp:42-69 | one access of wait() in place: read the generation, decrement the count, restore it, bump the generation, or re-read the generation |
| SpinBarrier.RunInv | include/alpaka/core/BarrierThread.hpp:42-69 | the counters describe, after every schedule, exactly which threads have arrived in the open round |
| SpinBarrier.NoEarlyReturn | include/alpaka/core/BarrierThread.hpp:41-69 | no thread returns from its k-th wait before every thread has entered its k-th wait, for every schedule and every generation modulus of at least two |
| SpinBarrier.Released | include/alpaka/core/BarrierThread.hpp:62-67 | once any thread has left a round, every thread still in that round leaves with its next look at the generation, wrap-around included |
| SpinBarrier.NeverStuck | include/alpaka/core/BarrierThread.hpp:42-69 | when all threads are inside wait(), one of them can change the barrier or leave |
| SpinBarrier.SelfResetting | include/alpaka/core/BarrierThread.hpp:29-30 | whenever nobody is inside, the count is restored and all threads have completed equally many rounds |
| PredicateBarrier.BarrierThreadWithPredicate.Locked | include/alpaka/core/BarrierThread.hpp:130-153 | the locked section in place: initialise the slot, combine the predicate, count down, complete the round |
| PredicateBarrier.OneMoreVote | include/alpaka/block/sync/Traits.hpp:48-91 | combining one vote after another gives the count, conjunction or disjunction of the set of votes |
| PredicateBarrier.RunInv | include/alpaka/core/BarrierThread.hpp:130-159 | rounds, slots, votes and answers stay consistent over every schedule at an even modulus |
| PredicateBarrier.RoundAnswersCorrect | include/alpaka/core/BarrierThread.hpp:130-159 | whoever returns from round r is told the count/and/or of exactly the predicates all n threads brought to round r |
| PredicateBarrier.TwoSlotsSuffice | include/alpaka/core/BarrierThread.hpp:135-167 | while a thread has yet to read round r its slot holds round r's answer and round r + 2 has not begun |
| PredicateBarrier.Released | include/alpaka/core/BarrierThread.hpp:146-157 | a waiter whose round is complete leaves at its next look at the generation, with the answer of its round, whoever else is inside or outside |
| PredicateBarrier.NeverStuck | include/alpaka/core/BarrierThread.hpp:146-157 | when all threads are inside wait(), some thread can go on |
| PredicateBarrier.OddModulusFails | include/alpaka/core/BarrierThread.hpp:135-158 | for every odd modulus, two or more threads and any operations there is a run in which a slow reader gets the next round's value |
| PredicateBarrier.ModulusMustBeEven | include/alpaka/core/BarrierThread.hpp:135-158 | for two or more threads and any operations the answers of all runs are correct if and only if the generation wraps at an even value |
| ExecPool.ConcurrentExecPool.TestShutdownFlag | include/alpaka/core/ConcurrentExecPool.hpp:546-547 | the lazy test of the shutdown flag: leave, or go on to the queue |
| ExecPool.ConcurrentExecPool.Pop | include/alpaka/core/ConcurrentExecPool.hpp:53-67 | popTask in place: the front of the queue goes to the worker, or the worker goes on to the mutex |
| ExecPool.ConcurrentExecPool.RunTask | include/alpaka/core/ConcurrentExecPool.hpp:86-99 | the body returns, or its exception becomes the promise's |
| ExecPool.ConcurrentExecPool.CountOff | include/alpaka/core/ConcurrentExecPool.hpp:197-211 | only a body that returned decrements m_numActiveTasks |
| ExecPool.ConcurrentExecPool.Fulfil | include/alpaka/core/ConcurrentExecPool.hpp:86-99 | after the decrement the promise gets its value |
| ExecPool.ConcurrentExecPool.LockWakeup | include/alpaka/core/ConcurrentExecPool.hpp:560-560 | the worker locks the wake-up mutex if nobody holds it |
| ExecPool.ConcurrentExecPool.CheckEmpty | include/alpaka/core/ConcurrentExecPool.hpp:561-581 | a non-empty queue sends the worker back to popping with the mutex released |
| ExecPool.ConcurrentExecPool.TakeDetachHandle | include/alpaka/core/ConcurrentExecPool.hpp:559-569 | a worker that finds the queue empty exchanges the flag for false under the mutex, and leaves if it was true |
| ExecPool.ConcurrentExecPool.CheckShutdownLocked | include/alpaka/core/ConcurrentExecPool.hpp:571-575 | the second test of the shutdown flag, under the mutex |
| ExecPool.ConcurrentExecPool.Wait | include/alpaka/core/ConcurrentExecPool.hpp:577-579 | the wake-up predicate is tested before the mutex is given up |
| ExecPool.ConcurrentExecPool.Reacquire | include/alpaka/core/ConcurrentExecPool.hpp:577-579 | a woken worker takes the mutex again before it tests the predicate |
| ExecPool.ConcurrentExecPool.Announce | include/alpaka/core/ConcurrentExecPool.hpp:502-502 | a caller counts its task before it pushes it |
| ExecPool.ConcurrentExecPool.PushTask | include/alpaka/core/ConcurrentExecPool.hpp:502-506 | the push under the mutex appends the task at the back |
| ExecPool.ConcurrentExecPool.NotifyOne | include/alpaka/core/ConcurrentExecPool.hpp:508-508 | a notification wakes one sleeping worker if there is any |
| ExecPool.ConcurrentExecPool.Detach | include/alpaka/core/ConcurrentExecPool.hpp:523-532 | the detach flag is set under the mutex, a notification is due |
| ExecPool.ConcurrentExecPool.TakeHandleOutside | include/alpaka/core/ConcurrentExecPool.hpp:534-540 | the same exchange by somebody who holds no mutex |
| ExecPool.ConcurrentExecPool.IsIdle | include/alpaka/core/ConcurrentExecPool.hpp:517-521 | with fewer tasks in flight than the counter has values, isIdle() holds if and only if every announced body has returned |
| ExecPool.ConcurrentExecPool.DestroyedMeansCompleted | include/alpaka/core/ConcurrentExecPool.hpp:446-473 | a destroyed pool object has completed every promise it gave |
| ExecPool.ConcurrentExecPool.BeginShutdown | include/alpaka/core/ConcurrentExecPool.hpp:448-455 | the shutdown flag is set under the mutex |
| ExecPool.ConcurrentExecPool.WakeEverybody | include/alpaka/core/ConcurrentExecPool.hpp:457-457 | all sleeping workers wake |
| ExecPool.ConcurrentExecPool.JoinNext | include/alpaka/core/ConcurrentExecPool.hpp:586-595 | the destructor passes a worker only once it has returned |
| ExecPool.ConcurrentExecPool.DrainNext | include/alpaka/core/ConcurrentExecPool.hpp:463-472 | what is left in the queue gets the destruction exception, one task after the other |
| ExecPool.RunInv | include/alpaka/core/ConcurrentExecPool.hpp:412-617 | queue, mutex, wake-up, detach, shutdown and task count stay consistent over every schedule |
| ExecPool.NoLostWakeup | include/alpaka/core/ConcurrentExecPool.hpp:488-583 | before shutdown and hand-over, a non-empty queue or a pending detach means an awake worker or a caller yet to notify; after the destructor has notified, no worker sleeps |
| ExecPool.AllTasksCompleted | include/alpaka/core/ConcurrentExecPool.hpp:446-473 | when the destructor has returned, every pushed task holds a value, its own exception or the destruction exception |
| ExecPool.CompletedOnce | include/alpaka/core/ConcurrentExecPool.hpp:85-99 | no action changes the outcome of a completed task |
| PoolOutcome.OutcomeIsTheBodys | include/alpaka/core/ConcurrentExecPool.hpp:86-99 | a promise holds its own exception if and only if the body threw in the run; it holds a value, and the task is counted off m_numActiveTasks, only if the body returned; a body that returned has its value unless its worker is on the way to setting it |
| PoolOutcome.BodyEndsOnce | include/alpaka/core/ConcurrentExecPool.hpp:86-99 | the body of a task returns or throws once at most |
| PoolOutcome.DestroyedOutcome | include/alpaka/core/ConcurrentExecPool.hpp:446-473 | in a destroyed pool value, own exception and destruction exception stand for a body that returned, threw, or never ended, in both directions |
| ExecPool.FirstInFirstOut | include/alpaka/core/ConcurrentExecPool.hpp:475-475 | a task leaves the queue only after every task pushed before it |
| ExecPool.IdleMeansReturned | include/alpaka/core/ConcurrentExecPool.hpp:488-521 | m_numActiveTasks is the number of tasks announced minus the bodies that returned; isIdle() holds if and only if all of them returned; a throwing body keeps it false |
| ExecPool.GracefulDetach | include/alpaka/core/ConcurrentExecPool.hpp:523-583 | the handle is taken once at most; if a worker took it and nothing was pushed after detach, every task was popped by a worker before, none gets the destruction exception, and a destroyed pool has run them all |
| ExecPool.OutsideTakerDropsTask | include/alpaka/queue/QueueGenericThreadsNonBlocking.hpp:71-83 | a run in which the handle is taken from outside and a task pushed before detach gets the destruction exception |
| ExecPool.ThrowingTaskKeepsPoolBusy | include/alpaka/core/ConcurrentExecPool.hpp:490-494 | a run whose last action is a body that throws: all tasks are completed and the pool is not idle |
| ExecPool.NeverStuck | include/alpaka/core/ConcurrentExecPool.hpp:544-583 | while there are queued tasks, a pending detach or an unfinished destructor, some worker, notification or destructor step changes the state |
| ExecPool.SpuriousWakeUp | include/alpaka/core/ConcurrentExecPool.hpp:577-579 | a sleeping worker may wake at any time; with nothing to do it is asleep again two steps later and nothing has changed |
| PoolProgress.WorkersComeToRest | include/alpaka/core/ConcurrentExecPool.hpp:544-583 | every schedule has a bounded number of worker steps that change the state: so many for each push, detach, notification, spurious wake-up and step of the destructor |
| PoolProgress.RestMeansDone | include/alpaka/core/ConcurrentExecPool.hpp:488-583 | when the workers of a live pool have come to rest, the queue is empty, every pushed task has been run to its end, and a detached pool's handle has been taken, by exactly one worker if not from outside |
| PoolShutdown.DestructorEnds | include/alpaka/core/ConcurrentExecPool.hpp:446-473 | once the shutdown flag is set a bounded number of actions, of whatever kind, change the state, and a state that none changes is exactly one in which the destructor has returned and no notification is due |
| PoolShutdown.DroppedExactly | include/alpaka/core/ConcurrentExecPool.hpp:446-473 | from the setting of the flag on it is decided which tasks are run: of the queued ones as many as there are workers about to pop, from the front; exactly the others get the destruction exception |
| PoolShutdown.NothingDroppedIff | include/alpaka/core/ConcurrentExecPool.hpp:446-473 | no task is dropped if and only if at least as many workers are about to pop as tasks are queued |
| PoolShutdown.RunDropsExactly | include/alpaka/core/ConcurrentExecPool.hpp:446-473 | the same for whole runs, detached or not, from the state in which the destructor begins |
| PoolShutdown.LateNotificationIff | include/alpaka/core/ConcurrentExecPool.hpp:446-461 | a notification can still be due when the destructor has returned if and only if one is due when the flag is set |
| PoolShutdown.DetachNotifiesTooLate | include/alpaka/core/ConcurrentExecPool.hpp:523-532 | a run in which a worker takes the handle and the pool is destroyed while detach() has yet to notify |
| KernelTask.TaskKernelCpuThreads.StepHost | include/alpaka/kernel/TaskKernelCpuThreads.hpp:132-198 | one step of the host in place: set the block index, enqueue a task, wait for a future, clear the map |
| KernelTask.TaskKernelCpuThreads.StepWorker | include/alpaka/kernel/TaskKernelCpuThreads.hpp:200-233 | one step of a worker in place: pop, set the master, insert into the map, a barrier access, publish the result |
| KernelTask.RunInv | include/alpaka/kernel/TaskKernelCpuThreads.hpp:132-233 | host, queue, map, barrier and workers stay consistent over every schedule and every number of blocks |
| KernelTask.FirstReturnMeansAllStarted | include/alpaka/kernel/TaskKernelCpuThreads.hpp:224-225 | once any thread has returned from a barrier call of the block, all its tasks have left the queue and all workers are in the map |
| KernelTask.ThreadMapComplete | include/alpaka/kernel/TaskKernelCpuThreads.hpp:206-228 | past the first barrier the map is a bijection between the N workers and the N block thread indices, the master is the worker of index zero, and each worker finds its own index |
| KernelTask.OneTaskPerWorker | include/alpaka/kernel/TaskKernelCpuThreads.hpp:230-232 | no worker runs two tasks of one block and no task of another block is in the queue |
| KernelTask.QuietBetweenBlocks | include/alpaka/kernel/TaskKernelCpuThreads.hpp:159-166 | while the map is cleared or the block index set, no thread of a block runs, the queue is empty and the barrier is reset |
| KernelTask.NeverStuck | include/alpaka/kernel/TaskKernelCpuThreads.hpp:132-233 | every consistent state before the end of the grid has an action that is not a mere spin |
| KernelTask.GridTerminates | include/alpaka/kernel/TaskKernelCpuThreads.hpp:126-170 | every schedule has at most Cost actions that are not spins, and a run in which nothing can move any more has finished the grid; what that means is the next two rows |
| KernelGrid.BlocksExecuted | include/alpaka/kernel/TaskKernelCpuThreads.hpp:126-170 | when b blocks are finished the workers have taken the tasks of exactly these blocks, block by block and in the order of their indices, and every thread has made the barrier calls of these kernels and the two around each |
| KernelGrid.GridExecuted | include/alpaka/kernel/TaskKernelCpuThreads.hpp:126-233 | a finished run has had every thread of every block taken by a worker exactly once, with its own block index in force, and nothing else; the barrier has completed exactly the rounds of all kernels |
| Events.EventGenericThreadsImpl.Enqueue | include/alpaka/event/EventGenericThreads.hpp:144-158 | the count is incremented, captured by the marker, and the future replaced |
| Events.EventGenericThreadsImpl.EnqueueBlocking | include/alpaka/event/EventGenericThreads.hpp:202-215 | the blocking queue's enqueue leaves the event ready |
| Events.EventGenericThreadsImpl.MarkerBody | include/alpaka/event/EventGenericThreads.hpp:158-167 | the marker does nothing if the event was enqueued again |
| Events.CountersConsistent | include/alpaka/event/EventGenericThreads.hpp:62-70 | m_LastReadyEnqueueCount never exceeds m_enqueueCount, both only grow, m_future belongs to the latest enqueue |
| EventCalls.EnqueuesCounted | include/alpaka/event/EventGenericThreads.hpp:144-151 | m_enqueueCount is the number of enqueues of the event made so far |
| EventCalls.CallWaits | include/alpaka/event/EventGenericThreads.hpp:278-318 | a call that waits, by a host thread or in a queue, makes one new wait for the number of enqueues made so far, outstanding while one of them is pending; only wait(queue, event) for a ready event makes none |
| Events.WaitReturns | include/alpaka/event/EventGenericThreads.hpp:49-60 | a wait for the c-th enqueue returns only after the k-th enqueue for some k >= c is complete, with everything before it in its queue |
| Events.WaitInOneQueue | include/alpaka/event/EventGenericThreads.hpp:272-287 | if all enqueues of an event go to one queue, a wait for the c-th returns only after every task enqueued there before it has finished |
| EventPromise.SteadyRunsKeepPromise | include/alpaka/event/EventGenericThreads.hpp:259-287 | if a pending event is only enqueued into the queue in which it is pending, every returned wait has everything before its enqueue finished, for any number of events and queues |
| EventCalls.CallKeepsPromise | include/alpaka/event/EventGenericThreads.hpp:259-326 | the same call by call: when a host thread or queue is past its wait for e, everything that was in the queue of the latest enqueue of e before that call, when the enqueue was made, is finished |
| EventPromise.PromptIsSteady | include/alpaka/event/EventGenericThreads.hpp:131-170 | that is so in particular if events are enqueued only when they are ready |
| EventPromise.EnqueueElsewhereBreaks | include/alpaka/event/EventGenericThreads.hpp:144-167 | when a pending event is enqueued into another, idle queue, a wait for the earlier enqueue that is about to look at the event returns two steps later with work before it unfinished |
| EventPromise.EnqueueBlockingBreaks | include/alpaka/event/EventGenericThreads.hpp:194-216 | when a pending event is enqueued into a blocking queue, a wait that is about to look at the event returns at once |
| EventPromise.TwoQueuesReturnEarly | include/alpaka/event/EventGenericThreads.hpp:259-270 | with any two queues there is a run in which the wait returns while the work before the event has not begun |
| EventPromise.BlockingQueueReturnsEarly | include/alpaka/event/EventGenericThreads.hpp:188-216 | the same with a non-blocking and a blocking queue |
| EventRelease.ReturnsEarlyIff | include/alpaka/event/EventGenericThreads.hpp:49-60 | the workers can bring a wait to return before the body of a given task has run if and only if no chain of needs leads from the wait to the task or round in a circle |
| EventRelease.OnlyEnqueuesRelease | include/alpaka/event/EventGenericThreads.hpp:131-326 | nothing but an enqueue of an event makes such a return possible |
| EventRelease.BlockingReleasesIff | include/alpaka/event/EventGenericThreads.hpp:194-216 | an enqueue of e into a blocking queue makes it possible if and only if no chain that avoids the needs for e's latest marker leads to the task or round in a circle |
| EventRelease.MarkerReleasesIff | include/alpaka/event/EventGenericThreads.hpp:144-167 | an enqueue of e into queue q, idle or busy, makes it possible if and only if that holds and, should such a chain lead to a wait for e, no chain from the tasks of q leads to the task, to a wait for e or round in a circle |
| EventRelease.HeadReleasedIff | include/alpaka/event/EventGenericThreads.hpp:53-59 | for a wait that is about to look at its event a blocking enqueue always makes it possible, another one if and only if the chains from its queue are of that kind |
| EventRelease.EverReturnsEarlyIff | include/alpaka/event/EventGenericThreads.hpp:131-326 | whatever is enqueued later, the wait can return early if and only if no chain of queue order and copied futures leads to the task or round in a circle |
| EventRelease.CopiedFutureIsSafe | include/alpaka/event/EventGenericThreads.hpp:55-58 | a wait that has copied the future of a marker behind the task never returns before the task has run, whatever is enqueued |
| Events.EveryPassProgresses | include/alpaka/event/EventGenericThreads.hpp:49-60 | a blocked wait follows the future of its own enqueue or a later one, and when that is ready the wait is over or the event was enqueued again after it |
| Events.EarliestCanProceed | include/alpaka/event/EventGenericThreads.hpp:131-170 | if events are enqueued only when ready, the earliest unfinished task of all queues can take a step |
| Events.OnePassSuffices | include/alpaka/event/EventGenericThreads.hpp:53-59 | under the same hypothesis a wait is over as soon as its future is ready |
| EventDeadlock.FinishesIffNoCycle | include/alpaka/event/EventGenericThreads.hpp:131-326 | from any reachable state the workers can finish all tasks if and only if the relation of who needs whom has no cycle: earlier tasks of the queue, the task whose future a wait is blocked on, the latest marker of an event a wait has not reached |
| EventDeadlock.EveryOrderFinishesIffNoCycle | include/alpaka/event/EventGenericThreads.hpp:49-60 | in whatever order the workers take their steps they end with all tasks finished, if and only if there is no cycle |
| EventDeadlock.StepsAreBounded | include/alpaka/event/EventGenericThreads.hpp:53-59 | while nothing is enqueued the workers take at most six steps per task that change the state, the passes of the waiting loops included |
| EventDeadlock.StuckMeansCycle | include/alpaka/event/EventGenericThreads.hpp:49-60 | if no worker can take a step and a task is unfinished, there is a cycle |
| EventDeadlock.OneActionCloses | include/alpaka/event/EventGenericThreads.hpp:144-169 | of all actions exactly an enqueue behind a task that needs, directly or through others, a wait for the event closes a cycle |
| EventDeadlock.NoCircleIffNoEnqueueCloses | include/alpaka/event/EventGenericThreads.hpp:131-326 | a run is free of cycles at every moment if and only if none of its enqueues is of that kind |
| EventDeadlock.CarefulRunsFinish | include/alpaka/event/EventGenericThreads.hpp:131-326 | if no enqueue finds an unfinished wait still waiting for its event, be the event ready or not, all tasks can finish |
| EventDeadlock.WaitsForItself | include/alpaka/event/EventGenericThreads.hpp:291-326 | a wait whose event is enqueued into its own queue never finishes, whatever steps the workers take |
| EventDeadlock.RenewalCanDeadlock | include/alpaka/event/EventGenericThreads.hpp:131-326 | the smallest deadlock: an event, a wait for it and the event again in one queue |
| Reduce.Iterator.constructor | example/reduce/src/iterator.hpp:139-147 | start, end and stride of a grid thread's share; the grid-stride form is at lines 260-265 |
| Reduce.Iterator.Next | example/reduce/src/iterator.hpp:165-176 | post-increment returns the current element and moves by one, or by the grid size |
| Reduce.Iterator.Advance | example/reduce/src/iterator.hpp:224-228 | the iterator moves k strides |
| Reduce.Accumulate | example/reduce/src/kernel.hpp:89-111 | first element, unrolled by four, then one by one: the thread's fold of its share, for any associative function, with every read in bounds |
| Reduce.Unrolled | example/reduce/src/kernel.hpp:103-107 | one pass of the unrolled loop is four passes of the plain one |
| Reduce.TreeReduce | example/reduce/src/kernel.hpp:122-139 | the halving loop over shared memory, in place, is the Tree function of its contents |
| Reduce.LevelKeepsFold | example/reduce/src/kernel.hpp:129-136 | a halving step keeps the fold of the live prefix, a partly filled block included |
| Reduce.TreeIsFold | example/reduce/src/kernel.hpp:122-139 | for a power-of-two block size the first cell ends as the fold of all live cells |
| Reduce.TreeRightIffPowerOfTwo | example/reduce/src/kernel.hpp:122-127 | over a full block the tree is right if and only if the block size is a power of two |
| Reduce.AnyInterleaving | example/reduce/src/kernel.hpp:135-138 | in every interleaving of the loads and stores of a halving step no thread sees another's store, and the result is that of the parallel step |
| Reduce.LevelCompletes | example/reduce/src/kernel.hpp:129-138 | after three accesses of every live thread, in whatever order, the live cells are those of the parallel step |
| Reduce.CpuRange | example/reduce/src/iterator.hpp:139-147 | the contiguous ranges are non-empty, adjacent and in bounds, and no cast truncates |
| Reduce.CpuPartition | example/reduce/src/iterator.hpp:139-147 | the first l + 1 threads together hold the fold of the inputs up to their boundary, in order |
| Reduce.GpuPartition | example/reduce/src/iterator.hpp:260-286 | the grid-stride threads together hold the fold of all inputs if the function also commutes |
| Reduce.ValuesFold | example/reduce/src/kernel.hpp:87-114 | with either iterator the values of the grid's threads fold to the fold of the input |
| Reduce.GridReduce | example/reduce/src/kernel.hpp:78-116 | the first level stores every live thread's value in shared memory |
| Reduce.Block | example/reduce/src/kernel.hpp:71-144 | one block yields the fold of its threads' values |
| Reduce.BlocksFold | example/reduce/src/kernel.hpp:141-143 | the fold of the blocks' results is the fold of everything the blocks share out |
| Reduce.Kernel | example/reduce/src/kernel.hpp:71-144 | the whole grid: the first gridDimension cells of the destination fold to the fold of the source, the other cells are unchanged, a single block may work in place |
| Reduce.BlockCountFits | example/reduce/src/reduce.cpp:69-77 | no admissible block count leaves a grid thread without input unless there is one block only |
| Reduce.MaxBlockCountBound | example/reduce/src/reduce.cpp:74-74 | the bound on the blocks is half of n divided by the block size, both rounded up |
| Reduce.Reduce | example/reduce/src/reduce.cpp:60-121 | the two chained kernels, the second in place, return the fold of all n inputs |
| IndexMaps.MapIdxTo1d | include/alpaka/idx/MapIdx.hpp:92-103 | the Horner loop in the element type gives the linear index modulo the type's range |
| IndexMaps.MapIdxToNd | include/alpaka/idx/MapIdx.hpp:52-82 | the division loop for extents of any size, with its product of planes wrapping as the element type does: it divides by zero exactly when such a product wraps to zero |
| IndexMaps.ComponentIsDelinear | include/alpaka/idx/MapIdx.hpp:52-82 | if the product of all extents but the slow one fits the element type, the loop gives the inverse of the linear index |
| IndexMaps.ToNdRightIffFits | include/alpaka/idx/MapIdx.hpp:52-82 | it is right for every index of the element type if and only if that product fits |
| IndexMaps.LinearOfDelinear | include/alpaka/idx/MapIdx.hpp:43-106 | every linear index survives the round trip, inside the box or beyond it |
| IndexMaps.DelinearOfLinear | include/alpaka/idx/MapIdx.hpp:43-106 | every index whose fast components lie in the extent survives the round trip |
| IndexMaps.LinearBelowProduct | include/alpaka/idx/MapIdx.hpp:92-103 | an index lies in the box if and only if its linear index is below the volume |
| IndexMaps.Bijection | include/alpaka/idx/MapIdx.hpp:43-106 | the maps are mutual inverses between the box and the numbers below its volume, in any dimension |
| IndexMaps.LinearIsLexicographic | include/alpaka/idx/MapIdx.hpp:92-103 | the linear order is the lexicographic order of the indices |
| IndexMaps.CountingIsLexicographic | include/alpaka/idx/MapIdx.hpp:52-82 | counting up visits the indices in lexicographic order |
| IndexMaps.MapIdxPitchBytesToNd | include/alpaka/idx/MapIdx.hpp:174-193 | the division loop over the pitches |
| IndexMaps.MapIdxPitchBytesTo1d | include/alpaka/idx/MapIdx.hpp:206-217 | the pitch sum in the element type, modulo its range |
| IndexMaps.PitchLinearOfNd | include/alpaka/idx/MapIdx.hpp:168-219 | for all positive pitches, 1-D to N-D to 1-D is the identity |
| IndexMaps.PitchNdOfLinear | include/alpaka/idx/MapIdx.hpp:168-219 | an index survives N-D to 1-D to N-D if and only if no trailing part of it reaches over the pitch before it |
| IndexMaps.PaddedRoundTrip | include/alpaka/idx/MapIdx.hpp:168-219 | in-extent indices survive it whenever each pitch is at least its extent times the next pitch |
| IndexMaps.DensePitchAgrees | include/alpaka/idx/MapIdx.hpp:43-219 | with suffix-product pitches the pitch maps are the plain maps, both ways |
| ElemLoop.ElemLoop | example/counterBasedRng/src/counterBasedRng.cpp:46-81 | the recursive loop writes each cell of the thread's clipped share once, with the value of its own index, nothing else, and restores the index vector |
| ElemLoop.FirstCounter | example/counterBasedRng/src/counterBasedRng.cpp:70-72 | the first words of the counter are those of the index, cut to 32 bits, and the others are zero |
| ElemLoop.CounterIsPadded | example/counterBasedRng/src/counterBasedRng.cpp:70-72 | so are the words of the counter that a cell's value is generated from |
| ElemLoop.CountersDiffer | example/counterBasedRng/src/counterBasedRng.cpp:70-78 | different cells of a buffer have different counters if its extents fit 32 bits |
| ElemLoop.ExactlyOneThread | include/alpaka/idx/Accessors.hpp:72-96 | for any covering work division each cell of the buffer belongs to exactly one thread of the grid |
| ElemLoop.WritesOnlyInside | example/counterBasedRng/src/counterBasedRng.cpp:53-55 | no thread writes outside the buffer |
| ElemLoop.Kernel | example/counterBasedRng/src/counterBasedRng.cpp:96-110 | thread k starts at its grid index times its extent and writes exactly its share |
| ElemLoop.Grid | example/counterBasedRng/src/counterBasedRng.cpp:96-110 | all threads in any order write every cell of the buffer once with the value of its index |
| ElemLoop.AnyInterleaving | example/counterBasedRng/src/counterBasedRng.cpp:96-110 | the same for every interleaving of the threads' single writes |
| ElemLoop.WorkDivisionDoesNotShow | example/counterBasedRng/src/counterBasedRng.cpp:159-182 | two buffers filled with different work divisions, in any order, are equal |
| AtomicOps.Variable.Call | include/alpaka/atomic/Op.hpp:22-203 | each function object returns the value it found and leaves the documented one |
| AtomicOps.IncCycles | include/alpaka/atomic/Op.hpp:108-118 | repeated increments count up to the limit and start again at zero, where they also go from above the limit |
| AtomicOps.DecCycles | include/alpaka/atomic/Op.hpp:124-135 | repeated decrements count down to zero and start again at the limit, where they also go from above it |
| AtomicOps.DecUndoesInc | include/alpaka/atomic/Op.hpp:106-136 | on the values they cycle through, increment and decrement undo each other |
| AtomicOps.SubUndoesAdd | include/alpaka/atomic/Op.hpp:22-61 | subtraction undoes addition across the wrap of the type |
| AtomicOps.MinMaxSplit | include/alpaka/atomic/Op.hpp:64-90 | of the two values Min leaves the smaller and Max the larger |
| AtomicOps.DecAgreement | include/alpaka/atomic/AtomicAtomicRef.hpp:158-173 | the compare-exchange decrement agrees with the function object if and only if the value is strictly between zero and the limit, or in three corner cases |
| AtomicOps.DecDisagrees | include/alpaka/atomic/AtomicAtomicRef.hpp:158-173 | at limit 5 the two differ at the values 5 and 0 |
| AtomicOps.LoopDecrements | include/alpaka/atomic/AtomicAtomicRef.hpp:158-173 | the compare-exchange decrement counts down to zero and then goes to and fro between the type's maximum and zero |
| AtomicOps.SameMeaningIffAllAgree | include/alpaka/atomic/AtomicAtomicRef.hpp:80-230 | calls that are sequential for the loops are so for the function objects, with the same outcome, if and only if each of them agrees at the value it found |
| AtomicLaws.NothingAddedIsLost | include/alpaka/atomic/Op.hpp:22-61 | however additions and subtractions are interleaved the variable ends at its initial value plus all that was added minus all that was subtracted, modulo the type's range |
| AtomicLaws.ExchangePutsIn | include/alpaka/atomic/Op.hpp:93-104 | the call after an exchange finds the value that was put in |
| AtomicLaws.ExchangesConserve | include/alpaka/atomic/Op.hpp:93-104 | the values that exchanges return, and the one left at the end, are the initial value and the values put in, none lost and none doubled |
| AtomicLaws.SwapIffEqual | include/alpaka/atomic/Op.hpp:182-203 | a compare-and-swap puts its value in if it found what it compares with, and leaves the variable otherwise |
| AtomicLaws.OneWinner | include/alpaka/atomic/Op.hpp:182-203 | of calls that all compare with the value the variable holds exactly the first succeeds, and its value stays |
| AtomicLaws.LeastAndGreatest | include/alpaka/atomic/Op.hpp:64-90 | calls of Min leave the least of the initial value and theirs, calls of Max the greatest |
| CasLoop.AtomicVariable.CompareExchangeWeak | include/alpaka/atomic/AtomicAtomicRef.hpp:91-95 | exchange on equality unless it fails spuriously; on failure the value found is loaded |
| CasLoop.AtomicVariable.AtomicRefStep | include/alpaka/atomic/AtomicAtomicRef.hpp:58-230 | one access of a loop in place: load and compute, or exchange and compute again |
| CasLoop.AtomicVariable.EmulatedStep | include/alpaka/atomic/AtomicUniformCudaHipBuiltIn.hpp:87-108 | one access of the emulation: it is over when the exchange returns the assumed value |
| CasLoop.Linearisable | include/alpaka/atomic/AtomicAtomicRef.hpp:80-154 | after every schedule the variable and all returned values are those of the calls made one at a time in the order of their successful exchanges, each thread's in program order |
| CasLoop.AgreesWithFunctionObjects | include/alpaka/atomic/AtomicAtomicRef.hpp:80-173 | in every run the values are those of the function objects if and only if no decrement found its limit, a value above it, or zero, three corner cases aside |
| CasLoop.NoCallLosesForNothing | include/alpaka/atomic/AtomicAtomicRef.hpp:91-95 | the exchanges that a thread loses in a schedule are no more than the calls that took effect, so no more than there are calls |
| CasLoop.FailureHasNoEffect | include/alpaka/atomic/AtomicAtomicRef.hpp:91-95 | an exchange that fails, spuriously or not, changes nothing but what the thread has found |
| CasLoop.AloneFinishes | include/alpaka/atomic/AtomicAtomicRef.hpp:87-96 | from every reachable state a thread left alone finishes its call in two accesses |
| AtomicRuns.NoUpdateLost | include/alpaka/atomic/AtomicAtomicRef.hpp:58-78 | at every moment of every run of threads that add and subtract the variable holds its initial value plus what their finished calls have added, modulo the type's range |
| AtomicRuns.OneSwapSucceeds | include/alpaka/atomic/AtomicAtomicRef.hpp:210-230 | if all threads try to replace the initial value, one call of one thread succeeds as soon as any call is finished, and the variable holds its value from then on |
| TicketLock.AtomicOaccExtended.Step | include/alpaka/atomic/AtomicOaccExtended.hpp:45-66 | one access in place: take a ticket, look at the second counter, read, write, pass the lock on |
| TicketLock.RunInv | include/alpaka/atomic/AtomicOaccExtended.hpp:45-66 | tickets, counters, variable and log stay consistent over every schedule |
| TicketLock.MutualExclusion | include/alpaka/atomic/AtomicOaccExtended.hpp:55-65 | at most one thread is between its ticket being called and its increment |
| TicketLock.TicketOrder | include/alpaka/atomic/AtomicOaccExtended.hpp:45-221 | calls enter in ticket order across wrap-around, and memory and returned values are those of the calls made one at a time in that order |
| TicketLock.NeverStuck | include/alpaka/atomic/AtomicOaccExtended.hpp:53-58 | while a call is outstanding some thread that is not kept spinning changes the state |
| TicketLock.AllCallsReturn | include/alpaka/atomic/AtomicOaccExtended.hpp:45-66 | spinning aside a call takes five accesses: every schedule has at most so many, and when nothing can change any more every call of every thread has returned |
| AtomicRuns.OneLockedSwapSucceeds | include/alpaka/atomic/AtomicOaccExtended.hpp:190-221 | of compare-and-swaps with the initial value that run through the lock one succeeds |
| TicketLock.TooManyThreads | include/alpaka/atomic/AtomicOaccExtended.hpp:47-58 | one thread more than there are tickets gets a ticket that is in use, and enters with its holder |
| TicketLock.ExclusionIffEnoughTickets | include/alpaka/atomic/AtomicOaccExtended.hpp:47-65 | all runs exclude if and only if there are no more threads than tickets |

## Left out

- The yielding pool's detach, shutdown and idle count: its failed pop and its detach check are not under one lock, so the graceful-detach guarantee is the condition-variable form's only. KernelTask uses its pop loop.
- include/alpaka/core/CallbackThread.hpp: a smaller pool whose stop flag is set outside its mutex.
- The lifetime of the pool object behind `m_self`: what becomes of a notification on a destroyed condition variable is not modelled, only that it can be due. The device's cleanup callback is the action TakeOutside of ExecPool.
- The condition variable of the barrier with predicate: a waiter may leave as soon as the generation has changed, with or without a notification; notify_all is called under the mutex.
- PoolProgress.RestMeansDone: pushes after a worker has taken the handle are excepted, as the pool is then being destroyed; that workers which can take a step do take it is the scheduler's part.
- The mutex form of BarrierThread::wait, in which the whole call is one locked section.
- Weak memory effects: every access is sequentially consistent, and `empty()` of the task queue is an atomic read under the wake-up mutex.
- Kernels that throw between barriers, and threads of one block that make different numbers of barrier calls.
- Events.EarliestCanProceed: the host's wait and waits for a whole queue or device are tasks of queues of their own, as the model has no other blocking calls; the order within a queue is taken from the pool (ExecPool.FirstInFirstOut with one worker).
- Events.CountersConsistent: does not model overflow of the enqueue counters.
- Reduce.Reduce: sizes are below 2^32, where the casts to 32 bits do not truncate, and contiguous ranges come with one thread per block, as the accelerators of example/reduce are configured (example/reduce/src/alpakaConfig.hpp); threads of a block run one after the other between two barriers, and AnyInterleaving justifies that for the tree.
- ElemLoop.ElemLoop: does not model overflow of index plus extent; the generator is an arbitrary function of the counter, the key being part of it.
- The pitches of BufferAccessor: a buffer is a map from indices to cells, and the pitch maps are treated on their own.
- The maps between equal dimensions and to or from dimension zero: identities and constants.
- The bitwise atomics, floating-point compare-and-swap, and AtomicStdLibLock: the first two are further operations of the same loops, the last runs the function objects under a mutex.
- nextPowerOf2 and RoundUpToPowerOfTwo: compile-time helpers.
- CUDA, HIP, SYCL, OpenACC and OpenMP back-ends, fibers, device queries, vectorisation tables, floating-point examples, printing and file output.
