# coro_net in Dafny

A model of coro_net, a network library on io_uring and C++20 coroutines, with proofs of what its
state machines keep. `dafny verify dfyconfig.toml` checks all of it.

- **Timers** (`TimerState`, `TimerBatch`, `TimerRuns`, `TimerAdditions`, `TimerQueue`). The class
  `TimerQueue` changes its fields in place as the original does: an ordered set, an index by
  sequence, Timer objects allocated and deleted by hand, the timerfd. Callbacks are finite
  scripts, any one for each timer, that add and cancel timers of the same queue, let time pass,
  or throw; what they add has such scripts again. Every method is proved against a function on states, the lemmas say what these
  functions keep, and `TimerRuns` says what that comes to over whole runs. Clock readings and the
  addresses that the allocator chooses are parameters.
- **Event loop** (`EventLoop`, `EventLoopRuns`). Posters, the loop, the code that it runs and the kernel as
  interleaved atomic steps: a mutex section, an atomic access, a system call, a completion; and
  what comes of the handles, tasks and operations that a run is given.
- **Thread pool** (`ThreadPool`) and **`co_await pool.submit(fn)`** (`SubmitSystem`,
  `SubmitProgress`). The pool with its condition variable as atomic steps; then any number of
  event loops and coroutines composed with one pool, which other coroutines and tasks share with
  them; and which of these coroutines are ever resumed.
- **Task** (`TaskProgram`, `TaskHeap`, `TaskRuntime`). Coroutine bodies that await, move,
  discard, return, throw, handle and wait for I/O; their meaning by plain recursion; and the
  frames on the heap with `continuation_`, `result_` and `handle_`, run by one loop that jumps
  from handle to handle. The native stack is part of that machine: a `resume()` pushes, a
  symmetric transfer replaces.
- **Logger** (`LoggerState`, `AsyncLogger`). Front and back end as lock sections and steps in
  between, over the buffers as they are moved about.
- **Idle wheel** (`CircularBuffer`, `IdleWheel`), **buffers** (`Buffer`), **numbers in log
  lines** (`LogStream`), the **echo loop** (`Echo`), **registered buffer slots** (`BufferPool`)
  and the **grouping of polling threads** (`SchedulerPool`).

## Where the code is not what one might expect

- Callbacks run in order of expiration over a whole run exactly if delays are not negative
  (`TimerRuns.OrderedIffNonNegative`). A timer that a callback of a batch cancels still runs in
  that batch exactly if its turn comes after that callback's
  (`TimerAdditions.CancelledRunsAgainIff`); in any case it is not re-inserted.
- A direct `stop()` is forgotten exactly if it comes before `run()` resets the flag
  (`EventLoop.StopStaysIff`); one that is posted is not.
- `CoroThreadPool::stop` may wait for ever for a worker that sleeps through its notification,
  exactly if one had looked at the queue and not gone to sleep yet when it notified
  (`ThreadPool.StopHangsIff`).
- Tasks enqueued while any worker is still there run, and those enqueued later never do
  (`ThreadPool.StopDrains`). So a coroutine that submits to a pool whose workers have gone is never
  resumed, and no more is one whose loop has made its last drain before the handle is posted;
  all others can be (`SubmitProgress.ResumedIffNotLost`).
- An append after the logger's last lock section finds no current buffer exactly if the current
  one held something (`AsyncLoggers.DrainTakesCurrent`); if it finds one its line is lost
  (`AsyncLoggers.LateLineIsNeverWritten`).
- A write that returns zero makes `send_fixed` give up while the echo loop goes on, so bytes can
  be missing in the middle (`Echoes.EchoIsPrefixIff`).
- The timeline in CORO_NET_PROJECT.md:923-937 has an entry evicted after one tick; by the code it
  is N ticks (`IdleWheels.EvictedAfterItsTime`).
- The comments in include/coro_net/scheduler.hpp:61-68 speak of MSG_RING; the code writes an
  eventfd (src/scheduler/scheduler.cc:152-157), and so does the model.

## Model

| member | source | states |
|---|---|---|
| `TimerRuns.RunsAreTimely` | src/timer/timer_queue.cc:162-200 | Over every run (calls, re-entrant and throwing callbacks, kernel steps, any monotone clock): no callback runs before its expiration, batches read a monotone clock, a one-shot timer runs at most once, and two runs of a periodic timer are at least one interval apart |
| `TimerRuns.NothingLeaks` | src/timer/timer_queue.cc:61-204 | In every reachable state a sequence that was ever issued is either indexed, with exactly one live Timer whose entry is under its current expiration, or deleted; never both, never neither |
| `TimerRuns.TimerfdAgrees` | src/timer/timer_queue.cc:74-93 | In every reachable state the timerfd is set for the earliest expiration, at least 1 ns after the clock reading and later by the lag of the timerfd_settime call behind that reading; it is unset only if nothing is queued or it has fired and that is still to be handled |
| `TimerRuns.AddMeans` | src/timer/timer_queue.cc:98-128 | Between batches add gives one new timer, under the next sequence and due at the clock reading plus the delay, and add_periodic one due an interval later that repeats after that interval; no other timer changes |
| `TimerRuns.DueTimerRuns` | src/timer/timer_queue.cc:162-176 | handle_expired runs every timer that is due by its clock reading |
| `TimerRuns.EarliestTimerRuns` | src/timer/timer_queue.cc:34-43 | Once the clock is past the earliest expiration by more than the lag of the setting in force, one kernel expiry and one completed read run that timer |
| `TimerRuns.OrderedIffNonNegative` | src/timer/timer_queue.cc:162-203 | With delays and intervals bounded from below by min, callbacks run in non-decreasing expiration order across whole runs if and only if min >= 0 |
| `TimerRuns.LateAddition` | src/timer/timer_queue.cc:98-112 | The run that shows the other half: a negative delay gives an expiration before one that has already run |
| `TimerRuns.DeletedIsSilent` | src/timer/timer_queue.cc:133-157 | A deleted timer's sequence never runs again, whoever gets its address |
| `TimerRuns.CancelIsFinal` | src/timer/timer_queue.cc:133-157 | A timer cancelled outside a batch never runs again in any continuation |
| `TimerRuns.CancelInCallbackIsFinal` | src/timer/timer_queue.cc:136-139 | A timer that was queued before a batch and is cancelled by a callback of it is not in the index when handle_expired returns and never runs after that |
| `TimerAdditions.AddedInBatch` | src/timer/timer_queue.cc:162-203 | A timer that any action of any callback of a batch adds does not run in that batch; afterwards it is indexed with its own callback, expiration and interval, unless one of the actions that follow in the batch cancels its sequence, and then it is deleted |
| `TimerAdditions.CancelledInBatch` | src/timer/timer_queue.cc:133-157 | A sequence, once issued, that any action of any callback of a batch cancels, be its timer queued, in the batch or added by the batch, is deleted when handle_expired returns and never runs after that |
| `TimerAdditions.CancelledRunsAgainIff` | src/timer/timer_queue.cc:162-200 | After the k-th callback of a batch has cancelled a sequence, that runs again, in the batch or in any continuation, if and only if it is the timer of a place in the batch behind the k-th |
| `TimerAdditions.RestOfBatch` | src/timer/timer_queue.cc:174-184 | From any action on, the rest of the batch cancels the rest of its cancels and leaves every other timer alone |
| `TimerBatch.HandleExpiredMeans` | src/timer/timer_queue.cc:162-204 | handle_expired in full: exactly the due timers run, in the set's order, each once with the batch's clock reading; afterwards a timer of the batch with an interval above zero that was not cancelled is indexed again with expiration reading + interval and the same callback, interval and sequence, and any other timer of the batch is deleted; a timer outside the batch is unchanged unless cancelled, and one that a callback added is indexed unless the batch cancelled it too |
| `TimerBatch.CancelOnlyCancels` | src/timer/timer_queue.cc:133-157 | Inside a batch cancel deletes the timer of that sequence and touches no other, whatever timer now lives at the id's address |
| `TimerBatch.CancelIsExact` | src/timer/timer_queue.cc:133-157 | Outside a batch a stale id changes nothing at all, and a live one removes its own timer and no other |
| `TimerBatch.CancelIsIdempotent` | src/timer/timer_queue.cc:133-157 | A second cancel of the same id changes nothing |
| `TimerBatch.InsertOnlyAdds` | src/timer/timer_queue.cc:98-128 | Adding a timer, also from a callback, leaves every other timer and the batch as they were |
| `TimerBatch.PerformedFrame` | src/timer/timer_queue.cc:174-183 | What one action of a callback leaves alone and which sequence it cancels |
| `TimerBatch.GivenBackUpToMeans` | src/timer/timer_queue.cc:187-199 | After i rounds of the last loop each of the first i timers of the batch is indexed with expiration reading + interval, all else of it as before, if its interval is above zero and it was not cancelled, and is deleted otherwise; the rest of the batch waits unchanged and nothing else is touched |
| `TimerBatch.CompletionMeans` | src/timer/timer_queue.cc:34-43 | A failed read changes nothing but the read's own state; a completed one runs callbacks exactly if some timer is due; after either the read is posted again |
| `TimerBatch.PerformedAdds` | src/timer/timer_queue.cc:98-128 | What a callback adds is due a delay or an interval after the time that has passed in it, at a free address and under the next sequence |
| `TimerBatch.KernelKeeps` | src/timer/timer_queue.cc:74-88 | A kernel expiry, a completed or failed read and a re-armed read keep the queue's invariant |
| `TimerState.InsertKeeps` | src/timer/timer_queue.cc:98-128 | add keeps the bijection between timers_ and active_, the ownership of Timer objects, the history of runs and the timerfd's agreement, in and outside a batch |
| `TimerState.CancelKeeps` | src/timer/timer_queue.cc:133-157 | cancel keeps all of these, in and outside a batch |
| `TimerState.PopKeeps` | src/timer/timer_queue.cc:166-172 | A round of the pop loop keeps the batch sorted, due, and disjoint from timers_ and active_ |
| `TimerState.RunKeeps` | src/timer/timer_queue.cc:175-183 | Entering the next callback keeps what the callback may rely on: no early run, spacing of periodic runs, silence of deleted timers |
| `TimerState.GiveBackKeeps` | src/timer/timer_queue.cc:187-199 | Re-inserting or deleting a timer of the batch keeps the bijection and the ownership |
| `TimerState.FinishKeeps` | src/timer/timer_queue.cc:200-203 | Clearing the cancel list and setting the timerfd ends in a valid queue |
| `TimerState.Allocate` | src/timer/timer_queue.cc:101-102 | An allocator may hand out any free address, also one used before |
| `TimerState.Deadline` | src/timer/timer_queue.cc:74-88 | The relative setting is clamped to 1 ns and counts from the call, so the deadline is never before the expiration, always after the reading, and later than either by the call's lag only |
| `TimerQueues.TimerQueue.constructor` | src/timer/timer_queue.cc:53-59 | A new queue is the initial state |
| `TimerQueues.TimerQueue.Insert` | src/timer/timer_queue.cc:98-128 | add and add_periodic do what Inserted says, and issue the next sequence |
| `TimerQueues.TimerQueue.Add` | src/timer/timer_queue.cc:98-112 | add is an insertion for now + delay without repetition |
| `TimerQueues.TimerQueue.AddPeriodic` | src/timer/timer_queue.cc:114-128 | add_periodic is an insertion for now + interval that repeats |
| `TimerQueues.TimerQueue.ResetTimerfd` | src/timer/timer_queue.cc:74-88 | The setting replaces an older one and drops an unread expiry |
| `TimerQueues.TimerQueue.Cancel` | src/timer/timer_queue.cc:133-157 | cancel does what Cancelled says, in and outside a batch |
| `TimerQueues.TimerQueue.Erase` | src/timer/timer_queue.cc:141-156 | The found timer leaves set and index and is deleted, and the timerfd follows if it was on top |
| `TimerQueues.TimerQueue.Call` | src/timer/timer_queue.cc:175-183 | A callback's actions are performed up to its end or its throw, re-entering the queue |
| `TimerQueues.TimerQueue.PopExpired` | src/timer/timer_queue.cc:165-172 | The loop pops exactly what PopAll says |
| `TimerQueues.TimerQueue.RunBatch` | src/timer/timer_queue.cc:174-184 | The loop runs the callbacks of the batch one after the other |
| `TimerQueues.TimerQueue.GiveBack` | src/timer/timer_queue.cc:187-199 | The loop gives the whole batch back |
| `TimerQueues.TimerQueue.HandleExpired` | src/timer/timer_queue.cc:162-204 | handle_expired does what HandleExpired says and leaves a valid queue |
| `TimerQueues.TimerQueue.KernelExpires` | src/timer/timer_queue.cc:84-88 | The timerfd fires exactly when its deadline has been reached |
| `TimerQueues.TimerQueue.KernelReads` | src/timer/timer_queue.cc:29-32 | A read completes only on an unread expiry, which it consumes, or fails |
| `TimerQueues.TimerQueue.OnComplete` | src/timer/timer_queue.cc:34-43 | A completed read is handled, a failed one is not, and the read is armed again |
| `TimerQueues.TimerQueue.Destroy` | src/timer/timer_queue.cc:61-64 | The destructor deletes every remaining Timer once, and with that every one ever issued |
| `EventLoop.StepKeepsInv` | src/scheduler/scheduler.cc:129-246 | Every atomic step of a poster, the loop, code on the loop's thread or the kernel keeps: one watcher read, local queues empty at a wait, no lost wakeup, no lost stop, posted stops kept |
| `EventLoop.RunKeepsInv` | src/scheduler/scheduler.cc:197-250 | So does every interleaving |
| `EventLoop.NoLostWakeups` | src/scheduler/scheduler.cc:129-246 | In every reachable state in which the loop is blocked: if a handle, a task or a stop is pending, a poster still owes its eventfd write or the kernel can complete the watcher's read; and nothing is ready, swapped out or taken |
| `EventLoop.WatcherIsUnique` | src/scheduler/scheduler.cc:42-63 | Once started, the watcher's read is prepared, in flight or completed: always exactly one of them |
| `EventLoop.WriteEndsWait` | src/scheduler/scheduler.cc:152-157 | Once the eventfd is written, the kernel and the loop alone get from blocked to the next drain, or out of the loop if stopped |
| `EventLoopRuns.TasksRunInOrder` | src/scheduler/scheduler.cc:129-192 | Over every run: the tasks run so far, then those swapped out, then those queued are the tasks posted or booted, once each and in that order |
| `EventLoopRuns.HandlesAreConserved` | src/scheduler/scheduler.cc:129-246 | Over every run, as often as a handle was posted, made ready by code on the loop's thread or held by a posted task it has been resumed or is still in one of the queues |
| `EventLoopRuns.AskedIsResumed` | src/scheduler/scheduler.cc:129-218 | Whatever was asked for by a moment when a drain comes before the next wait, directly or through a task yet to run, has been resumed as often when the loop next waits |
| `EventLoopRuns.PostedResumeInOrder` | src/scheduler/scheduler.cc:137-167 | Handles that come by post only are resumed in the order of their posts |
| `EventLoopRuns.OperationsAreHandledOnce` | src/scheduler/scheduler.cc:219-246 | Every I/O operation prepared has been handled once or is under way, and at a wait those under way have been submitted |
| `EventLoopRuns.StoppingTaskStops` | src/scheduler/scheduler.cc:174-192 | A task that stops the loop, posted or booted at any time, has set the flag for good once no such task is queued any more |
| `EventLoop.StopIsNotLost` | src/scheduler/scheduler.cc:287-303 | A stop after the reset in run() stays set, and a blocked loop then has a wakeup under way |
| `EventLoop.StoppingStays` | src/scheduler/scheduler.cc:197-218 | After the reset nothing clears stopping_ |
| `EventLoop.PostedStopTakesEffect` | src/scheduler/scheduler.cc:174-192 | A stop() sent as a task, also before run(), has taken effect once the tasks have been run, and both looks at stopping_ then leave the loop |
| `EventLoop.StopStaysIff` | src/scheduler/scheduler.cc:197-218 | For every state with a stop set: it stays set in every continuation if and only if run() is past its reset |
| `EventLoop.LastDrainStays` | src/scheduler/scheduler.cc:207-218 | Past its last drain a loop stays there: no step takes it to another one |
| `EventLoop.StopBeforeRunIsForgotten` | src/scheduler/scheduler.cc:197-199 | What forgetting it can come to: a run with a direct stop() before the reset that ends blocked with nothing left to wake it |
| `EventLoop.PosterKeeps` | src/scheduler/scheduler.cc:152-192 | post, post_task, queue_boot_task before run(), a remote stop and the eventfd write each keep the invariant |
| `EventLoop.CodeKeeps` | src/scheduler/scheduler.cc:287-298 | Code on the loop's thread, a stop() from it included, keeps the invariant |
| `EventLoop.KernelKeeps` | src/scheduler/scheduler.cc:42-63 | A completed or failed read and other completions keep the invariant |
| `ThreadPool.Initial` | src/thread_pool/coro_thread_pool.cc:18-26 | start() brings up the asked-for number of workers, at least one |
| `ThreadPool.StepKeepsInv` | src/thread_pool/coro_thread_pool.cc:28-67 | Every atomic step of enqueue, stop and the workers keeps: work conserved, tasks accounted for, workers gone only from an empty stopped queue |
| `ThreadPool.SleepersAreNotNeeded` | src/thread_pool/coro_thread_pool.cc:39-57 | In every reachable state in which a worker sleeps, the queue is no longer than the awake workers plus the notifications still to come |
| `ThreadPool.TasksRunOnce` | src/thread_pool/coro_thread_pool.cc:47-66 | Over every run, by its labels: the tasks that workers turned to, then the queue, are the tasks pushed, in that order; and each task turned to is running or finished, as often as it was turned to |
| `ThreadPool.QueueIsAttended` | src/thread_pool/coro_thread_pool.cc:39-57 | While anything is queued, some worker is awake or busy or one asleep is going to be notified, if and only if not all workers have gone |
| `ThreadPool.StopDrains` | src/thread_pool/coro_thread_pool.cc:28-37 | When all workers are gone there was a stop, every task turned to is finished, and the tasks pushed are those finished and those queued, which were pushed after the last worker had gone; so every task ever enqueued has run if and only if there is none of these |
| `ThreadPool.LastWorkerLeavesNothing` | src/thread_pool/coro_thread_pool.cc:55 | The step with which the last worker leaves finds the queue empty and everything done; what is queued later is exactly what is pushed later |
| `ThreadPool.LateTaskIsStranded` | src/thread_pool/coro_thread_pool.cc:39-45 | A task that is pushed after the last worker has gone stays in the queue for good |
| `ThreadPool.TaskCanBeStranded` | src/thread_pool/coro_thread_pool.cc:28-57 | A run that ends with such a task |
| `ThreadPool.StopHangsIff` | src/thread_pool/coro_thread_pool.cc:28-37 | After stop()'s notify_all, steps other than pushes and spurious wakeups can come to a standstill with a worker asleep if and only if some worker was between its look at the queue and its sleep at that moment; for all pools and histories |
| `ThreadPool.StopReturns` | src/thread_pool/coro_thread_pool.cc:28-37 | If none was, every run of such steps is bounded and comes to an end only when all workers have gone |
| `ThreadPool.StopMayHang` | src/thread_pool/coro_thread_pool.cc:30-31 | A run to such a moment: stop() sets its flag without the lock |
| `SubmitSystem.StepKeepsInv` | include/coro_net/thread_pool.hpp:133-152 | Every step of schedulers, pool and closures is safe and keeps the handle's place, the owed writes and the slots in agreement |
| `SubmitSystem.HandleIsInOnePlace` | include/coro_net/thread_pool.hpp:133-152 | In every reachable state a suspended coroutine's handle is at exactly one of the pool's queue, one closure and its own scheduler's queues; any other coroutine's is at none |
| `SubmitSystem.AwaiterOutlivesClosure` | include/coro_net/thread_pool.hpp:137-151 | Whatever step comes next finds what it touches: a closure fills and posts only while its coroutine is still suspended on it, and after the post it only writes the eventfd |
| `SubmitSystem.ResumedAtHome` | include/coro_net/submit_awaiter.hpp:42-60 | A loop resumes a coroutine only on the scheduler it suspended on, which is the one it was spawned on, and with its slot full; with what await_resume then takes out, the coroutine has received exactly what fn came to in all its awaits, in order |
| `SubmitSystem.StaysHome` | include/coro_net/thread_pool.hpp:132-136 | A coroutine spawned on a scheduler runs on it, or is suspended on it, in every later state |
| `SubmitSystem.AwaitsAnsweredOnce` | include/coro_net/thread_pool.hpp:133-152 | Over every run, by its labels: what fn returned or threw for a coroutine, each time in the worker that was calling it, is what its awaits have taken out, in that order and once for each await that is over, and at most one more that is still in the slot |
| `SubmitProgress.ResumedIffNotLost` | include/coro_net/thread_pool.hpp:133-152 | For every reachable state and suspended coroutine: some continuation resumes it if and only if it is neither queued in a pool whose workers have all gone nor suspended on a loop that is past its last drain (it has exited, or is stopped or about to run a stopping task after a drain) and does not have it ready; and if some continuation does, so does one of the loops, the pool and the kernel alone, with no signal, no spurious wakeup and nothing more posted |
| `SubmitProgress.LostForGood` | include/coro_net/thread_pool.hpp:133-152 | In every continuation such a coroutine stays suspended and takes no outcome out, whatever its closure still does |
| `SubmitProgress.NotLostIsResumed` | include/coro_net/thread_pool.hpp:133-152 | The run for any other: the pool works off the queue, the closure fills the slot, posts and writes, and the loop comes round to the drain and the resumption |
| `SubmitProgress.StepKeepsRound` | src/scheduler/scheduler.cc:209-218 | A coroutine is made ready by a drain only and is resumed before the next look at stopping_ |
| `SubmitProgress.LostWhileCalled` | include/coro_net/thread_pool.hpp:137-151 | A run in which the home loop exits while the function runs: the coroutine is lost before it is posted |
| `SubmitSystem.AttendedUnlessStranded` | include/coro_net/thread_pool.hpp:133-152 | As far as its next hand a suspended coroutine is attended to (an attended queue, a busy worker, or a scheduler still in run() and not blocked without a wakeup under way) if and only if it is neither queued in a pool whose workers have all gone nor posted to a loop that has exited |
| `SubmitSystem.StrandedForGood` | include/coro_net/thread_pool.hpp:133-152 | A coroutine queued or posted like that stays so in every continuation |
| `SubmitSystem.QueuedForGood` | include/coro_net/thread_pool.hpp:133-152 | A run to the first of these: the pool is stopped before the submission |
| `SubmitSystem.PostedForGood` | include/coro_net/thread_pool.hpp:149-151 | A run to the second: the home loop is stopped while the function runs |
| `TaskRuntimes.SpawnAndRun` | include/coro_net/task.hpp:92-314 | A spawned coroutine, resumed with each input as it comes, ends with the value or exception of plain recursive evaluation and takes the same inputs; then every frame ever created has been destroyed, none twice; and the native stack has never been deeper than one resume(), however deep the awaits |
| `TaskRuntimes.Runtime.Trampoline` | include/coro_net/task.hpp:101-108 | One resume() from the event loop: all transfers from coroutine to coroutine are rounds of one loop in which the native stack is one frame deeper than before, whatever the nesting; it ends at a wait, at the end or at a fault with the evaluation's meaning unchanged |
| `TaskRuntimes.Runtime.TakeTurn` | include/coro_net/task.hpp:241-267 | One turn of the frame in control does what Step says |
| `TaskRuntimes.Runtime.AwaitSuspend` | include/coro_net/task.hpp:247-253 | The awaiting frame becomes the continuation, and control jumps to the awaited one |
| `TaskRuntimes.Runtime.AwaitResume` | include/coro_net/task.hpp:255-264 | It needs a finished Task, and the awaiting frame goes on with its value, in the handler, or unwinding |
| `TaskRuntimes.Runtime.FinalSuspend` | include/coro_net/task.hpp:101-108 | The result is stored, a value before and an exception after the locals are destroyed, and control goes to the continuation, or to the event loop if there is none |
| `TaskRuntimes.StoreFirst` | include/coro_net/task.hpp:148-156 | Storing the result before the locals go, or after, leaves the same heap |
| `TaskRuntimes.Runtime.MoveAssign` | include/coro_net/task.hpp:211-217 | Move assignment destroys the target's frame and leaves the source empty; on itself it does nothing |
| `TaskRuntimes.Runtime.ResetLocal` | include/coro_net/task.hpp:220-222 | A Task's destructor destroys its frame, which still exists |
| `TaskHeaps.StepIsGood` | include/coro_net/task.hpp:92-314 | Every turn keeps ownership, the continuation chain and the leaves, keeps what the chain of frames is going to end with, and leaves less to do |
| `TaskHeaps.FeedIsGood` | include/coro_net/task.hpp:137-144 | Resuming a frame with its input takes exactly one input of the evaluation |
| `TaskHeaps.WaitersWait` | include/coro_net/task.hpp:247-253 | Between turns each frame of the chain but the last is suspended exactly once, on the next, which is unfinished and has it as its continuation; no other frame is suspended |
| `TaskHeaps.ResumedOnlyWhenDone` | include/coro_net/task.hpp:255-264 | A turn resumes no suspended frame but the one in control, and that only when the Task it awaits is done |
| `TaskHeaps.MoveTurns` | include/coro_net/task.hpp:211-217 | Move assignment is the move of the slot values, and touches no frame of anybody else |
| `TaskHeaps.FinishTurns` | include/coro_net/task.hpp:148-156 | The end of a body destroys exactly the frames that its locals own |
| `TaskHeaps.SuspendKeepsMeaning` | include/coro_net/task.hpp:247-253 | Starting a Task does not change what the chain of frames is going to end with |
| `TaskHeaps.FinishKeepsMeaning` | include/coro_net/task.hpp:101-108 | Neither does ending one and jumping to its continuation |
| `TaskPrograms.TakingKeepsMeaning` | include/coro_net/task.hpp:255-264 | Taking a finished Task's outcome, or rethrowing it, is what recursive evaluation does next |
| `TaskPrograms.StartingKeepsMeaning` | include/coro_net/task.hpp:247-253 | A call in the middle of an evaluation is the callee's evaluation on top of a suspended caller |
| `TaskPrograms.AwaitIsCall` | include/coro_net/task.hpp:235-267 | Awaiting a Task where it was made is a call of it: its value is received, its exception goes to the handler or ends the caller |
| `AsyncLoggers.LogIsConserved` | src/log/async_logger.cc:77-169 | Over every run without drops: the file, then what the round under way has yet to write, then what is out of the lock, then what is held in front are the lines given to the appends before the last lock section and the end of the logger, each whole, once and in lock order |
| `AsyncLoggers.DropsAreReported` | src/log/async_logger.cc:126-134 | Over every run all lines given to those appends are accounted for by rounds, in order, and a round that dropped anything had more than 25 buffers, wrote the two oldest and reported the number of the others |
| `AsyncLoggers.ShutdownFlushes` | src/log/async_logger.cc:157-168 | When the back end is done, all the lines given to those appends have been through a round, and the file holds all of them unless a round dropped some |
| `AsyncLoggers.AppendStores` | src/log/async_logger.cc:77-91 | append stores its line as one piece, whole unless it is longer than 4194304 bytes, and then cut to that |
| `AsyncLoggers.BuffersFillUp` | src/log/async_logger.cc:77-91 | No buffer ever holds more than 4194304 bytes; an append hands the current buffer over, once, exactly if the line is not shorter than what is left of it, and the line then goes into an empty one; otherwise only the current buffer grows |
| `AsyncLoggers.FallbackMeans` | src/log/async_logger.cc:66-75 | An append falls back exactly after the join or once the destructor has begun; it then writes its line to stderr and does nothing else, and stderr holds exactly these lines |
| `AsyncLoggers.NothingIsNull` | src/log/async_logger.cc:77-169 | No step of any thread but an append after the last lock section dereferences a missing buffer; up to there current_ is there whenever the lock is free, a missing next_ means a full buffer waits, and both spares are back at the loop's head |
| `AsyncLoggers.DrainTakesCurrent` | src/log/async_logger.cc:157-163 | Right after the last lock section an append that is not too long is safe if and only if the current buffer held nothing |
| `AsyncLoggers.LateLineIsNeverWritten` | src/log/async_logger.cc:157-168 | What a safe append stores after the last lock section is in no round and never gets into the file |
| `AsyncLoggers.DropMeans` | src/log/async_logger.cc:126-138 | More than 25 buffers: the two oldest are written and the others reported; otherwise all are written |
| `AsyncLoggers.RecycleMeans` | src/log/async_logger.cc:140-153 | Both spare buffers are back, empty, at the end of every round |
| `AsyncLoggers.AsyncLogger.Append` | src/log/async_logger.cc:66-91 | append does what Append says, its fallback to stderr and an append after the last lock section included; all it needs is what it dereferences |
| `AsyncLoggers.AsyncLogger.Collect` | src/log/async_logger.cc:111-123 | The back end's lock section does what Swap says |
| `AsyncLoggers.AsyncLogger.LimitBacklog` | src/log/async_logger.cc:126-134 | The backlog limit does what Drop says |
| `AsyncLoggers.AsyncLogger.WriteAll` | src/log/async_logger.cc:136-138 | The write loop appends all buffers in order to the file |
| `AsyncLoggers.AsyncLogger.TakeSparesBack` | src/log/async_logger.cc:140-153 | The spares are taken from the newest buffers written |
| `AsyncLoggers.AsyncLogger.RunRound` | src/log/async_logger.cc:110-155 | An undisturbed round puts into the file all that was held in front, or two buffers of it and the number of the others |
| `AsyncLoggers.AsyncLogger.FinalFlush` | src/log/async_logger.cc:157-168 | The final drain puts into the file all that was held in front |
| `AsyncLoggers.AsyncLogger.Shutdown` | src/log/async_logger.cc:171-177 | A shutdown with nobody else at work leaves all that was held in front in the file, and later appends fall back to stderr |
| `LoggerState.StepKeepsInv` | src/log/async_logger.cc:66-169 | Every lock section and every step outside the lock is safe and keeps pointers, conservation and the file in agreement |
| `CircularBuffers.CircularBuffer.PushBack` | src/util/circular_buffer.h:77-99 | push_back keeps the last `capacity` elements, overwriting the oldest, which comes back |
| `CircularBuffers.CircularBuffer.Back` | src/util/circular_buffer.h:101-104 | back() is the element pushed last, and fails on an empty buffer |
| `CircularBuffers.CircularBuffer.AssignBack` | src/util/circular_buffer.h:101-104 | An assignment through back() changes the newest element and nothing else |
| `CircularBuffers.CircularBuffer.Visit` | src/util/circular_buffer.h:44-51 | Iteration from begin() to end() visits each element once, oldest first, through the wrap-around |
| `CircularBuffers.WindowGrows` | src/util/circular_buffer.h:77-99 | A bounded window of everything pushed moves on by one |
| `CircularBuffers.Wraps` | src/util/circular_buffer.h:117-120 | next and prev go round |
| `IdleWheels.WheelIsTable` | src/net/idle_connection_wheel.cc:17-71 | Over every run a wheel for idle seconds does what a table of last activities with a limit of max(1, idle) ticks does: the same entries alive, the same evicted by each tick, the same shutdowns; an entry's reference count is the number of buckets holding it, and none is destroyed twice |
| `IdleWheels.EvictedAfterItsTime` | src/net/idle_connection_wheel.cc:61-71 | After the step that registers or refreshes it, an entry outlives a run without another refresh if and only if the run has fewer than max(1, idle) ticks, whatever else happens |
| `IdleWheels.ShutDownIfOpen` | src/net/idle_connection_wheel.cc:17-32 | An entry that is never refreshed has its connection shut down if and only if the connection still exists at the tick that evicts the entry |
| `IdleWheels.StepRefines` | src/net/idle_connection_wheel.cc:48-71 | Each operation of the wheel is that of the table |
| `IdleWheels.TickedLast` | src/net/idle_connection_wheel.cc:66-68 | A tick evicts exactly the entries idle for N ticks: those whose last reference is in the oldest bucket |
| `IdleWheels.StepKeepsInv` | src/net/idle_connection_wheel.cc:48-71 | Reference counts, buckets and destroyed entries stay in agreement |
| `IdleWheels.IdleConnectionWheel.constructor` | src/net/idle_connection_wheel.cc:34-41 | The wheel starts with max(1, idle) buckets, all empty |
| `IdleWheels.IdleConnectionWheel.RegisterConn` | src/net/idle_connection_wheel.cc:48-55 | A new entry goes into the newest bucket |
| `IdleWheels.IdleConnectionWheel.Refresh` | src/net/idle_connection_wheel.cc:57-59 | An entry that still exists goes into the newest bucket too |
| `IdleWheels.IdleConnectionWheel.Tick` | src/net/idle_connection_wheel.cc:61-71 | The overwritten bucket drops its references, and with a last one the entry's destructor runs |
| `IdleWheels.IdleConnectionWheel.DropReference` | src/net/idle_connection_wheel.cc:17-32 | ~IdleEntry runs with the last reference, once, and spawns a shutdown only if the connection is alive |
| `Buffers.RunOps` | include/coro_net/buffer.hpp:71-137 | For every sequence of appends, retrievals with and without a string, and receives: what has come out followed by what is left is what went in |
| `Buffers.Buffer.Retrieve` | include/coro_net/buffer.hpp:71-82 | The readable bytes lose their first len, or all of them |
| `Buffers.Buffer.RetrieveAsString` | include/coro_net/buffer.hpp:84-91 | The first len readable bytes come out and no others are lost |
| `Buffers.Buffer.MakeSpace` | include/coro_net/buffer.hpp:124-137 | Both branches keep the readable bytes and leave room for len; the storage grows exactly if size < readable + len + 8, and then to the write index + len, which is less than readable + 2*len + 8 |
| `Buffers.Buffer.EnsureWritableBytes` | include/coro_net/buffer.hpp:93-95 | There is room for len afterwards, the contents are the same and the storage has not shrunk |
| `Buffers.Buffer.MoveToFront` | include/coro_net/buffer.hpp:128-136 | The overlapping move keeps the readable bytes |
| `Buffers.Buffer.Append` | include/coro_net/buffer.hpp:98-107 | The readable bytes grow by exactly the data |
| `Buffers.Buffer.HasWritten` | include/coro_net/buffer.hpp:114-117 | The bytes already in place behind the write index become readable |
| `Buffers.RecvIntoBuffer.AwaitSuspend` | include/coro_net/ops/recv_into_buffer.hpp:41-46 | At least 4096 bytes of space at the write index are offered and the contents are unchanged |
| `Buffers.RecvIntoBuffer.OnComplete` | include/coro_net/ops/recv_into_buffer.hpp:48-57 | A completion within the offered space meets hasWritten's bound if the buffer is untouched since, and adds exactly what the kernel wrote |
| `Buffers.Recv` | include/coro_net/ops/recv_into_buffer.hpp:41-59 | A receive from end to end: the buffer gains exactly what arrived, nothing for an error or an end of stream |
| `LogStreams.ParseShown` | src/log/log_stream.cc:22-36 | For every integer the printed text is read back as that integer and has no leading zero |
| `LogStreams.ShownParse` | src/log/log_stream.cc:22-36 | Text without leading zeros that is read as v is the text printed for v |
| `LogStreams.WordLength` | src/log/log_stream.cc:22-50 | A value of at most 64 bits, signed or not, the minimum included, takes at most 20 characters, and 16 in hexadecimal |
| `LogStreams.EmitDigits` | src/log/log_stream.cc:27-31 | The loop with truncating division emits the digits last first, of negative values too, without a negation |
| `LogStreams.TruncatedDivision` | src/log/log_stream.cc:28-29 | Quotient and remainder toward zero are those of the magnitude, and the remainder stays in the digit table |
| `LogStreams.DigitTable` | src/log/log_stream.cc:18-19 | The table has the right digit on both sides of zero |
| `LogStreams.Convert` | src/log/log_stream.cc:22-36 | convert leaves the decimal text of the value and its length |
| `LogStreams.ConvertHex` | src/log/log_stream.cc:39-50 | convertHex leaves the hexadecimal text behind the prefix |
| `LogStreams.HexRoundTrip` | src/log/log_stream.cc:39-50 | Hexadecimal text is read back as its value |
| `LogStreams.ReverseInPlace` | src/log/log_stream.cc:34 | The in-place reversal |
| `LogStreams.LogStream.FormatInteger` | src/log/log_stream.cc:52-59 | The whole numeral is appended, or nothing near the end of the buffer |
| `LogStreams.LogStream.FormatPointer` | src/log/log_stream.cc:86-96 | The same for 0x and a hexadecimal numeral |
| `LogStreams.FixedBuffer.Append` | include/coro_net/log/log_stream.hpp:25-30 | What fits is appended and the rest cut off |
| `LogStreams.PrintAndRead` | src/log/log_stream.cc:52-84 | A number printed into an empty stream is whole and read back |
| `Echoes.EchoIsPrefixIff` | example/echo_server.cc:96-102 | For given receive lengths and write results: what is written is a prefix of what is received for all contents if and only if no send that gives up short is followed by a write of something |
| `Echoes.SendMeans` | src/net/tcp_connection.cc:73-87 | A send writes as many bytes from the front of its data as its writes took together; it is full exactly when that is all, and otherwise ends short with a write of zero, with the error of its last write, or not yet |
| `Echoes.ShortIsSkipped` | example/echo_server.cc:96-102 | The handler goes on after a short send and ends after an error |
| `Echoes.PositiveWritesDoNotSkip` | src/net/tcp_connection.cc:73-87 | With positive write counts and errors only, what is written is always a prefix of what is received |
| `Echoes.GapShows` | example/echo_server.cc:96-102 | The contents that show a gap after a write of zero |
| `Echoes.TcpConnection.SendFixed` | src/net/tcp_connection.cc:73-87 | Writes a prefix of the data and returns its length, exactly len when all is sent, or the error of the write that failed; what remains shrinks with every write |
| `Echoes.TcpConnection.Echo` | example/echo_server.cc:96-102 | The handler's loop writes Out and receives In of its rounds |
| `BufferPools.RegisteredBufferPool.constructor` | include/coro_net/registered_buffer_pool.hpp:43-74 | Either the pool is disabled and empty, or every slot up to the clamped capacity is free once |
| `BufferPools.Connections.Open` | src/net/tcp_connection.cc:15-26 | A connection gets a slot that nobody holds; it gets none if and only if the pool is disabled or every slot is held |
| `BufferPools.Connections.Close` | src/net/tcp_connection.cc:28-33 | The destructor returns what the connection holds, and free and held slots still partition all slots |
| `BufferPools.SlotTaken` | include/coro_net/registered_buffer_pool.hpp:91-96 | Taking a slot keeps the partition into free and held slots |
| `BufferPools.SlotReturned` | include/coro_net/registered_buffer_pool.hpp:99-102 | So does returning one |
| `BufferPools.HeldSlotsAreDisjoint` | include/coro_net/registered_buffer_pool.hpp:104-106 | The slots of two connections are disjoint ranges inside the arena |
| `SchedulerPools.Configure` | src/scheduler/scheduler_pool.cc:13-38 | For all n and M: the group size is the least with which M groups hold all n rings; the first ring of each group polls for itself, on the group's core if one is given, and every other ring attaches to the first ring of its group, which comes before it; at most M rings poll; without grouping nothing is attached or pinned |
| `SchedulerPools.GroupsSuffice` | src/scheduler/scheduler_pool.cc:19-20 | A size is enough for M groups to hold n rings if and only if it is at least ceil(n/M), and with that size there are no more than M groups |
| `SchedulerPools.LeaderCount` | src/scheduler/scheduler_pool.cc:27-29 | There is one leader to a group |
| `SchedulerPools.LeaderIsFirst` | src/scheduler/scheduler_pool.cc:27-35 | A ring's leader is the first ring of its group |

## Left out

- The liburing, eventfd, timerfd and socket calls themselves: the kernel is the few steps above. Every submission entry that is asked for is to be had; without one a watcher is not re-armed (src/scheduler/scheduler.cc:55-56).
- `run()` is entered once for each scheduler, and a `submit_and_wait` that fails other than by a signal, which throws, is not modelled.
- The scheduler's queues, the pool, the awaiter's slot and the closure are modelled as values that atomic steps replace, not as objects: their fields are shared between threads, and it is the interleavings that matter. C++ memory ordering is not captured.
- `queue_boot_task` is a step only before `run()`, as its comment asks.
- Null and finished handles, which the loop skips, do not occur in the event loop's model.
- In SubmitSystem the pool's threads post nothing but the handles of the coroutines modelled; other tasks of the pool are only queued, taken and finished.
- The 64-bit wrap-around of timer sequences, of the eventfd's counter and of `next_idx_` is not modelled; round-robin `next` is left out.
- A callback is one script, the same at every run of a periodic timer; a callback that acts differently from run to run, such as one that cancels itself at its third, is not modelled.
- Cross-thread `run_after`, `run_every` and `cancel`, which only post the call, are left out.
- LOG output of the modelled functions is left out.
- Coroutine bodies are finite trees without loops, and arguments are numbers, not Tasks; a try block surrounds a single await. A Task that is awaited twice gives its value again, as it does for values that a move leaves alone.
- Destroying a coroutine in the middle of an await, which would destroy its chain of awaited frames, is not modelled; nor is `release()`.
- Logger buffers are sequences of texts with a size, moved as values as the unique_ptrs are; `LogStreams.FixedBuffer` is the byte array. The log file is a log that only grows, without rolling; the fallback file is stderr. An append after the last lock section that is too long for the current buffer pushes onto the vector that is being read without the lock; that race is undefined behaviour, and such a step is only said to be unsafe.
- A loop condition read before a stop is modelled by letting one more round begin after it.
- IdleWheels.IdleConnectionWheel.RegisterConn: does not count the reference in the shared_ptr that register_conn returns, because its caller drops it before the next tick (src/net/tcp_server.cc:114-115); an entry whose reference is kept outside the wheel would outlive its N ticks.
- Ticks of the wheel do not fall between a lock of an entry's weak pointer and its insertion: both happen on the scheduler's thread without an await. The destruction of a whole wheel is not modelled.
- The echo loop without a registered slot (example/echo_server.cc:104-112), which ignores what `send` returns, is left out; `send` has the loop of `send_fixed`.
- Floating-point numbers, log prefixes, the other awaiters, addresses, sockets and the server's set-up are left out.
- Buffers.Buffer.RetrieveAsString: does not forbid a length beyond the readable bytes, because the original does not either; it asks only that the bytes be inside the storage.
- Buffers.RecvIntoBuffer.OnComplete: assumes that nobody touches the buffer while the receive is under way, because the original relies on it.
