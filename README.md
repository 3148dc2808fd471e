# eduOS-rs task scheduler and blocking mutex in Dafny

This project models the task layer of the eduOS-rs teaching kernel: the
single-core `Scheduler` of `src/scheduler/scheduler.rs` and the blocking `Mutex`
of `src/synch/mutex.rs` built on top of it. It proves that the operations keep
the scheduler's bookkeeping exact and do what the code promises.

**The scheduler.** It keeps:

- a map from task id to task control block (status, priority, saved stack pointer);
- a priority ready queue;
- a FIFO of finished task ids waiting to be freed or reused;
- the current and the idle task;
- the number of live tasks.

Tasks move through the statuses `TaskReady`, `TaskRunning`, `TaskBlocked`,
`TaskFinished`, `TaskInvalid` and `TaskIdle`. The `switch` routine's assembly
body is outside this model. The switch is modelled as one opaque hand-off step: the
outgoing task's `last_stack_pointer` slot receives the stack pointer of its
saved frame, and the processor resumes the frame the incoming task recorded.
For a task that has never run, that frame is the bootstrap frame that enters
its function.

**The mutex.** It is a binary semaphore, a priority queue of waiting tasks and
the protected data. `lock` either takes the free semaphore, or queues and
blocks the caller and reschedules, then tries again. Dropping the guard frees
the semaphore and wakes at most one waiter.

**Layout.**

- `tasks.dfy` (module `Tasks`): task ids, statuses, task records, and what a
  `last_stack_pointer` refers to (`Frame`). A panic is a `Panic` outcome that
  leaves the state as it was.
- `task_queue.dfy` (module `TaskQueue`): the `PriorityTaskQueue` as a
  sequence of (priority, id) entries in arrival order.
- `scheduler_spec.dfy` (module `SchedulerSpec`): the scheduler state as a
  value, with one function per operation. It also holds the invariants:
  - `Consistent`: the current task may have just blocked or finished;
  - `Valid`: `Consistent`, and the current task is executing.
  The lemmas there prove what each operation does.
- `scheduler.dfy` (module `Scheduling`): class `Scheduler`. Its methods update
  the fields in place and are proved equal to the functions above.
- `mutex_spec.dfy` (module `MutexSpec`): the mutex as a value together with the
  scheduler state, its invariant and its lemmas.
- `mutex.dfy` (module `Synch`): classes `Mutex` and `MutexGuard` and the
  documentation example as a client.

**Assumptions about the task module and the priority queue.**

- Priorities are natural numbers, larger is more urgent, and `LOW_PRIO` is 0.
- `PriorityTaskQueue::push` appends.
- `pop` takes the oldest entry of the highest priority.
- `pop_with_prio(min)` does the same, but only if that entry's priority is at
  least `min`, and returns none otherwise.
- `Task::new` makes a record without a frame.
- `create_stack_frame(func)` sets `last_stack_pointer` to a bootstrap frame for
  `func`.

## Model

| member | source | states |
|---|---|---|
| TaskQueue.Pop | src/synch/mutex.rs:162 | `pop` returns none exactly when the wait queue is empty; otherwise it removes exactly one entry, no queued entry has a higher priority, and every older entry has a lower one |
| TaskQueue.PopWithPrio | src/scheduler/scheduler.rs:262 | `pop_with_prio(prio)` returns none exactly when every queued priority is below `prio`; otherwise it removes exactly one entry of priority at least `prio`, the oldest of the highest priority |
| TaskQueue.RemovedDistinct | src/scheduler/scheduler.rs:262-265 | taking an entry off a queue without duplicate ids leaves it without duplicates, leaves the removed id no longer queued, and keeps every other id queued |
| TaskQueue.PushDistinct | src/scheduler/scheduler.rs:207 | pushing an id that is not queued keeps the queue free of duplicates and adds exactly that id |
| SchedulerSpec.FreeId | src/scheduler/scheduler.rs:71-79 | the id `get_tid` settles on is not a key of `tasks`, is at least the counter's value, and every counter value it skipped is in use |
| SchedulerSpec.AddIdleTask | src/scheduler/scheduler.rs:82-103 | after `add_idle_task` the boot code is the only task, both current and idle, with status `TaskIdle` at `LOW_PRIO`; its id comes from the counter, the finished queue is empty, and the invariant holds |
| SchedulerSpec.SpawnCorrect | src/scheduler/scheduler.rs:106-148 | `spawn` keeps the invariant and returns a task registered as ready at `prio` with a bootstrap frame for `func`, pushed at `prio`, counted once more. With finished tasks it reuses the oldest id, which is always registered, so "didn't find task" cannot happen, and the counter is left alone. Otherwise it takes the first unused id from the counter on and leaves the counter just past it. No other task changes |
| SchedulerSpec.FirstRunBootstrap | src/scheduler/scheduler.rs:116 | when the next `schedule` after `spawn` picks the new task, the processor resumes that task's bootstrap frame for `func` |
| SchedulerSpec.CurrentIsCounted | src/scheduler/scheduler.rs:156 | a running current task is counted, so the decrement in `exit` never goes below zero |
| SchedulerSpec.TerminateUnfold | src/scheduler/scheduler.rs:151-161 | before rescheduling, `exit` has marked the running task `TaskFinished` and counted it out, and the invariant that allows a finished current task holds |
| SchedulerSpec.TerminateCorrect | src/scheduler/scheduler.rs:151-181 | `exit`/`abort` panic exactly for the idle task. Otherwise the invariant holds and the processor runs another task, so "exit failed!" is unreachable. The caller is `TaskInvalid` and last in the finished queue, the count drops by one, and no blocked task is unblocked |
| SchedulerSpec.BlockCorrect | src/scheduler/scheduler.rs:188-197 | `block_current_task` succeeds exactly when the current task is running. It then marks that task blocked and returns its id; nothing else changes and the invariant holds |
| SchedulerSpec.WakeupCorrect | src/scheduler/scheduler.rs:200-209 | `wakeup_task` makes a blocked task ready and pushes it at its own priority; for any other status nothing changes; the invariant holds and other blocked tasks stay blocked |
| SchedulerSpec.GetNextTaskCorrect | src/scheduler/scheduler.rs:251-277 | `get_next_task` returns none exactly when the current task is running or idle and no queued task reaches `MinPrio` (the current priority if running, else `LOW_PRIO`). A popped task is a ready task of the highest queued priority, at least `MinPrio`, now running and off the queue. Falling back to the idle task changes nothing |
| SchedulerSpec.NextIsRunnable | src/scheduler/scheduler.rs:262-273 | `get_next_task` only picks a ready task or the idle task, never an invalid one, so a terminated task is never resumed |
| SchedulerSpec.ScheduleCorrect | src/scheduler/scheduler.rs:279-308 | `schedule` keeps the invariant and ends with the current task executing. With no next task nothing changes. Otherwise a running task is made ready and re-queued last at its priority, a finished one becomes invalid and is appended to the finished queue, and a blocked one stays off the queue. The outgoing slot receives the saved stack pointer, the chosen task (never the old one) becomes current, and the processor resumes a frame that task has |
| SchedulerSpec.CleanupCorrect | src/scheduler/scheduler.rs:311-323 | `cleanup_tasks` releases at most one task, the front of the finished queue, which is always a registered invalid task (so "unable to drop task" is unreachable); the invariant holds |
| SchedulerSpec.RescheduleAway | src/scheduler/scheduler.rs:327-335 | `reschedule` from a task that has blocked or finished switches to another task, keeps the count, and leaves that task blocked and off the ready queue, or invalid and last in the finished queue |
| SchedulerSpec.BlockThenRescheduleCorrect | src/synch/mutex.rs:115-119 | a running task that blocks and reschedules stays blocked, registered and off the ready queue, with its saved stack pointer recorded; another task runs |
| Scheduling.Scheduler.constructor | src/scheduler/scheduler.rs:58-68 | `Scheduler::new` starts with an empty ready queue and a zero count; the task map and the finished queue, `None` in the code, are empty here (see Left out) |
| Scheduling.Scheduler.GetTid | src/scheduler/scheduler.rs:71-79 | the loop that draws ids from the counter returns `FreeId` of the counter's old value and leaves the counter just past it |
| Scheduling.Scheduler.AddIdleTask | src/scheduler/scheduler.rs:82-103 | updates the fields to `SchedulerSpec.AddIdleTask` of the old state; the invariant holds |
| Scheduling.Scheduler.Spawn | src/scheduler/scheduler.rs:106-148 | updates the fields and returns the id as `SchedulerSpec.Spawn` does; the invariant is kept |
| Scheduling.Scheduler.Exit | src/scheduler/scheduler.rs:151-165 | panics, with the state unchanged, exactly when `Terminate` does; otherwise the fields become `Terminate`'s result and the invariant holds |
| Scheduling.Scheduler.Abort | src/scheduler/scheduler.rs:167-181 | the same as `Exit` |
| Scheduling.Scheduler.NumberOfTasks | src/scheduler/scheduler.rs:183-185 | returns the number of registered tasks that are ready, running or blocked |
| Scheduling.Scheduler.BlockCurrentTask | src/scheduler/scheduler.rs:188-197 | returns and performs what `Block` does, and panics with the state unchanged otherwise |
| Scheduling.Scheduler.WakeupTask | src/scheduler/scheduler.rs:200-209 | updates the fields to `Wakeup` of the old state |
| Scheduling.Scheduler.GetCurrentPriority | src/scheduler/scheduler.rs:235-237 | returns the current task's priority |
| Scheduling.Scheduler.GetNextTask | src/scheduler/scheduler.rs:251-277 | returns and performs what `SchedulerSpec.GetNextTask` does |
| Scheduling.Scheduler.Retire | src/scheduler/scheduler.rs:284-296 | the outgoing task is updated as `SchedulerSpec.Retire` says |
| Scheduling.Scheduler.Switch | src/scheduler/scheduler.rs:37-39 | the outgoing task's slot receives the saved stack pointer and the processor resumes the given frame; nothing else changes |
| Scheduling.Scheduler.Schedule | src/scheduler/scheduler.rs:279-308 | updates the fields to `SchedulerSpec.Schedule` of the old state and ends in a state where the invariant holds and the current task is executing |
| Scheduling.Scheduler.CleanupTasks | src/scheduler/scheduler.rs:311-323 | on an initialised scheduler, updates the fields to `Cleanup` of the old state |
| Scheduling.Scheduler.Reschedule | src/scheduler/scheduler.rs:327-335 | cleanup followed by schedule, as `SchedulerSpec.Reschedule`; the invariant holds afterwards |
| MutexSpec.NewMutexValid | src/synch/mutex.rs:88-94 | a fresh mutex is free, has no waiters, holds the given data and satisfies the mutex invariant |
| MutexSpec.MutexValidStable | src/synch/mutex.rs:114-120 | scheduler steps that unblock no task keep every waiter of a mutex blocked, so the mutex invariant survives them |
| MutexSpec.ObtainLockCorrect | src/synch/mutex.rs:107-122 | one pass of `obtain_lock` acquires exactly when the semaphore is free, leaving it taken by the caller with queue and scheduler unchanged. While a guard is alive no pass acquires (mutual exclusion). A running caller that finds it taken is queued, blocked and switched away from. The idle task panics. Both invariants are kept and the data is untouched |
| MutexSpec.ObtainLockWaits | src/synch/mutex.rs:114-120 | a running caller that finds the lock taken pushes itself at its own priority behind the other waiters, blocks and is switched away from; the semaphore stays taken |
| MutexSpec.ReleaseCorrect | src/synch/mutex.rs:156-169 | dropping a guard frees the semaphore and wakes at most one task: the waiter the queue serves first, which becomes ready and is pushed on the ready queue but is not handed the lock. Every other task is unchanged and both invariants are kept |
| MutexSpec.ReleaseThenObtain | src/synch/mutex.rs:108-113 | after a release, the next pass of `obtain_lock` by any task acquires and sees the data the last guard left |
| MutexSpec.DocExampleSpec | src/synch/mutex.rs:42-58 | writing 2 under one guard and locking again reads 2; with no other task involved the scheduler is unchanged |
| Synch.Mutex.constructor | src/synch/mutex.rs:88-94 | the new mutex is `NewMutex(userData)`: free, no waiters, the given data |
| Synch.Mutex.IntoInner | src/synch/mutex.rs:97-102 | returns the protected data unchanged |
| Synch.Mutex.ObtainLock | src/synch/mutex.rs:107-122 | updates the mutex and the scheduler as one pass of `MutexSpec.ObtainLock` does; the scheduler invariant holds afterwards |
| Synch.Mutex.Lock | src/synch/mutex.rs:124-133 | returns a fresh guard on this mutex exactly when the pass acquired the lock |
| Synch.MutexGuard.Deref | src/synch/mutex.rs:142-146 | reads the protected data |
| Synch.MutexGuard.DerefMut | src/synch/mutex.rs:148-151 | a store through the guard changes the protected data and nothing else |
| Synch.MutexGuard.Drop | src/synch/mutex.rs:156-169 | updates the mutex and the scheduler as `MutexSpec.Release` does |
| Synch.DocExample | src/synch/mutex.rs:42-58 | the documentation example answers 2 and leaves the scheduler as it was |

## Left out

- The body of the assembly `switch`: register save and restore, the privileged-stack (TSS) update and the lazy-FPU flag. It is one step that records the outgoing stack pointer, passed in as `saved`, and resumes the incoming frame.
- `Scheduler::new` leaves `tasks` and `finished_tasks` as `None` and the current and idle task pointers null. Every operation that unwraps or dereferences them panics when called before `add_idle_task`. The model has no `None` state: it uses an empty map and sequence and ids 0. Instead of modelling those panics, the operations that would panic require either the invariant, which only holds once `add_idle_task` has run, or the task they read. `CleanupTasks` is one of them. `get_tid` needs no such requirement, because it is only called from `add_idle_task` and `spawn`.
- Scheduling.Scheduler.NumberOfTasks: requires the invariant to relate the counter to the live tasks, so it does not cover the 0 that `number_of_tasks` returns before `add_idle_task`.
- Spinlocks, `irq_nested_disable`/`irq_nested_enable` and the atomics: each operation is one atomic step on one core.
- Scheduling.Scheduler.GetTid: `TID_COUNTER` is an unbounded integer. Wrap-around of the `usize` counter is not modelled. The loop always ends because only finitely many ids are in use.
- `Box`/`Shared` allocation and deallocation, `replace_boot_stack` and stack bottoms. A task is a map entry, and freeing it is removing the entry.
- `PriorityTaskQueue`, `Task`, `create_stack_frame` and the priority constants are not part of this model. Their behaviour is the assumption stated above.
- The `info!`/`debug!` logging, and the task id in panic messages.
- `get_current_taskid`, `get_current_stacks`, `get_kernel_stack`, `get_priority` and `Mutex::default`. These are accessors outside the modelled core.
- `ehyve/src/linux/error.rs` is not part of this model. It formats hypervisor error messages.
- Synch.Mutex.ObtainLock: models one pass of the retry loop per call. The loop's back edge runs only after `reschedule` has switched back to the caller, so a retry is a later call. Because a woken waiter is not handed the lock, a waiter can lose the re-check every time; freedom from starvation is not claimed.
- Synch.Mutex.Lock: returns no guard when the pass did not acquire, instead of looping inside one call.
- Scheduling.Scheduler.Exit: returns `Ok` after the switch instead of diverging. That the terminated task is never resumed (so "exit failed!" cannot be reached) follows from `TerminateCorrect`, which leaves it invalid, together with `NextIsRunnable`, by which `get_next_task` never picks an invalid task.
- Scheduling.Scheduler.AddIdleTask: requires an empty ready queue and a zero count. The code relies on being called once on a fresh scheduler before anything is scheduled.
- Scheduling.Scheduler.WakeupTask: requires the task to be registered, where the code dereferences a task pointer.
- Synch.MutexGuard.Drop: requires every waiter to be registered, for the same reason.
- `MutexState.holder` and `Mutex.holder` are bookkeeping of this model. They record which task's guard is alive, so that mutual exclusion can be stated.
- The mutex invariant assumes waiters are woken only by a guard's drop, which is the only caller of `wakeup_task` in the modelled code.
- Rust lifetimes and borrowing are not modelled. Nothing prevents a model client from using a guard after `Drop`.
