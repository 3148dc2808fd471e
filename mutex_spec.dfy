/** The blocking mutex of src/synch/mutex.rs as a value: its binary semaphore,
    its priority queue of waiting tasks and the protected data, together with the
    scheduler state that `lock` and the guard's `drop` act on. */
module MutexSpec {
  import opened Tasks
  import opened TaskQueue
  import opened SchedulerSpec

  /** `value` is the semaphore (true: free), `queue` the tasks waiting for it and
      `data` the protected data. `holder` is bookkeeping of this model, not a
      field of the mutex: the task whose guard is alive, if any. */
  datatype MutexState<T> = MutexState(value: bool, queue: Queue, data: T, holder: Option<TaskId>)

  /** What one pass of `obtain_lock`'s loop does: take the free lock, enqueue the
      caller and switch away, or panic because the caller cannot block. */
  datatype Pass = Acquired | Waiting | Failed(message: string)

  /** `Mutex::new`. */
  function NewMutex<T>(userData: T): MutexState<T>
  {
    MutexState(true, [], userData, None)
  }

  /** `into_inner`: the protected data, without locking. */
  function IntoInner<T>(m: MutexState<T>): T
  {
    m.data
  }

  /** Every queued waiter is a registered task (the queue holds pointers to live
      task control blocks). */
  predicate Registered(q: Queue, tasks: map<TaskId, Task>)
  {
    forall e :: e in q ==> e.tid in tasks
  }

  /** The mutex invariant: the lock is taken exactly when a guard exists, and
      the waiters are distinct blocked tasks. */
  ghost predicate MutexValid<T>(m: MutexState<T>, s: State)
  {
    && (m.value <==> m.holder.None?)
    && DistinctTids(m.queue)
    && (forall e :: e in m.queue ==> e.tid in s.tasks && s.tasks[e.tid].status == TaskBlocked)
  }

  /** One pass of `obtain_lock` by the current task; `saved` is the stack pointer
      `switch` records when the caller is suspended. */
  function ObtainLock<T>(m: MutexState<T>, s: State, saved: nat): (Pass, MutexState<T>, State)
    requires Valid(s)
  {
    if m.value then
      (Acquired, m.(value := false, holder := Some(s.currentTask)), s)
    else
      var prio := s.tasks[s.currentTask].prio;
      match Block(s)
      case Panic(msg) => (Failed(msg), m, s)
      case Ok(b) =>
        BlockCorrect(s);
        (Waiting, m.(queue := Push(m.queue, prio, b.1)), Reschedule(b.0, saved))
  }

  /** `MutexGuard::drop`: free the lock and wake the first waiter, if any. */
  function Release<T>(m: MutexState<T>, s: State): (MutexState<T>, State)
    requires Registered(m.queue, s.tasks)
  {
    var m1 := m.(value := true, holder := None);
    match Pop(m.queue)
    case None => (m1, s)
    case Some(p) =>
      assert p.entry in m.queue;
      (m1.(queue := p.rest), Wakeup(s, p.entry.tid))
  }

  /** A fresh mutex is free, has no waiters, and keeps its invariant in any state. */
  lemma NewMutexValid<T>(userData: T, s: State)
    ensures var m := NewMutex(userData);
      MutexValid(m, s) && m.value && m.queue == [] && IntoInner(m) == userData
  {
  }

  /** Scheduler steps that keep every blocked task blocked keep a mutex's invariant. */
  lemma MutexValidStable<T>(m: MutexState<T>, s: State, s': State)
    requires MutexValid(m, s) && KeepsBlocked(s, s')
    ensures MutexValid(m, s')
  {
  }

  /** One pass of `obtain_lock`: the lock is taken exactly when it was free; a
      running caller that finds it taken is queued, blocked and switched away
      from; the idle task panics. Mutual exclusion: while a guard is alive, no
      pass acquires and the holder stays. */
  lemma ObtainLockCorrect<T>(m: MutexState<T>, s: State, saved: nat)
    requires Valid(s) && MutexValid(m, s)
    ensures var (pass, m', s') := ObtainLock(m, s, saved);
      var cur := s.currentTask;
      && Valid(s') && MutexValid(m', s') && KeepsBlocked(s, s')
      && m'.data == m.data && !m'.value
      && (pass == Acquired <==> m.value)
      && (pass == Acquired ==> m'.holder == Some(cur) && m'.queue == m.queue && s' == s)
      && (m.holder.Some? ==> pass != Acquired && m'.holder == m.holder)
      && (pass == Waiting <==> !m.value && s.tasks[cur].status == TaskRunning)
      && (pass == Waiting ==>
            && m'.queue == m.queue + [Entry(s.tasks[cur].prio, cur)]
            && s'.currentTask != cur
            && cur in s'.tasks && s'.tasks[cur].status == TaskBlocked
            && !Queued(s'.readyQueue, cur))
      && (pass.Failed? ==> s.tasks[cur].status == TaskIdle && m' == m && s' == s)
  {
    if !m.value {
      BlockCorrect(s);
      if s.tasks[s.currentTask].status == TaskRunning {
        ObtainLockWaits(m, s, saved);
      }
    }
  }

  /** A running task that finds the lock taken queues itself behind the other
      waiters, blocks, and is switched away from. */
  lemma ObtainLockWaits<T>(m: MutexState<T>, s: State, saved: nat)
    requires Valid(s) && MutexValid(m, s) && !m.value
    requires s.tasks[s.currentTask].status == TaskRunning
    ensures var (pass, m', s') := ObtainLock(m, s, saved);
      var cur := s.currentTask;
      && pass == Waiting
      && Valid(s') && MutexValid(m', s') && KeepsBlocked(s, s')
      && m' == m.(queue := m.queue + [Entry(s.tasks[cur].prio, cur)])
      && s'.currentTask != cur
      && cur in s'.tasks && s'.tasks[cur].status == TaskBlocked
      && !Queued(s'.readyQueue, cur)
  {
    var cur := s.currentTask;
    ObtainLockUnfold(m, s, saved);
    BlockThenRescheduleCorrect(s, saved);
    EnqueueWaiter(m.queue, s, Reschedule(Block(s).value.0, saved), cur, s.tasks[cur].prio);
  }

  /** The waiting pass of `obtain_lock`, written out. */
  lemma ObtainLockUnfold<T>(m: MutexState<T>, s: State, saved: nat)
    requires Valid(s) && !m.value
    requires s.tasks[s.currentTask].status == TaskRunning
    ensures Block(s).Ok? && Consistent(Block(s).value.0)
    ensures ObtainLock(m, s, saved) ==
      (Waiting, m.(queue := Push(m.queue, s.tasks[s.currentTask].prio, s.currentTask)),
       Reschedule(Block(s).value.0, saved))
  {
    BlockCorrect(s);
  }

  /** A task that was not waiting and is blocked afterwards can join the waiters
      of a mutex whose waiters all stay blocked. */
  lemma EnqueueWaiter(q: Queue, s: State, s': State, cur: TaskId, prio: Priority)
    requires DistinctTids(q)
    requires forall e :: e in q ==> e.tid in s.tasks && s.tasks[e.tid].status == TaskBlocked
    requires cur in s.tasks && s.tasks[cur].status != TaskBlocked
    requires KeepsBlocked(s, s') && cur in s'.tasks && s'.tasks[cur].status == TaskBlocked
    ensures DistinctTids(Push(q, prio, cur))
    ensures forall e :: e in Push(q, prio, cur) ==> e.tid in s'.tasks && s'.tasks[e.tid].status == TaskBlocked
  {
    forall e | e in q
      ensures e.tid != cur
    {
    }
    assert !Queued(q, cur);
    PushDistinct(q, prio, cur);
    forall e | e in Push(q, prio, cur)
      ensures e.tid in s'.tasks && s'.tasks[e.tid].status == TaskBlocked
    {
      assert e in q || e == Entry(prio, cur);
    }
  }

  /** Dropping a guard frees the lock and wakes at most one task: the waiter the
      queue serves first, which becomes ready but is not handed the lock. */
  lemma ReleaseCorrect<T>(m: MutexState<T>, s: State)
    requires Valid(s) && MutexValid(m, s)
    ensures Registered(m.queue, s.tasks)
    ensures var (m', s') := Release(m, s);
      && Valid(s') && MutexValid(m', s')
      && m'.value && m'.holder.None? && m'.data == m.data
      && s'.currentTask == s.currentTask && s'.tasks.Keys == s.tasks.Keys
      && (m.queue == [] ==> m'.queue == [] && s' == s)
      && (m.queue != [] ==>
            var p := Pop(m.queue).value;
            var w := p.entry.tid;
            && m'.queue == p.rest && ServedFirst(m.queue, p.at)
            && !Queued(m'.queue, w)
            && s'.tasks[w] == s.tasks[w].(status := TaskReady)
            && s'.readyQueue == s.readyQueue + [Entry(s.tasks[w].prio, w)]
            && (forall t :: t in s.tasks && t != w ==> s'.tasks[t] == s.tasks[t]))
  {
    if m.queue != [] {
      var p := Pop(m.queue).value;
      var w := p.entry.tid;
      assert p.entry in m.queue;
      WakeupCorrect(s, w);
      RemovedDistinct(m.queue, p);
      RemovedContents(m.queue, p);
      var (m', s') := Release(m, s);
      forall e | e in m'.queue
        ensures e.tid in s'.tasks && s'.tasks[e.tid].status == TaskBlocked
      {
        assert e in m.queue;
        assert e.tid != w by { assert Queued(m'.queue, e.tid); }
      }
    }
  }

  /** A released lock is taken by the next pass of `obtain_lock`, whichever task
      runs it, and that pass sees the data the last guard left. */
  lemma ReleaseThenObtain<T>(m: MutexState<T>, s: State, s2: State, saved: nat)
    requires Valid(s) && MutexValid(m, s) && Valid(s2)
    ensures Registered(m.queue, s.tasks)
    ensures var m' := Release(m, s).0;
      var (pass, m2, _) := ObtainLock(m', s2, saved);
      pass == Acquired && m2.holder == Some(s2.currentTask) && m2.data == m.data
  {
    ReleaseCorrect(m, s);
  }

  /** The example of `Mutex`'s documentation: store 2 under one guard, read it
      under the next. With no other task involved, the scheduler is untouched. */
  lemma DocExampleSpec(s: State, saved: nat)
    requires Valid(s)
    ensures var (p1, m1, s1) := ObtainLock(NewMutex(0), s, saved);
      p1 == Acquired && s1 == s && m1.queue == [] &&
      var (m2, s2) := Release(m1.(data := 2), s1);
      var (p3, m3, s3) := ObtainLock(m2, s2, saved);
      p3 == Acquired && m3.data == 2 && s3 == s
  {
  }
}
