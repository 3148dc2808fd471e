/** `Mutex` and `MutexGuard` of src/synch/mutex.rs as classes whose methods
    update the mutex and the scheduler in place; each is proved to do what
    MutexSpec says, so the lemmas there apply to it. */
module Synch {
  import opened Tasks
  import opened TaskQueue
  import opened SchedulerSpec
  import opened MutexSpec
  import opened Scheduling

  class Mutex<T> {
    /** In principle a binary semaphore: true while the lock is free. */
    var value: bool
    /** Priority queue of waiting tasks. */
    var queue: Queue
    /** The protected data. */
    var data: T
    /** The task whose guard is alive, if any (bookkeeping of this model). */
    ghost var holder: Option<TaskId>

    ghost function Model(): MutexState<T>
      reads this
    {
      MutexState(value, queue, data, holder)
    }

    /** `Mutex::new`. */
    constructor (userData: T)
      ensures Model() == NewMutex(userData)
    {
      value := true;
      queue := [];
      data := userData;
      holder := None;
    }

    /** `into_inner`. */
    method IntoInner() returns (r: T)
      ensures r == MutexSpec.IntoInner(Model())
    {
      r := data;
    }

    /** One pass of `obtain_lock`'s loop by the current task of `s`. The loop
        goes round again only after `reschedule` has switched back to the caller,
        that is, in a later call. */
    method ObtainLock(s: Scheduler, saved: nat) returns (pass: Pass)
      requires Valid(s.Model())
      modifies this, s
      ensures (pass, Model(), s.Model()) == MutexSpec.ObtainLock(old(Model()), old(s.Model()), saved)
      ensures Valid(s.Model())
    {
      ghost var s0 := s.Model();
      if value {
        value := false;
        holder := Some(s.currentTask);
        return Acquired;
      }
      var prio := s.GetCurrentPriority();
      var blocked := s.BlockCurrentTask();
      match blocked {
        case Panic(msg) =>
          return Failed(msg);
        case Ok(tid) =>
          BlockCorrect(s0);
          queue := Push(queue, prio, tid);
          s.Reschedule(saved);
          pass := Waiting;
      }
    }

    /** `lock`: a guard exactly when the pass acquired the lock. */
    method Lock(s: Scheduler, saved: nat) returns (pass: Pass, guard: MutexGuard?<T>)
      requires Valid(s.Model())
      modifies this, s
      ensures (pass, Model(), s.Model()) == MutexSpec.ObtainLock(old(Model()), old(s.Model()), saved)
      ensures Valid(s.Model())
      ensures guard != null <==> pass == Acquired
      ensures guard != null ==> fresh(guard) && guard.mutex == this
    {
      pass := ObtainLock(s, saved);
      if pass == Acquired {
        guard := new MutexGuard(this);
      } else {
        guard := null;
      }
    }
  }

  /** Access to the protected data; dropping it releases the lock. */
  class MutexGuard<T> {
    const mutex: Mutex<T>

    constructor (m: Mutex<T>)
      ensures mutex == m
    {
      mutex := m;
    }

    /** `deref`. */
    method Deref() returns (x: T)
      ensures x == mutex.data
    {
      x := mutex.data;
    }

    /** `deref_mut`, followed by a store through the reference. */
    method DerefMut(x: T)
      modifies mutex
      ensures mutex.Model() == old(mutex.Model()).(data := x)
    {
      mutex.data := x;
    }

    /** `drop`: free the lock and wake the first waiter, if any. */
    method Drop(s: Scheduler)
      requires Registered(mutex.queue, s.tasks)
      modifies mutex, s
      ensures (mutex.Model(), s.Model()) == Release(old(mutex.Model()), old(s.Model()))
    {
      mutex.value := true;
      mutex.holder := None;
      var popped := Pop(mutex.queue);
      match popped {
        case Some(p) =>
          assert p.entry in mutex.queue;
          mutex.queue := p.rest;
          s.WakeupTask(p.entry.tid);
          return;
        case None =>
      }
    }
  }

  /** The example of `Mutex`'s documentation, run by the current task of `s`:
      store 2 under one guard, read it back under the next. */
  method DocExample(s: Scheduler, saved: nat) returns (answer: int)
    requires Valid(s.Model())
    modifies s
    ensures answer == 2 && s.Model() == old(s.Model())
  {
    DocExampleSpec(s.Model(), saved);
    var mutex := new Mutex(0);
    var pass, data := mutex.Lock(s, saved);
    data.DerefMut(2);
    data.Drop(s);
    var pass2, data2 := mutex.Lock(s, saved);
    answer := data2.Deref();
  }
}
