/** `Scheduler` of src/scheduler/scheduler.rs: a class whose methods update its
    fields in place. Each method is proved to leave the fields as the matching
    function of SchedulerSpec says, so the lemmas there apply to it. */
module Scheduling {
  import opened Tasks
  import opened TaskQueue
  import opened SchedulerSpec

  class Scheduler {
    /** Map between task id and task control block. */
    var tasks: map<TaskId, Task>
    /** Queue of tasks that are ready. */
    var readyQueue: Queue
    /** Queue of finished tasks waiting to be released or reused. */
    var finishedTasks: seq<TaskId>
    var currentTask: TaskId
    var idleTask: TaskId
    /** Number of tasks managed by the scheduler (an `AtomicUsize` read and
        written under interrupts disabled). */
    var noTasks: nat
    /** `TID_COUNTER`, the source of task ids. */
    var tidCounter: nat
    /** The frame the processor runs: the one the most recent `switch` resumed. */
    var cpu: Frame

    function Model(): State
      reads this
    {
      State(tasks, readyQueue, finishedTasks, currentTask, idleTask, noTasks, tidCounter, cpu)
    }

    /** `Scheduler::new`: no tasks yet; the current and idle task are placeholders
        until `add_idle_task`. */
    constructor ()
      ensures Model() == New()
    {
      tasks := map[];
      readyQueue := [];
      finishedTasks := [];
      currentTask := 0;
      idleTask := 0;
      noTasks := 0;
      tidCounter := 0;
      cpu := NoFrame;
    }

    /** `get_tid`: draw ids from the counter until one is not in use. */
    method GetTid() returns (id: TaskId)
      modifies this`tidCounter
      ensures id == FreeId(tasks, old(tidCounter)) && tidCounter == id + 1
    {
      ghost var bound := KeyBound(tasks.Keys);
      id := tidCounter;
      tidCounter := tidCounter + 1;
      while id in tasks
        invariant old(tidCounter) <= id && tidCounter == id + 1
        invariant FreeId(tasks, id) == FreeId(tasks, old(tidCounter))
        decreases bound - id
      {
        id := tidCounter;
        tidCounter := tidCounter + 1;
      }
    }

    /** `add_idle_task`: the code running at boot becomes the idle task. */
    method AddIdleTask()
      requires readyQueue == [] && noTasks == 0
      modifies this
      ensures Model() == SchedulerSpec.AddIdleTask(old(Model()))
      ensures Valid(Model())
    {
      finishedTasks := [];
      tasks := map[];
      var tid := GetTid();
      var idle := NewTask(tid, TaskIdle, LOW_PRIO);
      idleTask := tid;
      currentTask := idleTask;
      tasks := tasks[tid := idle];
    }

    /** `spawn`: see SchedulerSpec.SpawnCorrect for what the new state satisfies. */
    method Spawn(func: EntryPoint, prio: Priority) returns (tid: TaskId)
      requires Consistent(Model())
      modifies this
      ensures (Model(), tid) == SchedulerSpec.Spawn(old(Model()), func, prio)
      ensures Consistent(Model()) && (Valid(old(Model())) ==> Valid(Model()))
    {
      ghost var s0 := Model();
      if finishedTasks == [] {
        tid := GetTid();
        var task := NewTask(tid, TaskReady, prio);
        task := CreateStackFrame(task, func);
        readyQueue := Push(readyQueue, prio, tid);
        tasks := tasks[tid := task];
      } else {
        tid := finishedTasks[0];
        finishedTasks := finishedTasks[1..];
        // A reused id is always registered, so the "didn't find task" panic cannot occur.
        assert tid in s0.finishedTasks;
        var task := tasks[tid].(status := TaskReady, prio := prio, lastStackPointer := NoFrame);
        task := CreateStackFrame(task, func);
        tasks := tasks[tid := task];
        readyQueue := Push(readyQueue, prio, tid);
      }
      noTasks := noTasks + 1;
      assert (Model(), tid) == SchedulerSpec.Spawn(s0, func, prio);
      SpawnCorrect(s0, func, prio);
    }

    /** `exit`: terminate the current task and switch to another; `saved` is the
        stack pointer `switch` records for the terminated task. */
    method Exit(saved: nat) returns (r: Outcome<()>)
      requires Valid(Model())
      modifies this
      ensures r.Panic? <==> Terminate(old(Model()), saved).Panic?
      ensures r.Panic? ==> r.message == "unable to terminate idle task" && Model() == old(Model())
      ensures r.Ok? ==> Model() == Terminate(old(Model()), saved).value && Valid(Model())
    {
      ghost var s0 := Model();
      if tasks[currentTask].status != TaskIdle {
        CurrentIsCounted(s0);
        MarkFinishedConsistent(s0);
        tasks := tasks[currentTask := tasks[currentTask].(status := TaskFinished)];
        noTasks := noTasks - 1;
      } else {
        return Panic("unable to terminate idle task");
      }
      assert Model() == MarkFinished(s0);
      Reschedule(saved);
      r := Ok(());
    }

    /** `abort`: the same as `exit`. */
    method Abort(saved: nat) returns (r: Outcome<()>)
      requires Valid(Model())
      modifies this
      ensures r.Panic? <==> Terminate(old(Model()), saved).Panic?
      ensures r.Panic? ==> r.message == "unable to terminate idle task" && Model() == old(Model())
      ensures r.Ok? ==> Model() == Terminate(old(Model()), saved).value && Valid(Model())
    {
      r := Exit(saved);
    }

    /** `number_of_tasks`: the tasks spawned and not yet terminated. */
    method NumberOfTasks() returns (n: nat)
      requires Consistent(Model())
      ensures n == |LiveIds(tasks)|
    {
      n := noTasks;
    }

    /** `block_current_task`. */
    method BlockCurrentTask() returns (r: Outcome<TaskId>)
      requires Consistent(Model())
      modifies this
      ensures Block(old(Model())).Ok? ==>
        r == Ok(Block(old(Model())).value.1) && Model() == Block(old(Model())).value.0
      ensures Block(old(Model())).Panic? ==>
        r == Panic("unable to block task") && Model() == old(Model())
    {
      if tasks[currentTask].status == TaskRunning {
        tasks := tasks[currentTask := tasks[currentTask].(status := TaskBlocked)];
        return Ok(currentTask);
      } else {
        return Panic("unable to block task");
      }
    }

    /** `wakeup_task`. */
    method WakeupTask(tid: TaskId)
      requires tid in tasks
      modifies this
      ensures Model() == Wakeup(old(Model()), tid)
    {
      if tasks[tid].status == TaskBlocked {
        var prio := tasks[tid].prio;
        tasks := tasks[tid := tasks[tid].(status := TaskReady)];
        readyQueue := Push(readyQueue, prio, tid);
      }
    }

    /** `get_current_priority`. */
    method GetCurrentPriority() returns (prio: Priority)
      requires currentTask in tasks
      ensures prio == tasks[currentTask].prio
    {
      prio := tasks[currentTask].prio;
    }

    /** `get_next_task`. */
    method GetNextTask() returns (next: Option<TaskId>)
      requires Consistent(Model())
      modifies this
      ensures (next, Model()) == SchedulerSpec.GetNextTask(old(Model()))
    {
      var prio := LOW_PRIO;
      if tasks[currentTask].status == TaskRunning {
        prio := tasks[currentTask].prio;
      }
      var status := tasks[currentTask].status;
      var popped := PopWithPrio(readyQueue, prio);
      if popped.Some? {
        var tid := popped.value.entry.tid;
        assert popped.value.entry in readyQueue;
        readyQueue := popped.value.rest;
        tasks := tasks[tid := tasks[tid].(status := TaskRunning)];
        return Some(tid);
      }
      if status != TaskRunning && status != TaskIdle {
        next := Some(idleTask);
      } else {
        next := None;
      }
    }

    /** `switch(old_stack, new_stack)`, the hand-off to the next task: the outgoing
        task's `last_stack_pointer` (the slot of task `slot`) receives `saved`, and
        the processor resumes `resume`. Saving and restoring registers, the kernel
        stack record and the lazy-FPU flag are not part of this model. */
    method Switch(slot: TaskId, resume: Frame, saved: nat)
      requires slot in tasks
      modifies this`tasks, this`cpu
      ensures tasks == old(tasks)[slot := old(tasks)[slot].(lastStackPointer := Suspended(saved))]
      ensures cpu == resume
    {
      tasks := tasks[slot := tasks[slot].(lastStackPointer := Suspended(saved))];
      cpu := resume;
    }

    /** The part of `schedule` that deals with the task it switches away from:
        a running task is made ready and queued again, a finished one is
        invalidated and queued for release. */
    method Retire()
      requires currentTask in tasks
      modifies this
      ensures Model() == SchedulerSpec.Retire(old(Model()))
    {
      var id := currentTask;
      var cur := tasks[id];
      if cur.status == TaskRunning {
        tasks := tasks[id := cur.(status := TaskReady)];
        readyQueue := Push(readyQueue, cur.prio, id);
      } else if cur.status == TaskFinished {
        tasks := tasks[id := cur.(status := TaskInvalid)];
        finishedTasks := finishedTasks + [id];
      }
    }

    /** `schedule`: see SchedulerSpec.ScheduleCorrect for what it guarantees. */
    method Schedule(saved: nat)
      requires Consistent(Model())
      modifies this
      ensures Model() == SchedulerSpec.Schedule(old(Model()), saved)
      ensures Valid(Model())
    {
      ghost var s0 := Model();
      ScheduleUnfold(s0, saved);
      var next := GetNextTask();
      ghost var s1 := Model();
      assert (next, s1) == SchedulerSpec.GetNextTask(s0);
      match next {
        case Some(nextTask) =>
          var oldId := currentTask;
          Retire();
          ghost var r := Model();
          var nextStackPointer := tasks[nextTask].lastStackPointer;
          currentTask := nextTask;
          Switch(oldId, nextStackPointer, saved);
          assert Model() == SchedulerSpec.Switch(r, nextTask, saved);
        case None =>
      }
      ScheduleValid(s0, saved);
    }

    /** `cleanup_tasks`: release the oldest finished task, if any. */
    method CleanupTasks()
      requires Consistent(Model())
      modifies this
      ensures Model() == Cleanup(old(Model()))
    {
      if finishedTasks != [] {
        var id := finishedTasks[0];
        finishedTasks := finishedTasks[1..];
        // removing the entry frees the control block; an id that is not
        // registered would only be logged
        tasks := tasks - {id};
      }
    }

    /** `reschedule`: clean up, then schedule (with interrupts disabled). */
    method Reschedule(saved: nat)
      requires Consistent(Model())
      modifies this
      ensures Model() == SchedulerSpec.Reschedule(old(Model()), saved)
      ensures Valid(Model())
    {
      CleanupCorrect(Model());
      CleanupTasks();
      Schedule(saved);
    }
  }
}
