/** Task records as the scheduler sees them.
    The task module itself (`Task::new`, `create_stack_frame`, the priority
    constants) is not part of this model; the definitions below are the
    assumptions the scheduler relies on. */
module Tasks {

  type TaskId = nat

  /** A task priority; a larger number is more urgent. */
  type Priority = nat

  /** The address of a task's entry function (`extern fn()`). */
  type EntryPoint = nat

  /** The lowest priority; the idle task runs at it. Its numeric value is assumed. */
  const LOW_PRIO: Priority := 0

  datatype TaskStatus =
    | TaskInvalid
    | TaskReady
    | TaskRunning
    | TaskBlocked
    | TaskFinished
    | TaskIdle

  /** What a task's `last_stack_pointer` refers to: nothing yet (the value 0),
      a bootstrap frame built by `create_stack_frame` that starts the task at its
      entry point, or a frame saved by `switch` when the task was suspended. */
  datatype Frame =
    | NoFrame
    | Bootstrap(entry: EntryPoint)
    | Suspended(sp: nat)

  /** A task control block: the fields of `Task` the scheduler reads and writes. */
  datatype Task = Task(id: TaskId, status: TaskStatus, prio: Priority, lastStackPointer: Frame)

  /** `Task::new`: a control block without a stack frame. */
  function NewTask(id: TaskId, status: TaskStatus, prio: Priority): Task
  {
    Task(id, status, prio, NoFrame)
  }

  /** `create_stack_frame`: lay out a frame that enters `func` when first switched to. */
  function CreateStackFrame(t: Task, func: EntryPoint): Task
  {
    t.(lastStackPointer := Bootstrap(func))
  }

  datatype Option<T> = None | Some(value: T)

  /** The result of an operation that may `panic!`; a panic leaves the state as it was. */
  datatype Outcome<T> = Ok(value: T) | Panic(message: string)
}
