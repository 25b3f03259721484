/** The lifecycles of investigations and of their cycles. */
module ResearchStatus {

  datatype TaskStatus = TaskPlanned | TaskActive | TaskPaused | TaskBlocked | TaskConcluded | TaskAbandoned | TaskArchived

  datatype CycleStatus = Planned | Active | Completed | Blocked | Failed

  predicate AllowedStatus(a: TaskStatus, b: TaskStatus) {
    match a
    case TaskPlanned => b in {TaskActive, TaskBlocked, TaskAbandoned}
    case TaskActive => b in {TaskPaused, TaskBlocked, TaskConcluded, TaskAbandoned}
    case TaskPaused => b in {TaskActive, TaskBlocked, TaskConcluded, TaskAbandoned}
    case TaskBlocked => b in {TaskActive, TaskPaused, TaskConcluded, TaskAbandoned}
    case TaskConcluded => b == TaskArchived
    case TaskAbandoned => b == TaskArchived
    case TaskArchived => false
  }
}
