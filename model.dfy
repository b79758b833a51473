/**
  The records the backlog parsers and the project scanner produce: tasks,
  epics, progress metrics and the timing fields joined onto tasks.
*/
module Model {
  import opened Wrappers

  /** The three checkbox kinds: `[x]`/`[X]`, `[!]` and `[ ]`. */
  datatype TaskStatus = Done | Blocked | Pending

  /**
    `{started_at, completed_at, elapsed_hours}` for one task key. Timestamps
    are the history's author-date strings, kept opaque; `None` is JavaScript's
    `null` or an absent field.
  */
  datatype Timing = Timing(startedAt: Option<string>, completedAt: Option<string>, elapsedHours: Option<nat>)

  /** A checkbox line of the backlog. `timing` is `None` until the scanner joins history onto it. */
  datatype Task = Task(status: TaskStatus, text: string, timing: Option<Timing>)

  /** A `# ` heading of the backlog, other than the document title, and the tasks under it. */
  datatype Epic = Epic(title: string, tasks: seq<Task>)

  /** Document-wide checkbox counters. */
  datatype Metrics = Metrics(done: nat, left: nat, progressPercent: nat)

  /** What `parseBacklog` returns: the counters and the `current_task` text. */
  datatype Backlog = Backlog(metrics: Metrics, currentTask: string)

}
