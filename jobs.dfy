/** The rows of the `jobs` table and the invariant every operation keeps. */
module Jobs {

  datatype Option<T> = None | Some(value: T)

  datatype Result<T, E> = Ok(value: T) | Err(error: E)

  /** The `id TEXT PRIMARY KEY` column: a caller-supplied string. */
  type JobId = string

  /** The values of the `state` column. `Failed` is one of the five labels the
      status query counts; no operation ever writes it. */
  datatype State = Pending | Processing | Completed | Failed | Dead

  /** One row of the `jobs` table (the unused `next_run` column is omitted).
      Timestamps are clock readings; NULL output columns are `None`. */
  datatype Job = Job(
    command: string,
    state: State,
    attempts: nat,
    maxRetries: int,
    createdAt: nat,
    updatedAt: nat,
    lastExitCode: Option<int>,
    lastStdout: Option<string>,
    lastStderr: Option<string>)

  /** The whole table, keyed by the primary key. */
  type Table = map<JobId, Job>

  /** `max_retries` when the job descriptor does not give one. */
  const DefaultMaxRetries: int := 3

  /** The range of a SQLite INTEGER, a signed 64-bit value. */
  const MinInteger: int := -0x8000_0000_0000_0000
  const MaxInteger: int := 0x7FFF_FFFF_FFFF_FFFF

  /** The Python integers that can be bound to a statement parameter; binding
      any other raises an overflow error before the statement runs. */
  predicate FitsInteger(x: int)
  {
    MinInteger <= x <= MaxInteger
  }

  /** What the operations guarantee of every row they leave behind: only the
      four written states occur, a dead job has used up its retries on a
      failed run, and a completed job ran with exit code 0. */
  predicate JobConsistent(j: Job)
  {
    && j.state != Failed
    && (j.state == Dead ==> j.attempts > j.maxRetries && j.lastExitCode == Some(-1) && j.lastStdout == None)
    && (j.state == Completed ==> j.lastExitCode == Some(0))
  }

  predicate Consistent(t: Table)
  {
    forall id :: id in t ==> JobConsistent(t[id])
  }
}
