# queuectl job store and job state machine, in Dafny

queuectl is a persistent job queue driven from the command line. Jobs are
shell commands kept in one SQLite table, `jobs`. Workers repeatedly take the
oldest pending job, run it, and write back the result. A failed job returns
to `pending` until it has used up its `max_retries`; after that it is `dead`,
and the operator can requeue it from the dead-letter queue (DLQ).

This project models that table and every statement queuectl runs on it:

- `jobs.dfy` (module `Jobs`): a job row (`Job`), the table as a map from id
  to row (`Table`), and the invariant `Consistent`. The invariant says every
  row is in one of the four states the program writes. A `dead` row has
  `attempts > max_retries`, exit code -1 and no stdout. A `completed` row has
  exit code 0.
- `table.dfy` (module `JobTable`): each SQL statement as a function from the
  table before to the table after. These are the upsert, `update_job_state`,
  `mark_processing` and the DLQ requeue. The module also holds the read-only
  queries: the oldest pending job, the status counts and the DLQ list.
- `retry.dfy` (module `Retry`): the retry policy and one worker round (claim,
  run, report) as functions. It also holds the lemmas about repeated failures
  and the end-to-end scenarios.
- `store.dfy` (module `Store`): class `JobStore` with a `jobs` field that its
  methods update in place. The methods follow the Python functions statement
  by statement, and each one is proved equal to the matching function above.
  `FetchPendingJob` and `ListJobs` only read the table.

Clock readings are natural numbers. The program stores
`datetime.utcnow().isoformat()` strings, and `ORDER BY created_at` orders
those the same way as the times they stand for. The command's run is an
input (`Outcome`): either the process exits with a code and its output, or
`subprocess.run` raises an exception (the shell could not be started, or the
output could not be decoded). The worker counts any such exception as a
failed run, even after exit code 0.

Points where the code's behaviour is easy to misread:

- Claiming takes two separate statements: a SELECT, then an UPDATE. The model
  runs them in sequence inside one worker round.
- When two pending jobs have the same `created_at`, the code does not say
  which one comes first. The model lets either be returned. No tie-break on
  `id` is applied.
- Enqueue does no validation of its own. It fails, writing nothing, in two
  cases. A `max_retries` outside the signed 64-bit range of a SQLite INTEGER
  cannot be bound to the statement. A missing `command` violates the column's
  NOT NULL constraint, so the store aborts the write. Binding comes first, so
  the overflow is reported when both hold. An empty command is accepted.
- The status query counts a stored `failed` state. No operation ever writes
  that state, so its count is always 0.
- A failed run records exit code -1, no stdout, and the exception text as
  stderr. The process's own exit code and output are dropped.
- DLQ retry with an empty id does nothing and reports nothing. A successful
  requeue leaves `updated_at` and the three output columns unchanged.

## Model

| member | source | states |
|---|---|---|
| `JobTable.Enqueued` | queuectl/queuectl.py:30-43 | The upsert fails, writing nothing, exactly when `max_retries` is given and outside the 64-bit range (an overflow error) or the command is missing. The overflow is reported first. Otherwise the id's row is `pending` with 0 attempts, `max_retries` as given or 3, `created_at = updated_at = now` and NULL output columns. Every other row is unchanged and the invariant is kept. |
| `JobTable.EnqueueForgetsPrior` | queuectl/queuectl.py:37-41 | Upsert: the result is the same as enqueuing into the table with that id's earlier row deleted, whatever that row was. |
| `JobTable.Updated` | queuectl/queuectl.py:61-70 | Only the named row changes. Its state, output columns and `updated_at` are overwritten. `attempts` is replaced only when a value is given (COALESCE). An absent id leaves the table unchanged. |
| `JobTable.MarkedProcessing` | queuectl/queuectl.py:78-82 | Only the row's `state` (now `processing`) and `updated_at` change. No other row changes, an absent id changes nothing, and the invariant is kept. |
| `JobTable.DlqRetried` | queuectl/queuectl.py:116-128 | A requeue happens exactly when the id is non-empty and its row is `dead`. It sets `pending` and `attempts = 0` and changes nothing else. Otherwise the table is unchanged and "not found" (or, for an empty id, nothing) is reported. |
| `JobTable.EarliestExists` | queuectl/queuectl.py:75 | Every non-empty set of rows has a row created no later than all the others, so `ORDER BY created_at LIMIT 1` always has an answer. |
| `JobTable.OldestPendingExists` | queuectl/queuectl.py:72-76 | Some row is a valid answer of the pending-job query exactly when some job is pending. |
| `JobTable.Status` | queuectl/queuectl.py:52-59 | Each count is the number of rows in that state, where a row's membership is stated independently of the count. The five counts add up to the number of jobs. Under the invariant, the `failed` count is 0. The `pending` count is 0 exactly when no job is pending. |
| `JobTable.StatusPartition` | queuectl/queuectl.py:55-58 | Each row has exactly one of the five queried states, so the five counts add up to the size of the table. |
| `JobTable.DlqList` | queuectl/queuectl.py:119-121 | The DLQ list holds exactly the (id, command) pairs of the dead jobs. |
| `JobTable.DlqListSize` | queuectl/queuectl.py:119-121 | The DLQ list has as many entries as the status's `dead` count. |
| `JobTable.DlqImageSize` | queuectl/queuectl.py:120 | Listing a set of ids with their commands gives one entry per id. |
| `JobTable.DlqRetryMatchesList` | queuectl/queuectl.py:119-127 | For a non-empty id, DLQ retry succeeds exactly when the id is on the DLQ list. |
| `Retry.ErrorText` | queuectl/queuectl.py:99-106 | For a launch exception, the stored error text is that exception's own message. |
| `Retry.ErrorTextStatus` | queuectl/queuectl.py:98-99 | For a non-zero exit, the text is `Command '<command>' returned non-zero exit status N.` (for a negative code, `died with unknown signal N.`), and N is written without leading zeros and read back as a decimal number gives the exit code (or the signal number). |
| `Retry.DigitsValue` | queuectl/queuectl.py:99 | The decimal form of a number written into the error text denotes that number again. |
| `Retry.ValueDigits` | queuectl/queuectl.py:99 | Every decimal numeral without a leading zero is the decimal form of the number it denotes, so the two conversions are inverse. |
| `Retry.Decide` | queuectl/queuectl.py:95-107 | Exit code 0 gives `completed` with the output and the fetched attempts. Any failure gives attempts + 1, exit code -1, no stdout and the error text. The result is `dead` exactly when the new attempts exceed `max_retries`, and `pending` otherwise. |
| `Retry.Processed` | queuectl/queuectl.py:86-107 | After a worker round, command, `max_retries` and `created_at` are kept and `updated_at` is the report time. A success gives `completed` with unchanged attempts. A failure gives exactly one more attempt and is `dead` if and only if attempts exceed `max_retries`, else `pending`. The row always satisfies the invariant. |
| `Retry.Step` | queuectl/queuectl.py:90-107 | `mark_processing` followed by `update_job_state` with the policy's values changes the claimed row alone, into `Processed` of it. The invariant is kept. |
| `Retry.RunsFailing` | queuectl/queuectl.py:84-108 | The row after n worker rounds on it in which every run fails. A round claims the row only while it is pending, and every claim and report in these rounds uses the same clock value. Command, `max_retries` and `created_at` are kept. Attempts grow by at most n. A row that is not pending is never touched. A pending row ends pending or dead, never completed or processing. The invariant is kept. |
| `Retry.FailureCount` | queuectl/queuectl.py:100-106 | Start from a pending row with 0 attempts and `max_retries >= 0`, with every run failing. After n rounds it has n attempts. It stays pending while n <= `max_retries` and is dead at n = `max_retries` + 1. |
| `Retry.RetryBudget` | queuectl/queuectl.py:30-106 | A job with `max_retries = k` can be enqueued exactly when k fits in 64 bits. Enqueue it and let every run fail. It is pending after each of the first k failures and dead with k + 1 attempts after failure k + 1. |
| `Retry.DeadIsFinal` | queuectl/queuectl.py:75 | Once a job is dead it is never claimed again, so further failing rounds leave it as it is. |
| `Retry.ScenarioSuccess` | queuectl/queuectl.py:93-97 | A job running `exit 0` is claimed and completed in one round. The status then shows completed = 1 and pending = 0. |
| `Retry.ScenarioDeadAndRequeued` | queuectl/queuectl.py:84-128 | With `max_retries = 1`, two failures leave the job dead with 2 attempts. A DLQ retry makes it pending with 0 attempts, and a successful round then completes it. Retrying an unknown id reports not found and leaves the table unchanged. |
| `Store.JobStore.constructor` | queuectl/queuectl.py:6-25 | A new store has an empty table, which satisfies the invariant. |
| `Store.JobStore.Enqueue` | queuectl/queuectl.py:30-44 | Updates the table in place as `Enqueued` says. It fails with `Enqueued`'s error, writing nothing, exactly when `Enqueued` fails: an out-of-range `max_retries` or a missing command. It keeps the invariant. |
| `Store.JobStore.UpdateJobState` | queuectl/queuectl.py:61-70 | Updates the table in place as `Updated` says. It is the raw write and stores any state it is given, `failed` included. The invariant survives exactly when the row it leaves is consistent. |
| `Store.JobStore.MarkProcessing` | queuectl/queuectl.py:78-82 | Updates the table in place as `MarkedProcessing` says, and keeps the invariant. |
| `Store.JobStore.FetchPendingJob` | queuectl/queuectl.py:72-76 | Returns nothing exactly when no job is pending. Otherwise it returns a pending job that no other pending job predates, with that row's id, command, attempts and `max_retries`. The table is not modified. |
| `Store.JobStore.WorkerStep` | queuectl/queuectl.py:84-108 | With nothing pending, the round changes nothing. Otherwise it picks an oldest pending job, and the table afterwards is exactly `Step` applied to that job. The invariant is kept. |
| `Store.JobStore.DlqRetry` | queuectl/queuectl.py:122-128 | Produces the table and the report that `DlqRetried` gives, and keeps the invariant. |
| `Store.JobStore.ListJobs` | queuectl/queuectl.py:46-50 | Lists every job exactly once, with its own state and command, ordered by `created_at`. The table is not modified. |
| `Store.ListStep` | queuectl/queuectl.py:49 | Adding the earliest remaining job keeps the listing in creation order and complete for the jobs taken so far. |

## Left out

- Command-line parsing, reading the job descriptor from a JSON file, and all console output (`main`, `print`). These are I/O.
- Opening the SQLite database, connections, transactions, and storage errors (`init_db`, `connect`). The table is an abstract map, and a fresh store stands for a newly created empty table.
- Running the command through the shell. Its result is an input `Outcome`.
- Starting several worker processes, and any interleaving between them or with a command-line call. This includes the race between the separate fetch and mark statements. It also includes an enqueue that replaces a job while a worker runs it: the worker's later result write sets the state and attempts from the old job. On success or a final failure the new job never runs. On a retryable failure it runs, starting from the old job's attempts + 1 instead of 0. The model is sequential.
- The endless `while True` loop and its `time.sleep` calls. One round is modelled, and an idle round changes nothing.
- The wall clock. Timestamps are natural numbers supplied by the caller.
- The unused `next_run` column.
- A descriptor without an `id`. The id is always a string in the model, while SQLite would accept a NULL key.
- JobTable.Enqueued: a descriptor whose `id`, `command` or `max_retries` is a JSON value of another type is not modelled. A list or an object cannot be bound, so the store raises and writes nothing. A null `max_retries` is stored as the column default 3, because REPLACE puts the default in place of a NULL in a NOT NULL column that has one; that is the model's absent `max_retries`. A number or boolean `command` is stored as text. The model has a string id, an optional string command and an optional integer `max_retries`.
- A storage error raised inside the worker's `try` block, which the code would count as a failed run. Storage errors are not modelled.
- Retry.ErrorText, Retry.ErrorTextStatus: for a process killed by a signal whose number Python's `signal.Signals` knows, the message names that signal (`died with <Signals.SIGKILL: 9>.`). The model writes "died with unknown signal N." for every negative code, which is Python's exact text only for numbers it does not know. Positive exit codes and launch exceptions are given their exact text.
- Retry.Decide: the new `attempts` is not checked against the 64-bit range. It can only overflow after 2^63 failed runs of a job whose `max_retries` is the largest 64-bit integer.
- Retry.RunsFailing: every claim and report in the repeated rounds uses one clock value. Timestamps do not affect the retry accounting, and `Retry.Step` states each single round with its own times.
- Retry.FailureCount: requires `max_retries >= 0`. With a negative value the first failure is already fatal, which `Retry.Processed` states for every row.
