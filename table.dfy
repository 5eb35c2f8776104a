/** The statements queuectl runs against the `jobs` table, as functions from
    the table before to the table after, and the read-only queries. */
module JobTable {
  import opened Jobs

  // ---------------------------------------------------------------------
  // enqueue_job: INSERT OR REPLACE
  // ---------------------------------------------------------------------

  /** Why the upsert writes nothing. `IntegerOverflow`: the given
      `max_retries` is outside the range of a SQLite INTEGER, so binding it
      fails before the statement runs. `MissingCommand`: the descriptor has no
      `command`; the column is NOT NULL without a default, so the REPLACE
      conflict policy aborts. Parameters are bound before the statement runs,
      so an overflow is reported even when the command is missing too. */
  datatype EnqueueError = MissingCommand | IntegerOverflow

  /** The row the upsert writes; columns the statement does not list take their
      NULL default, since REPLACE deletes the old row first. */
  function FreshJob(command: string, maxRetries: int, now: nat): Job
  {
    Job(command, Pending, 0, maxRetries, now, now, None, None, None)
  }

  /** `enqueue_job`. `maxRetries` is `None` when the descriptor's
      `max_retries` is absent or null: both store the default 3. */
  function Enqueued(t: Table, id: JobId, command: Option<string>, maxRetries: Option<int>, now: nat)
    : (r: Result<Table, EnqueueError>)
    ensures r.Err? <==> command.None? || (maxRetries.Some? && !FitsInteger(maxRetries.value))
    ensures r.Err? ==>
      r.error == (if maxRetries.Some? && !FitsInteger(maxRetries.value) then IntegerOverflow else MissingCommand)
    ensures r.Ok? ==> r.value.Keys == t.Keys + {id}
    ensures r.Ok? ==>
      && r.value[id].command == command.value
      && r.value[id].state == Pending
      && r.value[id].attempts == 0
      && r.value[id].maxRetries == (if maxRetries.Some? then maxRetries.value else DefaultMaxRetries)
      && r.value[id].createdAt == now
      && r.value[id].updatedAt == now
      && r.value[id].lastExitCode == None
      && r.value[id].lastStdout == None
      && r.value[id].lastStderr == None
    ensures r.Ok? ==> forall k :: k in t && k != id ==> r.value[k] == t[k]
    ensures r.Ok? && Consistent(t) ==> Consistent(r.value)
  {
    if maxRetries.Some? && !FitsInteger(maxRetries.value) then Err(IntegerOverflow)
    else match command
      case None => Err(MissingCommand)
      case Some(c) =>
        var mr := if maxRetries.Some? then maxRetries.value else DefaultMaxRetries;
        Ok(t[id := FreshJob(c, mr, now)])
  }

  /** Upsert: the result does not depend on whether, or in which state, a
      record for `id` existed before. */
  lemma EnqueueForgetsPrior(t: Table, id: JobId, command: Option<string>, maxRetries: Option<int>, now: nat)
    ensures Enqueued(t, id, command, maxRetries, now) == Enqueued(t - {id}, id, command, maxRetries, now)
  {
    if command.Some? && !(maxRetries.Some? && !FitsInteger(maxRetries.value)) {
      var mr := if maxRetries.Some? then maxRetries.value else DefaultMaxRetries;
      var j := FreshJob(command.value, mr, now);
      assert (t - {id})[id := j] == t[id := j];
    }
  }

  // ---------------------------------------------------------------------
  // update_job_state and mark_processing: UPDATE ... WHERE id=?
  // ---------------------------------------------------------------------

  /** `update_job_state`: overwrites the state, the three output columns and
      `updated_at`; `attempts` keeps its value unless one is given (COALESCE).
      An absent id matches no row. */
  function Updated(t: Table, id: JobId, state: State, exitCode: Option<int>, stdout: Option<string>,
                   stderr: Option<string>, attempts: Option<nat>, now: nat): (r: Table)
    ensures r.Keys == t.Keys
    ensures id !in t ==> r == t
    ensures forall k :: k in t && k != id ==> r[k] == t[k]
    ensures id in t ==>
      && r[id].state == state
      && r[id].lastExitCode == exitCode
      && r[id].lastStdout == stdout
      && r[id].lastStderr == stderr
      && r[id].updatedAt == now
    ensures id in t ==> r[id].attempts == (if attempts.Some? then attempts.value else t[id].attempts)
    ensures id in t ==>
      && r[id].command == t[id].command
      && r[id].maxRetries == t[id].maxRetries
      && r[id].createdAt == t[id].createdAt
  {
    if id in t then
      var a := if attempts.Some? then attempts.value else t[id].attempts;
      t[id := t[id].(state := state, lastExitCode := exitCode, lastStdout := stdout,
                     lastStderr := stderr, updatedAt := now, attempts := a)]
    else
      t
  }

  /** `mark_processing`: only `state` and `updated_at` of that row change. */
  function MarkedProcessing(t: Table, id: JobId, now: nat): (r: Table)
    ensures r.Keys == t.Keys
    ensures id !in t ==> r == t
    ensures forall k :: k in t && k != id ==> r[k] == t[k]
    ensures id in t ==> r[id].state == Processing && r[id].updatedAt == now
    ensures id in t ==> r[id] == t[id].(state := r[id].state, updatedAt := r[id].updatedAt)
    ensures Consistent(t) ==> Consistent(r)
  {
    if id in t then t[id := t[id].(state := Processing, updatedAt := now)] else t
  }

  // ---------------------------------------------------------------------
  // handle_dlq("retry", id): UPDATE ... WHERE id=? AND state='dead'
  // ---------------------------------------------------------------------

  /** What `dlq retry` reports: the row was requeued, no dead row matched
      ("job not found in DLQ"), or no job id was given (nothing is run). */
  datatype DlqRetryOutcome = Retried | NotFoundInDlq | NoJobId

  function DlqRetried(t: Table, id: JobId): (r: (Table, DlqRetryOutcome))
    ensures r.1 == NoJobId <==> id == ""
    ensures r.1 == Retried <==> id != "" && id in t && t[id].state == Dead
    ensures r.1 != Retried ==> r.0 == t
    ensures r.1 == Retried ==> r.0.Keys == t.Keys && forall k :: k in t && k != id ==> r.0[k] == t[k]
    ensures r.1 == Retried ==> r.0[id].state == Pending && r.0[id].attempts == 0
    ensures r.1 == Retried ==> r.0[id] == t[id].(state := r.0[id].state, attempts := r.0[id].attempts)
    ensures Consistent(t) ==> Consistent(r.0)
  {
    if id == "" then (t, NoJobId)
    else if id in t && t[id].state == Dead then (t[id := t[id].(state := Pending, attempts := 0)], Retried)
    else (t, NotFoundInDlq)
  }

  // ---------------------------------------------------------------------
  // fetch_pending_job: SELECT ... WHERE state='pending' ORDER BY created_at LIMIT 1
  // ---------------------------------------------------------------------

  /** The rows the `state='pending'` filter keeps. */
  function PendingIds(t: Table): set<JobId>
  {
    IdsIn(t, Pending)
  }

  /** `id` is a row the query may return: pending, and no pending row was
      created earlier (rows created at the same instant tie). */
  ghost predicate IsOldestPending(t: Table, id: JobId)
  {
    && id in t
    && t[id].state == Pending
    && forall k :: k in t && t[k].state == Pending ==> t[id].createdAt <= t[k].createdAt
  }

  /** Any non-empty set of rows has one created no later than the others, so
      ORDER BY created_at always has a first row. */
  lemma {:induction false} EarliestExists(t: Table, ids: set<JobId>)
    requires ids != {} && ids <= t.Keys
    ensures exists id :: id in ids && forall k :: k in ids ==> t[id].createdAt <= t[k].createdAt
    decreases |ids|
  {
    var x :| x in ids;
    if ids != {x} {
      var rest := ids - {x};
      EarliestExists(t, rest);
      var y :| y in rest && forall k :: k in rest ==> t[y].createdAt <= t[k].createdAt;
      if t[x].createdAt <= t[y].createdAt {
        assert forall k :: k in ids ==> t[x].createdAt <= t[k].createdAt;
      } else {
        assert forall k :: k in ids ==> t[y].createdAt <= t[k].createdAt;
      }
    } else {
      assert forall k :: k in ids ==> k == x;
    }
  }

  /** The query has an answer exactly when some job is pending. */
  lemma OldestPendingExists(t: Table)
    ensures (exists id :: IsOldestPending(t, id)) <==> PendingIds(t) != {}
  {
    if PendingIds(t) != {} {
      EarliestExists(t, PendingIds(t));
      var id :| id in PendingIds(t) && forall k :: k in PendingIds(t) ==> t[id].createdAt <= t[k].createdAt;
      assert IsOldestPending(t, id);
    }
    assert forall id :: IsOldestPending(t, id) ==> id in PendingIds(t);
  }

  // ---------------------------------------------------------------------
  // show_status: SELECT COUNT(*) FROM jobs WHERE state=? for five labels
  // ---------------------------------------------------------------------

  function IdsIn(t: Table, s: State): (ids: set<JobId>)
    ensures ids <= t.Keys
    ensures forall id :: id in ids <==> id in t && t[id].state == s
  {
    set id | id in t && t[id].state == s
  }

  function CountIn(t: Table, s: State): nat
  {
    |IdsIn(t, s)|
  }

  datatype StatusCounts = StatusCounts(pending: nat, processing: nat, completed: nat, failed: nat, dead: nat)
  {
    function Total(): nat { pending + processing + completed + failed + dead }
  }

  function Status(t: Table): (c: StatusCounts)
    ensures c == StatusCounts(|IdsIn(t, Pending)|, |IdsIn(t, Processing)|, |IdsIn(t, Completed)|,
                              |IdsIn(t, Failed)|, |IdsIn(t, Dead)|)
    ensures c.Total() == |t|
    ensures Consistent(t) ==> c.failed == 0
    ensures c.pending == 0 <==> PendingIds(t) == {}
  {
    StatusPartition(t);
    assert Consistent(t) ==> IdsIn(t, Failed) == {};
    StatusCounts(CountIn(t, Pending), CountIn(t, Processing), CountIn(t, Completed),
                 CountIn(t, Failed), CountIn(t, Dead))
  }

  lemma DisjointUnionSize<T>(a: set<T>, b: set<T>)
    requires a !! b
    ensures |a + b| == |a| + |b|
  {
  }

  /** Every row is in exactly one of the five states the status query asks
      about, so the five counts add up to the number of rows. */
  lemma StatusPartition(t: Table)
    ensures CountIn(t, Pending) + CountIn(t, Processing) + CountIn(t, Completed)
            + CountIn(t, Failed) + CountIn(t, Dead) == |t|
  {
    var p, q, c, f, d := IdsIn(t, Pending), IdsIn(t, Processing), IdsIn(t, Completed),
                         IdsIn(t, Failed), IdsIn(t, Dead);
    DisjointUnionSize(p, q);
    DisjointUnionSize(p + q, c);
    DisjointUnionSize(p + q + c, f);
    DisjointUnionSize(p + q + c + f, d);
    assert p + q + c + f + d == t.Keys;
    assert |t.Keys| == |t|;
  }

  // ---------------------------------------------------------------------
  // handle_dlq("list"): SELECT id, command FROM jobs WHERE state='dead'
  // ---------------------------------------------------------------------

  /** The dead-letter queue; the query has no ORDER BY, so it is a set of
      (id, command) rows. */
  function DlqList(t: Table): (r: set<(JobId, string)>)
    ensures forall id, c :: (id, c) in r ==> id in t && t[id].state == Dead && t[id].command == c
    ensures forall id :: id in t && t[id].state == Dead ==> (id, t[id].command) in r
  {
    set id | id in IdsIn(t, Dead) :: (id, t[id].command)
  }

  /** The DLQ list has one entry per dead job, as many as the status counts. */
  lemma DlqListSize(t: Table)
    ensures |DlqList(t)| == Status(t).dead
  {
    DlqImageSize(t, IdsIn(t, Dead));
  }

  lemma {:induction false} DlqImageSize(t: Table, ids: set<JobId>)
    requires ids <= t.Keys
    ensures |set id | id in ids :: (id, t[id].command)| == |ids|
    decreases |ids|
  {
    if ids != {} {
      var x :| x in ids;
      var rest := ids - {x};
      DlqImageSize(t, rest);
      var img := set id | id in rest :: (id, t[id].command);
      assert (set id | id in ids :: (id, t[id].command)) == img + {(x, t[x].command)};
      assert (x, t[x].command) !in img;
    }
  }

  /** `dlq retry` succeeds on exactly the ids `dlq list` shows. */
  lemma DlqRetryMatchesList(t: Table, id: JobId)
    requires id != ""
    ensures DlqRetried(t, id).1 == Retried <==> id in t && (id, t[id].command) in DlqList(t)
  {
  }
}
