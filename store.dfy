/** The `jobs` table as a mutable store: each queuectl operation that writes
    to the table is a method that updates `jobs` in place, specified by the
    corresponding function of `JobTable` or `Retry`. */
module Store {
  import opened Jobs
  import opened JobTable
  import opened Retry

  /** One line of `list`: the columns `id, state, command`. */
  datatype Listed = Listed(id: JobId, state: State, command: string)

  function IdsOf(rows: seq<Listed>): set<JobId>
  {
    set i | 0 <= i < |rows| :: rows[i].id
  }

  lemma IdsOfAppend(rows: seq<Listed>, x: Listed)
    ensures IdsOf(rows + [x]) == IdsOf(rows) + {x.id}
  {
    var r := rows + [x];
    assert forall i :: 0 <= i < |rows| ==> r[i] == rows[i];
    assert r[|rows|] == x;
  }

  /** Every row shows the id, state and command of a job of `t`. */
  ghost predicate RowsOf(t: Table, rows: seq<Listed>)
  {
    forall i :: 0 <= i < |rows| ==>
      rows[i].id in t && rows[i] == Listed(rows[i].id, t[rows[i].id].state, t[rows[i].id].command)
  }

  ghost predicate DistinctIds(rows: seq<Listed>)
  {
    forall i, k :: 0 <= i < k < |rows| ==> rows[i].id != rows[k].id
  }

  ghost predicate InCreationOrder(t: Table, rows: seq<Listed>)
    requires RowsOf(t, rows)
  {
    forall i, k :: 0 <= i < k < |rows| ==> t[rows[i].id].createdAt <= t[rows[k].id].createdAt
  }

  /** Loop invariant of `ListJobs`: `rows` lists, in creation order, exactly
      the jobs not in `remaining`, each once, and none of them was created
      after a job still remaining. */
  ghost predicate ListedSoFar(t: Table, rows: seq<Listed>, remaining: set<JobId>)
  {
    && remaining <= t.Keys
    && |rows| + |remaining| == |t|
    && IdsOf(rows) == t.Keys - remaining
    && DistinctIds(rows)
    && RowsOf(t, rows)
    && InCreationOrder(t, rows)
    && (forall i, k :: 0 <= i < |rows| && k in remaining ==> t[rows[i].id].createdAt <= t[k].createdAt)
  }

  lemma DistinctStep(rows: seq<Listed>, x: Listed)
    requires DistinctIds(rows) && x.id !in IdsOf(rows)
    ensures DistinctIds(rows + [x])
  {
  }

  lemma RowsStep(t: Table, rows: seq<Listed>, id: JobId)
    requires RowsOf(t, rows) && id in t
    ensures RowsOf(t, rows + [Listed(id, t[id].state, t[id].command)])
  {
  }

  lemma OrderStep(t: Table, rows: seq<Listed>, id: JobId)
    requires RowsOf(t, rows) && InCreationOrder(t, rows) && id in t
    requires forall i :: 0 <= i < |rows| ==> t[rows[i].id].createdAt <= t[id].createdAt
    ensures RowsOf(t, rows + [Listed(id, t[id].state, t[id].command)])
    ensures InCreationOrder(t, rows + [Listed(id, t[id].state, t[id].command)])
  {
    RowsStep(t, rows, id);
  }

  /** Appending a remaining job created no later than the others keeps the
      invariant. */
  lemma ListStep(t: Table, rows: seq<Listed>, remaining: set<JobId>, id: JobId)
    requires ListedSoFar(t, rows, remaining)
    requires id in remaining && forall k :: k in remaining ==> t[id].createdAt <= t[k].createdAt
    ensures ListedSoFar(t, rows + [Listed(id, t[id].state, t[id].command)], remaining - {id})
  {
    var next := rows + [Listed(id, t[id].state, t[id].command)];
    var rest := remaining - {id};
    assert |rest| == |remaining| - 1;
    IdsOfAppend(rows, next[|rows|]);
    DistinctStep(rows, next[|rows|]);
    OrderStep(t, rows, id);
    forall i, k | 0 <= i < |next| && k in rest
      ensures t[next[i].id].createdAt <= t[k].createdAt
    {
      if i < |rows| {
        assert next[i] == rows[i];
      }
    }
  }

  class JobStore {
    var jobs: Table

    ghost predicate Valid()
      reads this
    {
      Consistent(jobs)
    }

    /** A freshly initialised, empty table. */
    constructor ()
      ensures Valid() && jobs == map[]
    {
      jobs := map[];
    }

    /** `enqueue_job`. */
    method Enqueue(id: JobId, command: Option<string>, maxRetries: Option<int>, now: nat)
      returns (r: Result<(), EnqueueError>)
      requires Valid()
      modifies this
      ensures Valid()
      ensures r.Ok? <==> Enqueued(old(jobs), id, command, maxRetries, now).Ok?
      ensures r.Ok? ==> jobs == Enqueued(old(jobs), id, command, maxRetries, now).value
      ensures r.Err? ==> r.error == Enqueued(old(jobs), id, command, maxRetries, now).error && jobs == old(jobs)
    {
      if maxRetries.Some? && !FitsInteger(maxRetries.value) {
        return Err(IntegerOverflow);
      }
      if command.None? {
        return Err(MissingCommand);
      }
      var mr := if maxRetries.Some? then maxRetries.value else DefaultMaxRetries;
      jobs := jobs[id := FreshJob(command.value, mr, now)];
      r := Ok(());
    }

    /** `update_job_state`: the raw write, which stores whatever state and
        output it is given (`Failed` included). The invariant survives exactly
        when the row it leaves behind is consistent, as it is for the values
        `WorkerStep` passes. */
    method UpdateJobState(id: JobId, state: State, exitCode: Option<int>, stdout: Option<string>,
                          stderr: Option<string>, attempts: Option<nat>, now: nat)
      modifies this
      ensures jobs == Updated(old(jobs), id, state, exitCode, stdout, stderr, attempts, now)
      ensures old(Valid()) && (id in jobs ==> JobConsistent(jobs[id])) ==> Valid()
    {
      if id in jobs {
        var j := jobs[id];
        var a := if attempts.Some? then attempts.value else j.attempts;
        jobs := jobs[id := j.(state := state, lastExitCode := exitCode, lastStdout := stdout,
                              lastStderr := stderr, updatedAt := now, attempts := a)];
      }
    }

    /** `mark_processing`. */
    method MarkProcessing(id: JobId, now: nat)
      modifies this
      ensures jobs == MarkedProcessing(old(jobs), id, now)
      ensures old(Valid()) ==> Valid()
    {
      if id in jobs {
        jobs := jobs[id := jobs[id].(state := Processing, updatedAt := now)];
      }
    }

    /** `fetch_pending_job`: one of the pending jobs created first, or nothing
        when no job is pending. The table is not changed. */
    method FetchPendingJob() returns (job: Option<Claim>)
      ensures job.None? <==> PendingIds(jobs) == {}
      ensures job.Some? ==> IsOldestPending(jobs, job.value.id)
      ensures job.Some? ==> job.value == ClaimOf(jobs, job.value.id)
    {
      var pending := PendingIds(jobs);
      if pending == {} {
        return None;
      }
      EarliestExists(jobs, pending);
      var id :| id in pending && forall k :: k in pending ==> jobs[id].createdAt <= jobs[k].createdAt;
      job := Some(Claim(id, jobs[id].command, jobs[id].attempts, jobs[id].maxRetries));
    }

    /** One iteration of `worker_loop`: fetch, claim, run (its outcome is
        given), then report success or apply the retry policy. When nothing
        is pending the worker only sleeps. */
    method WorkerStep(outcome: Outcome, claimedAt: nat, reportedAt: nat) returns (ran: Option<JobId>)
      requires Valid()
      modifies this
      ensures Valid()
      ensures ran.None? <==> PendingIds(old(jobs)) == {}
      ensures ran.None? ==> jobs == old(jobs)
      ensures ran.Some? ==> IsOldestPending(old(jobs), ran.value)
      ensures ran.Some? ==> jobs == Step(old(jobs), ran.value, outcome, claimedAt, reportedAt)
    {
      var job := FetchPendingJob();
      if job.None? {
        return None;
      }
      var claim := job.value;
      ghost var t0 := jobs;
      ghost var after := Processed(claim.id, t0[claim.id], outcome, claimedAt, reportedAt);
      MarkProcessing(claim.id, claimedAt);
      var attempts := claim.attempts;
      if outcome.Exited? && outcome.code == 0 {
        UpdateJobState(claim.id, Completed, Some(outcome.code), Some(outcome.stdout), Some(outcome.stderr),
                       Some(attempts), reportedAt);
      } else {
        var message := ErrorText(claim.command, outcome);
        attempts := attempts + 1;
        if attempts > claim.maxRetries {
          UpdateJobState(claim.id, Dead, Some(-1), None, Some(message), Some(attempts), reportedAt);
        } else {
          UpdateJobState(claim.id, Pending, Some(-1), None, Some(message), Some(attempts), reportedAt);
        }
      }
      assert jobs[claim.id] == after;
      assert jobs == t0[claim.id := after];
      ran := Some(claim.id);
    }

    /** `handle_dlq("retry", id)`. */
    method DlqRetry(id: JobId) returns (outcome: DlqRetryOutcome)
      requires Valid()
      modifies this
      ensures Valid()
      ensures (jobs, outcome) == DlqRetried(old(jobs), id)
    {
      if id == "" {
        return NoJobId;
      }
      if id in jobs && jobs[id].state == Dead {
        jobs := jobs[id := jobs[id].(state := Pending, attempts := 0)];
        outcome := Retried;
      } else {
        outcome := NotFoundInDlq;
      }
    }

    /** `list_jobs`: every job exactly once, in order of creation (jobs
        created at the same instant in either order). The table is not
        changed. */
    method ListJobs() returns (rows: seq<Listed>)
      ensures |rows| == |jobs|
      ensures IdsOf(rows) == jobs.Keys
      ensures DistinctIds(rows)
      ensures RowsOf(jobs, rows)
      ensures InCreationOrder(jobs, rows)
    {
      rows := [];
      var remaining := jobs.Keys;
      while remaining != {}
        invariant ListedSoFar(jobs, rows, remaining)
        decreases |remaining|
      {
        EarliestExists(jobs, remaining);
        var id :| id in remaining && forall k :: k in remaining ==> jobs[id].createdAt <= jobs[k].createdAt;
        ListStep(jobs, rows, remaining, id);
        rows := rows + [Listed(id, jobs[id].state, jobs[id].command)];
        remaining := remaining - {id};
      }
    }
  }
}
