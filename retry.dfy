/** One iteration of `worker_loop` after a job has been fetched: the retry
    policy and the two writes (claim, then result) it makes to the table. */
module Retry {
  import opened Jobs
  import opened JobTable

  /** What running the job's command produced: the process exited with a
      code and its captured output, or `subprocess.run` raised an exception
      (the shell could not be started, or the output could not be decoded).
      The worker counts any such exception as a failed run, even after exit
      code 0. */
  datatype Outcome = Exited(code: int, stdout: string, stderr: string) | Raised(message: string)

  predicate Succeeded(o: Outcome)
  {
    o.Exited? && o.code == 0
  }

  /** The four columns `fetch_pending_job` reads for the worker. */
  datatype Claim = Claim(id: JobId, command: string, attempts: nat, maxRetries: int)

  function ClaimOf(t: Table, id: JobId): Claim
    requires id in t
  {
    Claim(id, t[id].command, t[id].attempts, t[id].maxRetries)
  }

  predicate IsDigits(s: string)
  {
    forall i :: 0 <= i < |s| ==> '0' <= s[i] <= '9'
  }

  /** The number a string of decimal digits denotes (`int(s)` in Python). */
  function DecimalValue(s: string): nat
    requires IsDigits(s)
  {
    if s == [] then 0 else 10 * DecimalValue(s[..|s| - 1]) + (s[|s| - 1] as int - '0' as int)
  }

  /** The decimal form of `n` (`%d` in Python): no leading zero, and "0" for 0. */
  function Digits(n: nat): (s: string)
    ensures |s| >= 1 && IsDigits(s)
    ensures n > 0 ==> s[0] != '0'
    decreases n
  {
    var d := ('0' as int + n % 10) as char;
    if n < 10 then [d] else Digits(n / 10) + [d]
  }

  /** `Digits` loses nothing: the digits denote `n` again. */
  lemma {:induction false} DigitsValue(n: nat)
    ensures DecimalValue(Digits(n)) == n
    decreases n
  {
    if n >= 10 {
      DigitsValue(n / 10);
      var s := Digits(n);
      assert s[..|s| - 1] == Digits(n / 10);
    }
  }

  lemma {:induction false} LeadingDigitValue(s: string)
    requires IsDigits(s) && s != [] && s[0] != '0'
    ensures DecimalValue(s) >= 1
    decreases |s|
  {
    if |s| > 1 {
      LeadingDigitValue(s[..|s| - 1]);
    }
  }

  /** Conversely, every decimal numeral without a leading zero is the
      `Digits` of the number it denotes. */
  lemma {:induction false} ValueDigits(s: string)
    requires IsDigits(s) && s != [] && (s[0] != '0' || |s| == 1)
    ensures Digits(DecimalValue(s)) == s
    decreases |s|
  {
    var p, c := s[..|s| - 1], s[|s| - 1];
    if |s| > 1 {
      LeadingDigitValue(p);
      ValueDigits(p);
      assert s == p + [c];
    }
  }

  /** `str(e)` of the exception the worker catches after a failed run: the
      launch exception's own message, or the text of the CalledProcessError
      it raises itself for a non-zero exit code. */
  function ErrorText(command: string, o: Outcome): (text: string)
    requires !Succeeded(o)
    ensures o.Raised? ==> text == o.message
  {
    match o
    case Raised(message) => message
    case Exited(code, _, _) =>
      var n := if code < 0 then -code else code;
      StatusHead(command, code) + Digits(n) + "."
  }

  /** The CalledProcessError text up to the number: the command, then how it
      ended (a negative code is the number of the signal that killed it). */
  function StatusHead(command: string, code: int): string
  {
    "Command '" + command + (if code < 0 then "' died with unknown signal " else "' returned non-zero exit status ")
  }

  /** The text for a non-zero exit names the command and gives the exit status
      (for a signal, its number) in decimal, so both can be read back. */
  lemma ErrorTextStatus(command: string, o: Outcome)
    requires o.Exited? && o.code != 0
    ensures var text, head := ErrorText(command, o), StatusHead(command, o.code);
      && |head| < |text|
      && text[..|head|] == head
      && text[|text| - 1] == '.'
      && IsDigits(text[|head|..|text| - 1])
      && (text[|head|] != '0' || |text| - 1 - |head| == 1)
      && DecimalValue(text[|head|..|text| - 1]) == (if o.code < 0 then -o.code else o.code)
  {
    var head := StatusHead(command, o.code);
    var n := if o.code < 0 then -o.code else o.code;
    var text := ErrorText(command, o);
    assert text == head + Digits(n) + ".";
    DigitsValue(n);
    assert text[..|head|] == head && text[|head|..|text| - 1] == Digits(n);
  }

  /** The arguments the worker passes to `update_job_state` after a run. */
  datatype Report = Report(state: State, exitCode: int, stdout: Option<string>, stderr: Option<string>, attempts: nat)

  /** The retry policy, applied to the values the worker fetched. */
  function Decide(c: Claim, o: Outcome): (r: Report)
    ensures r.state == Completed || r.state == Pending || r.state == Dead
    ensures Succeeded(o) ==> r == Report(Completed, 0, Some(o.stdout), Some(o.stderr), c.attempts)
    ensures !Succeeded(o) ==> r.attempts == c.attempts + 1 && r.exitCode == -1 && r.stdout == None
    ensures !Succeeded(o) ==> r.stderr == Some(ErrorText(c.command, o))
    ensures !Succeeded(o) ==> (r.state == Dead <==> r.attempts > c.maxRetries)
    ensures !Succeeded(o) ==> r.state != Completed
  {
    if Succeeded(o) then
      Report(Completed, o.code, Some(o.stdout), Some(o.stderr), c.attempts)
    else
      var attempts := c.attempts + 1;
      var text := Some(ErrorText(c.command, o));
      if attempts > c.maxRetries then Report(Dead, -1, None, text, attempts)
      else Report(Pending, -1, None, text, attempts)
  }

  /** The row of a job after a worker claimed it at `claimedAt`, ran its
      command with outcome `o` and reported at `reportedAt`. */
  function Processed(id: JobId, j: Job, o: Outcome, claimedAt: nat, reportedAt: nat): (r: Job)
    ensures r.command == j.command && r.maxRetries == j.maxRetries && r.createdAt == j.createdAt
    ensures r.updatedAt == reportedAt
    ensures Succeeded(o) ==>
      && r.state == Completed
      && r.attempts == j.attempts
      && r.lastExitCode == Some(0)
      && r.lastStdout == Some(o.stdout)
      && r.lastStderr == Some(o.stderr)
    ensures !Succeeded(o) ==>
      && r.attempts == j.attempts + 1
      && (r.state == Dead <==> r.attempts > r.maxRetries)
      && (r.state != Dead ==> r.state == Pending)
      && r.lastExitCode == Some(-1)
      && r.lastStdout == None
      && r.lastStderr == Some(ErrorText(j.command, o))
    ensures JobConsistent(r)
  {
    var claimed := j.(state := Processing, updatedAt := claimedAt);
    var d := Decide(Claim(id, j.command, j.attempts, j.maxRetries), o);
    claimed.(state := d.state, lastExitCode := Some(d.exitCode), lastStdout := d.stdout,
             lastStderr := d.stderr, updatedAt := reportedAt, attempts := d.attempts)
  }

  /** The table after one worker round on the claimed job `id`: the claim
      (`mark_processing`) followed by the report (`update_job_state` with the
      retry policy's values) touches that row alone. */
  function Step(t: Table, id: JobId, o: Outcome, claimedAt: nat, reportedAt: nat): (r: Table)
    requires id in t
    ensures r == t[id := Processed(id, t[id], o, claimedAt, reportedAt)]
    ensures Consistent(t) ==> Consistent(r)
  {
    var c := ClaimOf(t, id);
    var d := Decide(c, o);
    var r := Updated(MarkedProcessing(t, id, claimedAt), id, d.state, Some(d.exitCode), d.stdout, d.stderr,
                     Some(d.attempts), reportedAt);
    assert r == t[id := Processed(id, t[id], o, claimedAt, reportedAt)];
    r
  }

  /** The row after `n` worker rounds on it whose every run fails; a round
      claims the job only while it is pending. */
  function RunsFailing(id: JobId, j: Job, o: Outcome, n: nat, now: nat): (r: Job)
    requires !Succeeded(o)
    ensures r.command == j.command && r.maxRetries == j.maxRetries && r.createdAt == j.createdAt
    ensures j.attempts <= r.attempts <= j.attempts + n
    ensures j.state != Pending ==> r == j
    ensures n > 0 && j.state == Pending ==> r.state != Completed && r.state != Processing
    ensures JobConsistent(j) ==> JobConsistent(r)
    decreases n
  {
    if n == 0 then j
    else
      var p := RunsFailing(id, j, o, n - 1, now);
      if p.state == Pending then Processed(id, p, o, now, now) else p
  }

  /** Each failed round on a pending job adds exactly one attempt; the job
      stays pending while its attempts are within `max_retries`. */
  lemma {:induction false} FailureCount(id: JobId, j: Job, o: Outcome, now: nat, n: nat)
    requires !Succeeded(o)
    requires j.state == Pending && j.attempts == 0 && j.maxRetries >= 0
    requires n <= j.maxRetries + 1
    ensures RunsFailing(id, j, o, n, now).attempts == n
    ensures RunsFailing(id, j, o, n, now).maxRetries == j.maxRetries
    ensures n <= j.maxRetries ==> RunsFailing(id, j, o, n, now).state == Pending
    ensures n == j.maxRetries + 1 ==> RunsFailing(id, j, o, n, now).state == Dead
    decreases n
  {
    if n > 0 {
      FailureCount(id, j, o, now, n - 1);
    }
  }

  /** A freshly enqueued job with `max_retries = k` that fails every time is
      back in pending after each of its first k failures and is dead with
      k + 1 attempts after failure k + 1. */
  lemma RetryBudget(t: Table, id: JobId, command: string, k: nat, o: Outcome, now: nat, n: nat)
    requires !Succeeded(o) && n <= k + 1
    ensures k <= MaxInteger <==> Enqueued(t, id, Some(command), Some(k), now).Ok?
    ensures var e := Enqueued(t, id, Some(command), Some(k), now);
            e.Ok? ==>
              var r := RunsFailing(id, e.value[id], o, n, now);
              && r.attempts == n
              && (n <= k ==> r.state == Pending)
              && (n == k + 1 ==> r.state == Dead)
  {
    var e := Enqueued(t, id, Some(command), Some(k), now);
    if e.Ok? {
      FailureCount(id, e.value[id], o, now, n);
    }
  }

  /** Once dead, a job is never claimed again: further rounds change nothing. */
  lemma {:induction false} DeadIsFinal(id: JobId, j: Job, o: Outcome, m: nat, n: nat, now: nat)
    requires !Succeeded(o) && m <= n
    requires RunsFailing(id, j, o, m, now).state == Dead
    ensures RunsFailing(id, j, o, n, now) == RunsFailing(id, j, o, m, now)
    decreases n - m
  {
    if n > m {
      DeadIsFinal(id, j, o, m, n - 1, now);
    }
  }

  // ---------------------------------------------------------------------
  // End to end: enqueue, worker rounds, status and DLQ retry in sequence.
  // ---------------------------------------------------------------------

  /** A job whose command exits 0 is completed by one worker round. */
  lemma ScenarioSuccess()
    ensures var t0 := Enqueued(map[], "j1", Some("exit 0"), Some(3), 0).value;
            var t1 := Step(t0, "j1", Exited(0, "", ""), 1, 2);
            && IsOldestPending(t0, "j1")
            && t1["j1"].state == Completed
            && Status(t1).completed == 1 && Status(t1).pending == 0
  {
  }

  /** With `max_retries = 1`, two failed rounds leave the job dead with two
      attempts; retrying it from the DLQ and a successful round complete it;
      retrying an unknown id reports not found and changes nothing. */
  lemma ScenarioDeadAndRequeued()
    ensures var t0 := Enqueued(map[], "j2", Some("exit 1"), Some(1), 0).value;
            var o := Exited(1, "", "");
            var t1 := Step(t0, "j2", o, 1, 2);
            var t2 := Step(t1, "j2", o, 3, 4);
            var (t3, res) := DlqRetried(t2, "j2");
            var t4 := Step(t3, "j2", Exited(0, "", ""), 5, 6);
            && IsOldestPending(t0, "j2") && IsOldestPending(t1, "j2")
            && t1["j2"].state == Pending
            && t2["j2"].state == Dead && t2["j2"].attempts == 2
            && res == Retried && t3["j2"].state == Pending && t3["j2"].attempts == 0
            && IsOldestPending(t3, "j2") && t4["j2"].state == Completed
            && DlqRetried(t2, "nonexistent") == (t2, NotFoundInDlq)
  {
    var t0 := Enqueued(map[], "j2", Some("exit 1"), Some(1), 0).value;
    var o := Exited(1, "", "");
    assert t0.Keys == {"j2"} && t0["j2"].maxRetries == 1;
    var t1 := Step(t0, "j2", o, 1, 2);
    assert t1.Keys == {"j2"} && t1["j2"].attempts == 1 && t1["j2"].state == Pending;
    var t2 := Step(t1, "j2", o, 3, 4);
    assert t2["j2"].attempts == 2 && t2["j2"].state == Dead;
    var (t3, res) := DlqRetried(t2, "j2");
    assert t3.Keys == {"j2"} && t3["j2"].state == Pending;
  }
}
