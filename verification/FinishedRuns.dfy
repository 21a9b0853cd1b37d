/**
 What a finished execution leaves, step by step and over whole runs: how each outcome is recorded,
 and that every failed run is tried again up to the retry limit.
 */
module FinishedRuns {
  import opened Model
  import opened Tables
  import opened Lifecycle
  import opened Invariant
  import opened RowSteps
  import opened TerminalStability
  import opened RetryChain
  import opened EventLog
  import opened Outcomes

  // ---------- The step ----------

  /** The last transaction of a worker commits: it leaves at least an event. */
  ghost predicate Finalizes(s: System, a: Action) {
    a.Finalize? && Enabled(s, a) && Apply(s, a).db != s.db
  }

  lemma FinalizedTx(s: System, a: Action)
    requires Inv(s) && a.Finalize? && Enabled(s, a)
    ensures var me := s.workers[a.w];
            var run, job, o := me.phase.run, me.phase.job, me.phase.outcome;
            && (Apply(s, a).db != s.db <==>
                  a.commit && me.runId in s.db.runs && !(WantsRetry(run, job, o) && KeyTaken(s.db, RetryKey(run))))
            && (Apply(s, a).db != s.db ==>
                  Records(s.db, Apply(s, a).db, me.runId, run, job, o, a.finishedAt, a.createdAt))
            && (me.runId in s.db.runs ==> run.Key() == s.db.runs[me.runId].Key() && run.attempt >= 0)
  {
    var me := s.workers[a.w];
    assert WorkerOk(s.db, me);
    if me.runId in s.db.runs {
      assert Shape(s.db.runs[me.runId]);
      assert me.phase.run.Key().attempt == s.db.runs[me.runId].Key().attempt;
    }
    OutcomeIsRecorded(s.db, me.runId, me.phase.run, me.phase.job, me.phase.outcome, a.finishedAt, a.createdAt);
  }

  lemma RecordedLogs(t: Tables, u: Tables, id: int, run: Run, job: Job, o: Outcome, f: Time, c: Time)
    requires Schema(t) && Records(t, u, id, run, job, o, f, c)
    ensures Announces(u.events[|t.events|].kind, u.runs[id].status)
    ensures EventsOf(u.events, id) == EventsOf(t.events, id) + [u.events[|t.events|].kind]
    ensures forall r <- t.runs | r != id :: u.runs[r] == t.runs[r] && EventsOf(u.events, r) == EventsOf(t.events, r)
    ensures t.runSeq + 1 in u.runs ==> EventsOf(u.events, t.runSeq + 1) == [RunCreated]
  {
    var kind := u.events[|t.events|].kind;
    var m := t.events + [RunEvent(id, kind)];
    forall r ensures EventsOf(m, r) == EventsOf(t.events, r) + if r == id then [kind] else [] {
      EventsOfAppend(t.events, RunEvent(id, kind), r);
    }
    forall r ensures EventsOf(m + [RunEvent(t.runSeq + 1, RunCreated)], r)
        == EventsOf(m, r) + if r == t.runSeq + 1 then [RunCreated] else [] {
      EventsOfAppend(m, RunEvent(t.runSeq + 1, RunCreated), r);
    }
    NoEventsOf(t.events, t.runSeq + 1);
  }

  /** The run's row and log after the step; no other row that was there has changed. */
  lemma RowTellsOutcome(s: System, a: Action)
    requires Inv(s) && Finalizes(s, a)
    ensures var me, t, u := s.workers[a.w], s.db, Apply(s, a).db;
            var r, run, o := me.runId, me.phase.run, me.phase.outcome;
            && r in t.runs && r in u.runs && Tells(u.runs[r], o) && StoresPaths(t.runs[r], u.runs[r], run, o.result)
            && u.runs[r].startedAt == run.startedAt && u.runs[r].finishedAt == Some(a.finishedAt)
            && u.runs[r].Key() == t.runs[r].Key() && u.runs[r].createdAt == t.runs[r].createdAt
            && (exists kind :: Announces(kind, u.runs[r].status)
                  && EventsOf(u.events, r) == EventsOf(t.events, r) + [kind])
            && forall q <- t.runs | q != r ::
                 q in u.runs && u.runs[q] == t.runs[q] && EventsOf(u.events, q) == EventsOf(t.events, q)
  {
    var me := s.workers[a.w];
    FinalizedTx(s, a);
    RecordedLogs(s.db, Apply(s, a).db, me.runId, me.phase.run, me.phase.job, me.phase.outcome, a.finishedAt,
                 a.createdAt);
  }

  lemma RecordedRetry(t: Tables, u: Tables, id: int, run: Run, job: Job, o: Outcome, f: Time, c: Time)
    requires Schema(t) && Records(t, u, id, run, job, o, f, c)
    ensures NewAttempt(t, u, RetryKey(run)) <==> WantsRetry(run, job, o)
    ensures forall x | x in u.runs && x !in t.runs :: u.runs[x].Key() == RetryKey(run)
  {
    RecordedLogs(t, u, id, run, job, o, f, c);
    if WantsRetry(run, job, o) {
      assert t.runSeq + 1 !in t.runs && u.runs[t.runSeq + 1].Key() == RetryKey(run);
    }
  }

  /** There is a new row with this key, pending and with nothing but its first event. */
  ghost predicate NewAttempt(t: Tables, u: Tables, key: RunKey) {
    exists x :: x !in t.runs && x in u.runs && u.runs[x].Key() == key && u.runs[x].status.Pending?
      && EventsOf(u.events, x) == [RunCreated]
  }

  /**
   A finalization that commits leaves a pending row for the next attempt exactly when the execution
   failed otherwise than by cancellation and the attempt is below the job's retry limit; apart from
   that it adds no row.
   */
  lemma RetryIff(s: System, a: Action)
    requires Inv(s) && Finalizes(s, a)
    ensures var me, t, u := s.workers[a.w], s.db, Apply(s, a).db;
            var run, job, o := me.phase.run, me.phase.job, me.phase.outcome;
            && (NewAttempt(t, u, RunKey(run.jobId, run.scheduledAt, run.attempt + 1))
                <==> o.execErr.Some? && o.ctxErr != Some(Canceled) && run.attempt < job.retryLimit)
            && (forall x | x in u.runs && x !in t.runs :: u.runs[x].Key() == RetryKey(run))
  {
    var me := s.workers[a.w];
    var t, u := s.db, Apply(s, a).db;
    FinalizedTx(s, a);
    RecordedRetry(t, u, me.runId, me.phase.run, me.phase.job, me.phase.outcome, a.finishedAt, a.createdAt);
  }

  // ---------- Over whole runs ----------

  /** The i-th action commits a finalization that records a failure or an exceeded deadline. */
  ghost predicate FailsAt(s0: System, acts: seq<Action>, i: nat) {
    && i < |acts| && Exec(s0, acts[..i]).Some? && Finalizes(Exec(s0, acts[..i]).value, acts[i])
    && var o := Exec(s0, acts[..i]).value.workers[acts[i].w].phase.outcome;
       o.execErr.Some? && o.ctxErr != Some(Canceled)
  }

  /** The run that it finalizes. */
  ghost function RunAt(s0: System, acts: seq<Action>, i: nat): Run
    requires FailsAt(s0, acts, i)
  {
    Exec(s0, acts[..i]).value.workers[acts[i].w].phase.run
  }

  /** Where nothing is deleted a row stays under its key, and its job keeps its limit unless it is replaced. */
  lemma {:induction false} RowAndLimitStay(s: System, acts: seq<Action>, x: int, j: int)
    requires Inv(s) && Exec(s, acts).Some? && NothingDeleted(acts) && x in s.db.runs && s.db.runs[x].Key().jobId == j
    requires forall i | 0 <= i < |acts| :: !Replaces(acts[i], j)
    ensures var t := Exec(s, acts).value.db;
            && Inv(Exec(s, acts).value) && x in t.runs && t.runs[x].Key() == s.db.runs[x].Key()
            && j in s.db.jobs && j in t.jobs && t.jobs[j].retryLimit == s.db.jobs[j].retryLimit
    decreases |acts|
  {
    assert s.db.runs[x].jobId == j;
    if acts != [] {
      InvStep(s, acts[0]);
      LimitsStay(s, acts[0], j);
      RowAndLimitStay(Apply(s, acts[0]), acts[1..], x, j);
    }
  }

  lemma FinalizedLimit(s: System, a: Action)
    requires Inv(s) && Finalizes(s, a) && WithinLimits(s, s.workers[a.w].phase.run.jobId)
    ensures var me := s.workers[a.w]; var j := me.phase.run.jobId;
            && me.runId in s.db.runs && s.db.runs[me.runId].Key() == me.phase.run.Key()
            && j in s.db.jobs && me.phase.job.retryLimit == s.db.jobs[j].retryLimit
            && me.runId in Apply(s, a).db.runs && Apply(s, a).db.runs[me.runId].Key() == me.phase.run.Key()
            && Apply(s, a).db.jobs == s.db.jobs
  {
    FinalizedTx(s, a);
    var me := s.workers[a.w];
    assert me.phase.run.Key().jobId == s.db.runs[me.runId].Key().jobId;
  }

  lemma RetryStays(s: System, a: Action, rest: seq<Action>)
    requires Inv(s) && Finalizes(s, a) && WithinLimits(s, s.workers[a.w].phase.run.jobId)
    requires var o := s.workers[a.w].phase.outcome; o.execErr.Some? && o.ctxErr != Some(Canceled)
    requires Exec(Apply(s, a), rest).Some? && NothingDeleted(rest)
    requires forall k | 0 <= k < |rest| :: !Replaces(rest[k], s.workers[a.w].phase.run.jobId)
    ensures var t, run := Exec(Apply(s, a), rest).value.db, s.workers[a.w].phase.run;
            && run.jobId in t.jobs && KeyTaken(t, run.Key())
            && (run.attempt < t.jobs[run.jobId].retryLimit ==> KeyTaken(t, RetryKey(run)))
  {
    var run := s.workers[a.w].phase.run;
    FinalizedLimit(s, a);
    InvStep(s, a);
    RowAndLimitStay(Apply(s, a), rest, s.workers[a.w].runId, run.jobId);
    RetryIff(s, a);
    if run.attempt < s.db.jobs[run.jobId].retryLimit {
      var x :| x in Apply(s, a).db.runs && Apply(s, a).db.runs[x].Key() == RetryKey(run);
      RowAndLimitStay(Apply(s, a), rest, x, run.jobId);
    }
  }

  lemma SplitAt(s0: System, acts: seq<Action>, i: nat)
    requires i < |acts| && Exec(s0, acts).Some?
    ensures Exec(s0, acts[..i]).Some? && Enabled(Exec(s0, acts[..i]).value, acts[i])
    ensures Exec(Apply(Exec(s0, acts[..i]).value, acts[i]), acts[i + 1..]) == Exec(s0, acts)
  {
    assert acts == acts[..i] + acts[i..] && acts[i..][1..] == acts[i + 1..];
    ExecSplit(s0, acts[..i], acts[i..]);
  }

  /**
   Without deletions, a failed or timed-out run of a job that is not replaced has been followed by a
   row for the next attempt if and only if its own attempt is below the job's retry limit.
   */
  lemma FailedRunIsRetriedIff(s0: System, acts: seq<Action>, i: nat)
    requires Init(s0) && Exec(s0, acts).Some? && NothingDeleted(acts) && FailsAt(s0, acts, i)
    requires forall k | 0 <= k < |acts| :: !Replaces(acts[k], RunAt(s0, acts, i).jobId)
    ensures var t, run := Exec(s0, acts).value.db, RunAt(s0, acts, i);
            && run.jobId in t.jobs && KeyTaken(t, run.Key())
            && (KeyTaken(t, RunKey(run.jobId, run.scheduledAt, run.attempt + 1))
                <==> run.attempt < t.jobs[run.jobId].retryLimit)
  {
    var s, a, run := Exec(s0, acts[..i]).value, acts[i], RunAt(s0, acts, i);
    SplitAt(s0, acts, i);
    LimitsExec(s0, acts[..i], run.jobId);
    RetryStays(s, a, acts[i + 1..]);
    NoRowBeyond(s0, acts, run);
  }

  lemma NoRowBeyond(s0: System, acts: seq<Action>, run: Run)
    requires Init(s0) && Exec(s0, acts).Some? && forall k | 0 <= k < |acts| :: !Replaces(acts[k], run.jobId)
    ensures var t := Exec(s0, acts).value.db;
            forall b | KeyTaken(t, RunKey(run.jobId, run.scheduledAt, b)) ::
              run.jobId in t.jobs && 0 <= b <= Positive(t.jobs[run.jobId].retryLimit)
  {
    var t := Exec(s0, acts).value.db;
    InvExec(s0, acts);
    forall b | KeyTaken(t, RunKey(run.jobId, run.scheduledAt, b))
      ensures run.jobId in t.jobs && 0 <= b <= Positive(t.jobs[run.jobId].retryLimit)
    {
      var x :| x in t.runs && t.runs[x].Key() == RunKey(run.jobId, run.scheduledAt, b);
      assert t.runs[x].jobId == t.runs[x].Key().jobId && t.runs[x].attempt == t.runs[x].Key().attempt;
      assert Shape(t.runs[x]);
      AttemptsWithinLimit(s0, acts, x);
    }
  }

  /** So a slot whose last attempt has failed or timed out has had all its attempts: 0 up to the retry limit. */
  lemma FailedSlotIsExhausted(s0: System, acts: seq<Action>, i: nat)
    requires Init(s0) && Exec(s0, acts).Some? && NothingDeleted(acts) && FailsAt(s0, acts, i)
    requires forall k | 0 <= k < |acts| :: !Replaces(acts[k], RunAt(s0, acts, i).jobId)
    requires !KeyTaken(Exec(s0, acts).value.db, RetryKey(RunAt(s0, acts, i)))
    ensures var t, run := Exec(s0, acts).value.db, RunAt(s0, acts, i);
            && run.jobId in t.jobs
            && var limit := t.jobs[run.jobId].retryLimit;
               forall b: int :: KeyTaken(t, RunKey(run.jobId, run.scheduledAt, b))
                                <==> 0 <= b <= if limit > 0 then limit else 0
  {
    var t, run := Exec(s0, acts).value.db, RunAt(s0, acts, i);
    FailedRunIsRetriedIff(s0, acts, i);
    NoRowBeyond(s0, acts, run);
    assert KeyTaken(t, RunKey(run.jobId, run.scheduledAt, run.attempt));
    var x :| x in t.runs && t.runs[x].Key() == run.Key();
    forall b: int | 0 <= b <= run.attempt ensures KeyTaken(t, RunKey(run.jobId, run.scheduledAt, b)) {
      assert t.runs[x].attempt == t.runs[x].Key().attempt;
      AttemptsAreContiguous(s0, acts, x, b);
    }
  }

  // ---------- From the row back to the finalization ----------

  /** The worker's own verdict: failed, or timed out by the deadline and not closed as stale. */
  predicate FailedByWorker(row: Run) {
    row.status.Failed? || (row.status.Timeout? && row.errorMessage == Some(JobTimeout))
  }

  lemma FailureChange(s: System, a: Action, x: int, before: View, after: View)
    requires RowChange(s, a, x, before, after) && FailedByWorker(after.row) && after != before
    requires forall c <- s.cancels :: CancelOk(s.db, s.cancels[c])
    ensures ByOwner(s, a, x, before, after) && a.Finalize?
  {}

  lemma FailureStep(s: System, a: Action, x: int)
    requires Inv(s) && Enabled(s, a) && x in Apply(s, a).db.runs && FailedByWorker(Apply(s, a).db.runs[x])
    ensures x in s.db.runs && Apply(s, a).db.runs[x].Key() == s.db.runs[x].Key()
    ensures FailedByWorker(s.db.runs[x])
            || (Finalizes(s, a) && s.workers[a.w].phase.run.Key() == s.db.runs[x].Key()
                && var o := s.workers[a.w].phase.outcome; o.execErr.Some? && o.ctxErr != Some(Canceled))
  {
    InvStep(s, a);
    if x !in s.db.runs {
      NewLogStep(s, a, x);
    } else {
      RowStep(s, a, x);
      if !FailedByWorker(s.db.runs[x]) {
        FailureChange(s, a, x, ViewOf(s.db, x), ViewOf(Apply(s, a).db, x));
        RowTellsOutcome(s, a);
      }
    }
  }

  /** A row that says failed, or timed out by its deadline, was finalized so. */
  lemma {:induction false} FailedWasFinalized(s0: System, acts: seq<Action>, x: int) returns (i: nat)
    requires Init(s0) && Exec(s0, acts).Some?
    requires x in Exec(s0, acts).value.db.runs && FailedByWorker(Exec(s0, acts).value.db.runs[x])
    ensures FailsAt(s0, acts, i) && RunAt(s0, acts, i).Key() == Exec(s0, acts).value.db.runs[x].Key()
  {
    ExecLast(s0, acts);
    var most, a := acts[..|acts| - 1], acts[|acts| - 1];
    var s := Exec(s0, most).value;
    InvExec(s0, most);
    FailureStep(s, a, x);
    if FailedByWorker(s.db.runs[x]) {
      i := FailedWasFinalized(s0, most, x);
      assert acts[..i] == most[..i];
    } else {
      i := |acts| - 1;
    }
  }

  /**
   In a state reached without deletions: if the last attempt of a slot says failed, or timed out by
   its deadline, then the slot's attempts are exactly 0 up to the retry limit of its job, where that
   has not been replaced.
   */
  lemma SlotIsExhausted(s0: System, acts: seq<Action>, x: int)
    requires Init(s0) && Exec(s0, acts).Some? && NothingDeleted(acts)
    requires var t := Exec(s0, acts).value.db;
             x in t.runs && FailedByWorker(t.runs[x]) && !KeyTaken(t, RetryKey(t.runs[x]))
    requires forall k | 0 <= k < |acts| :: !Replaces(acts[k], Exec(s0, acts).value.db.runs[x].jobId)
    ensures var t := Exec(s0, acts).value.db; var row := t.runs[x];
            && row.jobId in t.jobs
            && var limit := t.jobs[row.jobId].retryLimit;
               forall b: int :: KeyTaken(t, RunKey(row.jobId, row.scheduledAt, b))
                                <==> 0 <= b <= if limit > 0 then limit else 0
  {
    var row := Exec(s0, acts).value.db.runs[x];
    var i := FailedWasFinalized(s0, acts, x);
    var run := RunAt(s0, acts, i);
    assert run.jobId == run.Key().jobId == row.Key().jobId == row.jobId;
    assert run.scheduledAt == row.scheduledAt && run.attempt == row.attempt;
    FailedSlotIsExhausted(s0, acts, i);
  }
}
