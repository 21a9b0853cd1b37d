/**
 What the last transaction of a worker leaves in the tables, in terms of what Execute returned and of
 the job: the row, its event, and the retry.
 */
module Outcomes {
  import opened Model
  import opened Tables
  import opened Transactions
  import opened Invariant

  // ---------- The row ----------

  /** The row says how the execution ended: with which status, exit code and message. */
  predicate Tells(row: Run, o: Outcome) {
    && (row.status.Success? <==> o.execErr.None?)
    && (row.status.Timeout? <==> o.execErr.Some? && o.ctxErr == Some(DeadlineExceeded))
    && (row.status.Cancelled? <==> o.execErr.Some? && o.ctxErr == Some(Canceled))
    && (row.status.Failed? <==> o.execErr.Some? && o.ctxErr == None)
    && (row.status.Success? ==> row.exitCode == Some(0) && row.errorMessage == None)
    && (row.status.Cancelled? ==> row.exitCode == None && row.errorMessage == Some(ContextCancelled))
    && (row.status.Timeout? ==> row.errorMessage == Some(JobTimeout))
    && (row.status.Failed? ==> row.errorMessage == Some(ExecError(o.execErr.value)))
    && (row.status.Timeout? || row.status.Failed? ==>
          row.exitCode == Some(if o.result.Some? then o.result.value.exitCode else -1))
  }

  /** A path that Execute returned is stored; for an empty one the path that the worker had loaded is written back. */
  predicate StoresPaths(was: Run, row: Run, run: Run, result: Option<ExecResult>) {
    match result
    case None => row.logPath == was.logPath && row.resultPath == was.resultPath
    case Some(res) =>
      && row.logPath == (if res.logPath == "" then run.logPath else Some(res.logPath))
      && row.resultPath == if res.resultPath == "" then run.resultPath else Some(res.resultPath)
  }

  /** The event that goes with a final status. */
  predicate Announces(kind: EventType, status: RunStatus) {
    match status
    case Success => kind == RunCompleted
    case Timeout => kind == RunTimeout
    case Cancelled => kind == RunCancelled
    case Failed => kind == RunFailed
    case _ => false
  }

  /** The worker is to try again. */
  predicate WantsRetry(run: Run, job: Job, o: Outcome) {
    o.execErr.Some? && o.ctxErr != Some(Canceled) && run.attempt < job.retryLimit
  }

  function RetryKey(run: Run): RunKey {
    RunKey(run.jobId, run.scheduledAt, run.attempt + 1)
  }

  lemma FinalRowTells(was: Run, run: Run, o: Outcome, finishedAt: Time)
    ensures var row := FinalRow(was, run, o, finishedAt);
            && Tells(row, o) && StoresPaths(was, row, run, o.result) && Announces(Classify(o).Event(), row.status)
            && row.startedAt == run.startedAt && row.finishedAt == Some(finishedAt)
            && row.Key() == was.Key() && row.createdAt == was.createdAt
  {
    assert o.ctxErr.Some? ==> o.ctxErr.value.DeadlineExceeded? || o.ctxErr.value.Canceled?;
  }

  /** The tables after a finalization: one row rewritten, its event, and the retry row with its own if there is one. */
  predicate Records(t: Tables, u: Tables, id: int, run: Run, job: Job, o: Outcome, finishedAt: Time, createdAt: Time) {
    && id in t.runs && id in u.runs && |u.events| > |t.events| && u.jobs == t.jobs && u.jobSeq == t.jobSeq
    && var was, row, kind := t.runs[id], u.runs[id], u.events[|t.events|].kind;
       && Tells(row, o) && StoresPaths(was, row, run, o.result) && Announces(kind, row.status)
       && row.startedAt == run.startedAt && row.finishedAt == Some(finishedAt)
       && row.Key() == was.Key() && row.createdAt == was.createdAt
       && if WantsRetry(run, job, o) then
            var x := t.runSeq + 1;
            var retry := Run(run.jobId, run.scheduledAt, None, None, Pending, run.attempt + 1, None, None, None, None,
                             createdAt);
            && u.runSeq == x && u.runs == t.runs[id := row][x := retry]
            && u.events == t.events + [RunEvent(id, kind)] + [RunEvent(x, RunCreated)]
          else u.runSeq == t.runSeq && u.runs == t.runs[id := row] && u.events == t.events + [RunEvent(id, kind)]
  }

  /** The run that a worker has loaded under this id, if its row is still there. */
  ghost predicate LoadedFrom(t: Tables, id: int, run: Run) {
    Schema(t) && (id in t.runs ==> run.Key() == t.runs[id].Key() && run.attempt >= 0)
  }

  /**
   The last transaction of a worker.  It commits exactly when its row is there and the key of the
   retry that the outcome wants, if it wants one, is free.
   */
  lemma OutcomeIsRecorded(t: Tables, id: int, run: Run, job: Job, o: Outcome, finishedAt: Time, createdAt: Time)
    requires LoadedFrom(t, id, run)
    ensures var tx := FinalizeTx(t, id, run, job, o, finishedAt, createdAt);
            && (tx.Some? <==> id in t.runs && !(WantsRetry(run, job, o) && KeyTaken(t, RetryKey(run))))
            && (tx.Some? ==> Records(t, tx.value, id, run, job, o, finishedAt, createdAt))
  {
    FinalizeEffect(t, id, run, job, o, finishedAt, createdAt);
    if id in t.runs {
      FinalRowTells(t.runs[id], run, o, finishedAt);
      RetryIsInserted(Finalized(t, id, run, o, finishedAt), run, job, o, createdAt);
      SameKeys(t, Finalized(t, id, run, o, finishedAt), RetryKey(run));
    }
  }

  lemma RetryIsInserted(m: Tables, run: Run, job: Job, o: Outcome, createdAt: Time)
    requires run.attempt >= 0
    ensures WantsRetry(run, job, o) <==> Classify(o).Retryable() && ShouldRetry(job, run)
    ensures BuildRetryRun(run, createdAt).Key() == RetryKey(run)
  {
    assert o.ctxErr.Some? ==> o.ctxErr.value.DeadlineExceeded? || o.ctxErr.value.Canceled?;
  }

  lemma SameKeys(t: Tables, m: Tables, key: RunKey)
    requires m.runs.Keys == t.runs.Keys && forall q <- t.runs :: m.runs[q].Key() == t.runs[q].Key()
    ensures KeyTaken(m, key) <==> KeyTaken(t, key)
  {}
}
