/**
 The store and the transactions that run on it, in the form the program has them: repositories
 that change tables in place, and transactions that undo every statement when one fails.  Each
 method is tied to the function that the run lifecycle is built from.
 */
module Store {
  import opened Model
  import T = Tables
  import opened Transactions
  import opened Lifecycle
  import opened Invariant
  import opened Listings
  import opened Outcomes
  import opened Timing

  class Database {
    var jobs: map<int, Job>
    var runs: map<int, Run>
    var events: seq<RunEvent>
    var jobSeq: nat
    var runSeq: nat

    /** The abstract tables. */
    function Db(): T.Tables
      reads this
    {
      T.Tables(jobs, runs, events, jobSeq, runSeq)
    }

    constructor ()
      ensures Db() == T.Tables(map[], map[], [], 0, 0)
    {
      jobs, runs, events, jobSeq, runSeq := map[], map[], [], 0, 0;
    }

    // ---------- Statements; broken says that the driver fails this one ----------

    method GetRun(id: int, broken: bool) returns (row: Option<Run>)
      ensures row == if !broken && id in runs then Some(runs[id]) else None
    {
      if broken || id !in runs {
        return None;
      }
      return Some(runs[id]);
    }

    /** RunRepo.Create: the new id, or none when the schema or the driver rejects the row. */
    method CreateRun(run: Run, broken: bool) returns (id: Option<int>)
      modifies this
      ensures id.Some? <==> !broken && T.InsertRun(old(Db()), run).Some?
      ensures id.Some? ==> T.InsertRun(old(Db()), run) == Some(Db()) && id.value == runSeq
      ensures id.None? ==> Db() == old(Db())
    {
      if broken || run.jobId !in jobs {
        return None;
      }
      if exists r :: r in runs && runs[r].Key() == run.Key() {
        return None;
      }
      runSeq := runSeq + 1;
      runs := runs[runSeq := run];
      return Some(runSeq);
    }

    method CreateEvent(runId: int, kind: EventType, broken: bool) returns (ok: bool)
      modifies this
      ensures ok <==> !broken && T.InsertEvent(old(Db()), runId, kind).Some?
      ensures if ok then T.InsertEvent(old(Db()), runId, kind) == Some(Db()) else Db() == old(Db())
    {
      if broken || runId !in runs {
        return false;
      }
      events := events + [RunEvent(runId, kind)];
      return true;
    }

    method UpdateStatus(id: int, status: RunStatus, startedAt: Option<Time>, finishedAt: Option<Time>,
                        exitCode: Option<int>, errorMessage: Option<Message>, broken: bool) returns (ok: bool)
      modifies this
      ensures ok == !broken
      ensures Db() == if ok then T.UpdateStatus(old(Db()), id, status, startedAt, finishedAt, exitCode, errorMessage)
                      else old(Db())
    {
      if broken {
        return false;
      }
      if id in runs {
        runs := runs[id := runs[id].(status := status, startedAt := startedAt, finishedAt := finishedAt,
                                     exitCode := exitCode, errorMessage := errorMessage)];
      }
      return true;
    }

    /** The compare-and-set of the store: at most one caller is told true for a row. */
    method ClaimPending(id: int, startedAt: Time, broken: bool) returns (claimed: Option<bool>)
      modifies this
      ensures claimed == if broken then None else Some(T.Claimable(old(Db()), id))
      ensures Db() == if broken then old(Db()) else T.ClaimPending(old(Db()), id, startedAt)
    {
      if broken {
        return None;
      }
      if id in runs && runs[id].status.Pending? {
        runs := runs[id := runs[id].(status := Running, startedAt := Some(startedAt))];
        return Some(true);
      }
      return Some(false);
    }

    method UpdateLogArtifacts(id: int, logPath: Option<string>, resultPath: Option<string>, broken: bool)
      returns (ok: bool)
      modifies this
      ensures ok == !broken
      ensures Db() == if ok then T.UpdateLogArtifacts(old(Db()), id, logPath, resultPath) else old(Db())
    {
      if broken {
        return false;
      }
      if id in runs {
        runs := runs[id := runs[id].(logPath := logPath, resultPath := resultPath)];
      }
      return true;
    }

    method UpdateScheduling(id: int, next: Time, last: Time, broken: bool) returns (ok: bool)
      modifies this
      ensures ok == !broken
      ensures Db() == if ok then T.UpdateScheduling(old(Db()), id, next, last) else old(Db())
    {
      if broken {
        return false;
      }
      if id in jobs {
        jobs := jobs[id := jobs[id].(nextRunAt := Some(next), lastScheduledAt := Some(last))];
      }
      return true;
    }

    method CreateJob(job: Job, broken: bool) returns (id: Option<int>)
      modifies this
      ensures id == if broken then None else Some(jobSeq)
      ensures Db() == if broken then old(Db()) else T.InsertJob(old(Db()), job)
    {
      if broken {
        return None;
      }
      jobSeq := jobSeq + 1;
      jobs := jobs[jobSeq := job];
      return Some(jobSeq);
    }

    method UpdateJob(id: int, job: Job, broken: bool) returns (ok: bool)
      modifies this
      ensures ok == !broken
      ensures Db() == if ok then T.UpdateJob(old(Db()), id, job) else old(Db())
    {
      if broken {
        return false;
      }
      if id in jobs {
        jobs := jobs[id := job];
      }
      return true;
    }

    /** Deleting a job takes its runs and their events along. */
    method DeleteJob(id: int, broken: bool) returns (ok: bool)
      modifies this
      ensures ok == !broken
      ensures Db() == if ok then T.DeleteJob(old(Db()), id) else old(Db())
    {
      if broken {
        return false;
      }
      var gone := set r | r in runs && runs[r].jobId == id;
      runs, events, jobs := runs - gone, T.KeepEvents(events, gone), jobs - {id};
      return true;
    }

    /** DELETE of the rows ListTerminalBefore selects; their events go with them. */
    method DeleteTerminalBefore(before: Time, broken: bool) returns (count: Option<nat>)
      modifies this
      ensures count == if broken then None else Some(|PrunableRuns(old(Db()), before)|)
      ensures Db() == if broken then old(Db()) else PruneTx(old(Db()), before)
    {
      if broken {
        return None;
      }
      var gone := set r | r in runs && Prunable(runs[r], before);
      runs, events := runs - gone, T.KeepEvents(events, gone);
      return Some(|gone|);
    }

    // ---------- Queries ----------

    method ListPending(limit: int, broken: bool) returns (page: Option<seq<int>>)
      ensures page == if broken then None else Some(PendingPage(Db(), limit))
    {
      if broken {
        return None;
      }
      return Some(PendingPage(Db(), limit));
    }

    /** RunRepo.List for the running rows of a job. */
    method ListRunning(jobId: int, broken: bool) returns (page: Option<seq<int>>)
      ensures page == if broken then None else Some(RunningPage(Db(), jobId))
    {
      if broken {
        return None;
      }
      return Some(RunningPage(Db(), jobId));
    }

    method ListTerminalBefore(now: Time, broken: bool) returns (page: Option<seq<int>>)
      ensures page == if broken then None else Some(TerminalPage(Db(), now))
    {
      if broken {
        return None;
      }
      return Some(TerminalPage(Db(), now));
    }

    method ListDue(now: Time, broken: bool) returns (due: Option<seq<DueEntry>>)
      ensures due == if broken then None else Some(DueList(Db(), now))
    {
      if broken {
        return None;
      }
      return Some(DueList(Db(), now));
    }

    // ---------- WithinTx ----------

    /** BeginTx; what is saved is what a rollback brings back. */
    method Begin(broken: bool) returns (saved: Option<T.Tables>)
      ensures saved == if broken then None else Some(Db())
    {
      if broken {
        return None;
      }
      return Some(Db());
    }

    /** The end of WithinTx: a function that failed is rolled back, and so is one whose commit fails. */
    method End(saved: T.Tables, ok: bool, broken: bool) returns (committed: bool)
      modifies this
      ensures committed <==> ok && !broken
      ensures Db() == if committed then old(Db()) else saved
    {
      if !ok || broken {
        jobs, runs, events, jobSeq, runSeq := saved.jobs, saved.runs, saved.events, saved.jobSeq, saved.runSeq;
        return false;
      }
      return true;
    }
  }

  /** Which statements of a transaction the driver fails. */
  type Faults = nat -> bool

  const BEGIN: nat := 1000
  const COMMIT: nat := 1001

  /** The next listed row is still as it was before the loop, so a turn decides on what the listing showed. */
  lemma ReclaimTurn(cfg: Config, t: T.Tables, jobId: int, listed: seq<int>, i: nat, now: Time, timeoutSec: int)
    requires T.Schema(t) && RowsOk(t) && RunningListing(t, jobId, listed) && i < |listed|
    ensures var id := listed[i];
            var u := ReclaimAll(cfg, t, listed[..i], now, timeoutSec);
            && id in t.runs && id in u.runs && u.runs[id] == t.runs[id]
            && ReclaimAll(cfg, t, listed[..i + 1], now, timeoutSec) == ReclaimOne(cfg, u, id, now, timeoutSec)
            && Active(cfg, t, listed[..i + 1], now, timeoutSec)
               == Active(cfg, t, listed[..i], now, timeoutSec)
                 + if Stale(cfg, t.runs[id], now, timeoutSec) then [] else [id]
  {
    ReclaimKeeps(cfg, t, jobId, listed[..i], now, timeoutSec);
    assert listed[..i + 1][..i] == listed[..i];
  }

  /** What a due slot's row, event and schedule make of the tables. */
  function SlotTx(t: T.Tables, jobId: int, slot: Time, active: seq<int>, now: Time, next: Time,
                  createdAt: Time): Option<T.Tables> {
    var row := DueRow(jobId, slot, active, now, next, createdAt);
    var u :- AddRun(t, row, FirstEvent(row));
    Some(T.UpdateScheduling(u, jobId, next, slot))
  }

  /** processDueJob as a whole; none where it fails or has nothing to do. */
  function DueJobTx(cfg: Config, t: T.Tables, jobId: int, job: Job, now: Time, cronNext: Option<Time>,
                    listed: seq<int>, createdAt: Time): Option<T.Tables>
  {
    if job.nextRunAt.None? then None
    else
      var next :- ComputeNextRunAt(job.schedule, now, cronNext);
      DueTx(cfg, t, jobId, job, now, next, listed, createdAt)
  }

  /** One job gets the next run time after this reading of the clock, and the slot that it has taken. */
  predicate Reschedules(before: map<int, Job>, after: map<int, Job>, jobId: int, job: Job, now: Time,
                        cronNext: Option<Time>) {
    && jobId in before && jobId in after && after[jobId].nextRunAt.Some?
    && RunsNext(job.schedule, now, cronNext, after[jobId].nextRunAt.value)
    && after == before[jobId :=
         before[jobId].(nextRunAt := after[jobId].nextRunAt, lastScheduledAt := job.nextRunAt)]
  }

  lemma DueJobReschedules(cfg: Config, t: T.Tables, jobId: int, job: Job, now: Time, cronNext: Option<Time>,
                          createdAt: Time)
    requires T.Schema(t) && RowsOk(t)
    ensures var after := DueJobTx(cfg, t, jobId, job, now, cronNext, RunningPage(t, jobId), createdAt);
            after.Some? ==> Reschedules(t.jobs, after.value.jobs, jobId, job, now, cronNext)
  {
    var page := RunningPage(t, jobId);
    RunningPageLists(t, jobId);
    NextRunIs(job.schedule, now, cronNext);
    if DueJobTx(cfg, t, jobId, job, now, cronNext, page, createdAt).Some? {
      DueEffect(cfg, t, jobId, job, now, ComputeNextRunAt(job.schedule, now, cronNext).value, page, createdAt);
      DueReclaimedKeeps(cfg, t, jobId, job, now, page);
    }
  }

  /** The transactions of the scheduler and the services; every one either commits or leaves the tables as they were. */
  class Engine {
    const store: Database
    const cfg: Config

    constructor (store: Database, cfg: Config)
      ensures this.store == store && this.cfg == cfg
    {
      this.store, this.cfg := store, cfg;
    }

    /** The claim transaction of runWorker: the verdict, or none after a rollback. */
    method ClaimRun(id: int, startedAt: Time, finishedAt: Time, faults: Faults) returns (verdict: Option<ClaimVerdict>)
      modifies store
      ensures verdict.Some? ==>
                ClaimTx(old(store.Db()), id, startedAt, finishedAt)
                == Some(ClaimResult(store.Db(), verdict.value))
      ensures verdict.None? ==> store.Db() == old(store.Db())
      ensures (forall k :: !faults(k)) && ClaimTx(old(store.Db()), id, startedAt, finishedAt).Some? ==> verdict.Some?
    {
      var saved := store.Begin(faults(BEGIN));
      if saved.None? {
        return None;
      }
      var row := store.GetRun(id, faults(0));
      if row.None? {
        return None;
      }
      var ok := true;
      verdict := Some(NotClaimed);
      match row.value.status {
        case Cancelled =>
          verdict := Some(Stop);
        case Cancelling =>
          var current := row.value;
          ok := store.UpdateStatus(id, Cancelled, current.startedAt, Some(finishedAt), current.exitCode,
                                   current.errorMessage, faults(1));
          if ok {
            ok := store.CreateEvent(id, RunCancelled, faults(2));
          }
          verdict := Some(Stop);
        case Pending =>
          var claimed := store.ClaimPending(id, startedAt, faults(1));
          ok := claimed.Some?;
          if claimed == Some(true) {
            ok := store.CreateEvent(id, RunStarted, faults(2));
            verdict := Some(ClaimVerdict.Claimed);
          }
        case _ =>
      }
      ok := store.End(saved.value, ok, faults(COMMIT));
      if !ok {
        verdict := None;
      }
    }

    /** The transaction of a worker whose context has ended before it could execute. */
    method CancelBeforeExecute(id: int, run: Run, finishedAt: Time, faults: Faults) returns (ok: bool)
      modifies store
      ensures ok ==> CancelBeforeExecuteTx(old(store.Db()), id, run, finishedAt) == Some(store.Db())
      ensures !ok ==> store.Db() == old(store.Db())
      ensures (forall k :: !faults(k)) && CancelBeforeExecuteTx(old(store.Db()), id, run, finishedAt).Some? ==> ok
    {
      var saved := store.Begin(faults(BEGIN));
      if saved.None? {
        return false;
      }
      ok := store.UpdateStatus(id, Cancelled, run.startedAt, Some(finishedAt), run.exitCode, run.errorMessage,
                               faults(1));
      if ok {
        ok := store.CreateEvent(id, RunCancelled, faults(2));
      }
      ok := store.End(saved.value, ok, faults(COMMIT));
    }

    /** Insert the retry row of a failed run, if the job still allows one. */
    method CreateRetry(job: Job, run: Run, createdAt: Time, faults: Faults) returns (ok: bool)
      modifies store
      ensures ok ==> RetryTx(old(store.Db()), job, run, createdAt) == Some(store.Db())
      ensures ok && 0 < job.retryLimit && run.attempt < job.retryLimit ==>
                && store.runs == old(store.runs)[store.runSeq :=
                     Run(run.jobId, run.scheduledAt, None, None, Pending, run.attempt + 1, None, None, None, None,
                         createdAt)]
                && store.runSeq == old(store.runSeq) + 1
                && store.events == old(store.events) + [RunEvent(store.runSeq, RunCreated)]
      ensures job.retryLimit <= 0 || run.attempt >= job.retryLimit ==> ok && store.Db() == old(store.Db())
      ensures !ok ==> RetryTx(old(store.Db()), job, run, createdAt).None? || faults(10) || faults(11)
    {
      if job.retryLimit <= 0 || run.attempt >= job.retryLimit {
        return true;
      }
      var id := store.CreateRun(BuildRetryRun(run, createdAt), faults(10));
      if id.None? {
        return false;
      }
      ok := store.CreateEvent(id.value, RunCreated, faults(11));
    }

    /** Write an outcome and its event. */
    method WriteOutcome(id: int, run: Run, status: RunStatus, finishedAt: Time, exitCode: Option<int>,
                        message: Option<Message>,
                        kind: EventType, faults: Faults) returns (ok: bool)
      modifies store
      ensures var t := T.UpdateStatus(old(store.Db()), id, status, run.startedAt, Some(finishedAt), exitCode, message);
              && (ok ==> T.InsertEvent(t, id, kind) == Some(store.Db()))
              && (!ok ==> T.InsertEvent(t, id, kind).None? || faults(2) || faults(3))
    {
      ok := store.UpdateStatus(id, status, run.startedAt, Some(finishedAt), exitCode, message, faults(2));
      if ok {
        ok := store.CreateEvent(id, kind, faults(3));
      }
    }

    /** The switch of the last transaction, and the retry it may bring. */
    method Conclude(id: int, run: Run, job: Job, o: Outcome, finishedAt: Time, createdAt: Time, faults: Faults)
      returns (ok: bool)
      modifies store
      ensures ok ==> ConcludeTx(old(store.Db()), id, run, job, o, finishedAt, createdAt) == Some(store.Db())
      ensures (forall k :: !faults(k)) && ConcludeTx(old(store.Db()), id, run, job, o, finishedAt, createdAt).Some?
              ==> ok
    {
      var exitCode := -1;
      if o.result.Some? {
        exitCode := o.result.value.exitCode;
      }
      if o.execErr.None? {
        ok := WriteOutcome(id, run, Success, finishedAt, Some(0), None, RunCompleted, faults);
      } else if o.ctxErr == Some(DeadlineExceeded) {
        ok := WriteOutcome(id, run, Timeout, finishedAt, Some(exitCode), Some(JobTimeout), RunTimeout, faults);
        if ok {
          ok := CreateRetry(job, run, createdAt, faults);
        }
      } else if o.ctxErr == Some(Canceled) {
        ok := WriteOutcome(id, run, Cancelled, finishedAt, None, Some(ContextCancelled), RunCancelled, faults);
      } else {
        ok := WriteOutcome(id, run, Failed, finishedAt, Some(exitCode), Some(ExecError(o.execErr.value)), RunFailed,
                           faults);
        if ok {
          ok := CreateRetry(job, run, createdAt, faults);
        }
      }
    }

    /** The last transaction of runWorker. */
    method FinalizeRun(id: int, run: Run, job: Job, o: Outcome, finishedAt: Time, createdAt: Time, faults: Faults)
      returns (ok: bool)
      modifies store
      ensures ok ==> FinalizeTx(old(store.Db()), id, run, job, o, finishedAt, createdAt) == Some(store.Db())
      ensures ok && LoadedFrom(old(store.Db()), id, run) ==>
                Records(old(store.Db()), store.Db(), id, run, job, o, finishedAt, createdAt)
      ensures !ok ==> store.Db() == old(store.Db())
      ensures (forall k :: !faults(k)) && FinalizeTx(old(store.Db()), id, run, job, o, finishedAt, createdAt).Some?
              ==> ok
    {
      var saved := store.Begin(faults(BEGIN));
      if saved.None? {
        return false;
      }
      var logPath, resultPath := run.logPath, run.resultPath;
      if o.result.Some? && o.result.value.logPath != "" {
        logPath := Some(o.result.value.logPath);
      }
      if o.result.Some? && o.result.value.resultPath != "" {
        resultPath := Some(o.result.value.resultPath);
      }
      ok := true;
      if o.result.Some? {
        ok := store.UpdateLogArtifacts(id, logPath, resultPath, faults(1));
      }
      if ok {
        ok := Conclude(id, run, job, o, finishedAt, createdAt, faults);
      }
      ok := store.End(saved.value, ok, faults(COMMIT));
      if LoadedFrom(saved.value, id, run) {
        OutcomeIsRecorded(saved.value, id, run, job, o, finishedAt, createdAt);
      }
    }

    /** finalizeStaleRunningRun: close the row as timed out, with its event. */
    method CloseStale(id: int, run: Run, now: Time, timeoutSec: int, broken: bool, eventBroken: bool) returns (ok: bool)
      requires id in store.runs && store.runs[id] == run && Stale(cfg, run, now, timeoutSec)
      modifies store
      ensures ok <==> !broken && !eventBroken
      ensures ok ==> store.Db() == ReclaimOne(cfg, old(store.Db()), id, now, timeoutSec)
      ensures forall seconds | ok && MayTake(cfg, timeoutSec, seconds) ::
                store.runs == old(store.runs)[id := Closed(run, now, seconds)]
    {
      var startedAt := run.startedAt;
      if startedAt.None? || startedAt.value == ZERO_TIME {
        startedAt := Some(run.createdAt);
      }
      ok := store.UpdateStatus(id, Timeout, startedAt, Some(now), Some(-1),
                               Some(StaleDiscarded(EffectiveTimeout(cfg, timeoutSec))), broken);
      if ok {
        ok := store.CreateEvent(id, RunTimeout, eventBroken);
      }
    }

    /** The loop over the running rows of a forbid job: close the stale ones, keep the others. */
    method ReclaimStale(jobId: int, listed: seq<int>, now: Time, timeoutSec: int, faults: Faults)
      returns (ok: bool, active: seq<int>)
      requires T.Schema(store.Db()) && RowsOk(store.Db()) && RunningListing(store.Db(), jobId, listed)
      modifies store
      ensures ok ==> store.Db() == ReclaimAll(cfg, old(store.Db()), listed, now, timeoutSec)
      ensures ok ==> active == Active(cfg, old(store.Db()), listed, now, timeoutSec)
      ensures (forall k :: !faults(k)) ==> ok
    {
      ghost var t0 := store.Db();
      var rows := store.runs;
      active := [];
      var i := 0;
      while i < |listed|
        invariant i <= |listed|
        invariant store.Db() == ReclaimAll(cfg, t0, listed[..i], now, timeoutSec)
        invariant active == Active(cfg, t0, listed[..i], now, timeoutSec)
      {
        ReclaimTurn(cfg, t0, jobId, listed, i, now, timeoutSec);
        if Stale(cfg, rows[listed[i]], now, timeoutSec) {
          ok := CloseStale(listed[i], rows[listed[i]], now, timeoutSec, faults(2 * i + 20), faults(2 * i + 21));
          if !ok {
            return;
          }
        } else {
          active := active + [listed[i]];
        }
        i := i + 1;
      }
      assert listed[..i] == listed;
      ok := true;
    }

    /** The insert, its event and the schedule of a due slot, which active rows turn into a skipped one. */
    method TakeSlot(jobId: int, slot: Time, active: seq<int>, now: Time, next: Time, createdAt: Time, faults: Faults)
      returns (ok: bool)
      modifies store
      ensures ok ==> SlotTx(old(store.Db()), jobId, slot, active, now, next, createdAt) == Some(store.Db())
      ensures (forall k :: !faults(k)) && SlotTx(old(store.Db()), jobId, slot, active, now, next, createdAt).Some?
              ==> ok
    {
      var run := PendingRun(jobId, slot, createdAt);
      var kind := RunCreated;
      if active != [] {
        run := SkippedRun(jobId, slot, now, active[0], next, createdAt);
        kind := RunSkipped;
      }
      var id := store.CreateRun(run, faults(1));
      ok := id.Some?;
      if ok {
        ok := store.CreateEvent(id.value, kind, faults(2));
      }
      if ok {
        ok := store.UpdateScheduling(jobId, next, slot, faults(3));
      }
    }

    /** The part of processDueJob under a forbid policy: the running rows, of which it closes the stale ones. */
    method ReclaimListed(jobId: int, job: Job, now: Time, faults: Faults) returns (ok: bool, active: seq<int>)
      requires T.Schema(store.Db()) && RowsOk(store.Db())
      modifies store
      ensures var t, listed := old(store.Db()), RunningPage(old(store.Db()), jobId);
              ok ==>
                store.Db() == DueReclaimed(cfg, t, job, now, listed)
                && active == DueActive(cfg, t, job, now, listed)
      ensures (forall k :: !faults(k)) ==> ok
    {
      ok, active := true, [];
      if job.policy.Forbid? {
        var running := store.ListRunning(jobId, faults(0));
        ok := running.Some?;
        if ok {
          RunningPageLists(store.Db(), jobId);
          ok, active := ReclaimStale(jobId, running.value, now, job.timeoutSec, faults);
        }
      }
    }

    /** processDueJob. */
    method ProcessDueJob(jobId: int, job: Job, now: Time, cronNext: Option<Time>, createdAt: Time, faults: Faults)
      returns (committed: bool)
      requires T.Schema(store.Db()) && RowsOk(store.Db())
      modifies store
      ensures var after := DueJobTx(cfg, old(store.Db()), jobId, job, now, cronNext,
                                    RunningPage(old(store.Db()), jobId), createdAt);
              && (committed ==> after == Some(store.Db()))
              && (!committed ==> store.Db() == old(store.Db()))
              && ((forall k :: !faults(k)) && after.Some? ==> committed)
      ensures committed ==> Reschedules(old(store.jobs), store.jobs, jobId, job, now, cronNext)
    {
      if job.nextRunAt.None? {
        return false;
      }
      var next := ComputeNextRunAt(job.schedule, now, cronNext);
      if next.None? {
        return false;
      }
      var slot := job.nextRunAt.value;
      var saved := store.Begin(faults(BEGIN));
      if saved.None? {
        return false;
      }
      var ok, active := ReclaimListed(jobId, job, now, faults);
      if ok {
        ok := TakeSlot(jobId, slot, active, now, next.value, createdAt, faults);
      }
      committed := store.End(saved.value, ok, faults(COMMIT));
      DueJobReschedules(cfg, saved.value, jobId, job, now, cronNext, createdAt);
    }

    /** CreateJob of the job service, for a validated job: the first slot is computed from now. */
    method CreateJob(job: Job, now: Time, cronNext: Option<Time>, broken: bool) returns (id: Option<int>)
      modifies store
      ensures id.Some? <==> !broken && !NeverRuns(job.schedule, cronNext)
      ensures id.Some? ==>
                && id.value in store.jobs && store.jobs[id.value].nextRunAt.Some?
                && RunsNext(job.schedule, now, cronNext, store.jobs[id.value].nextRunAt.value)
                && store.jobs == old(store.jobs)[id.value := job.(nextRunAt := store.jobs[id.value].nextRunAt)]
      ensures store.Db() == if id.Some? then T.InsertJob(old(store.Db()), WithNext(job, now, cronNext))
              else old(store.Db())
    {
      var next := ComputeNextRunAt(job.schedule, now, cronNext);
      if next.None? {
        return None;
      }
      id := store.CreateJob(job.(nextRunAt := next), broken);
    }

    /** TriggerJob. */
    method TriggerJob(jobId: int, now: Time, createdAt: Time, faults: Faults) returns (ok: bool)
      modifies store
      ensures ok ==> TriggerTx(old(store.Db()), jobId, now, createdAt) == Some(store.Db())
      ensures !ok ==> store.Db() == old(store.Db())
      ensures (forall k :: !faults(k)) && TriggerTx(old(store.Db()), jobId, now, createdAt).Some? ==> ok
    {
      if faults(0) || jobId !in store.jobs {
        return false;
      }
      var saved := store.Begin(faults(BEGIN));
      if saved.None? {
        return false;
      }
      var id := store.CreateRun(PendingRun(jobId, now, createdAt), faults(1));
      ok := id.Some?;
      if ok {
        ok := store.CreateEvent(id.value, RunCreated, faults(2));
      }
      ok := store.End(saved.value, ok, faults(COMMIT));
    }

    /** CancelRun with nothing in between: the row with the status asked for, or none on an error. */
    method CancelRun(id: int, faults: Faults) returns (answer: Option<Run>)
      modifies store
      ensures var t := old(store.Db());
              if answer.None? then store.Db() == t
              else
                && id in t.runs
                && var target := CancelTarget(t.runs[id].status);
                   if target.None? then answer.value == t.runs[id] && store.Db() == t
                   else answer.value == t.runs[id].(status := target.value)
                        && store.Db() == CancelWrite(t, id, target.value, t.runs[id])
      ensures (forall k :: !faults(k)) && id in old(store.runs) ==> answer.Some?
    {
      var row := store.GetRun(id, faults(0));
      if row.None? {
        return None;
      }
      var run := row.value;
      match run.status {
        case Pending => run := run.(status := Cancelled);
        case Running => run := run.(status := Cancelling);
        case Cancelling => run := run.(status := Cancelling);
        case _ => return Some(run);
      }
      var ok := store.UpdateStatus(id, run.status, run.startedAt, run.finishedAt, run.exitCode, run.errorMessage,
                                   faults(1));
      if !ok {
        return None;
      }
      return Some(run);
    }
  }

  /** The worker-token channel of the scheduler. */
  class WorkerTokens {
    const capacity: nat
    var held: nat

    ghost predicate Valid()
      reads this
    {
      held <= capacity
    }

    constructor (capacity: nat)
      ensures Valid() && this.capacity == capacity && held == 0
    {
      this.capacity, held := capacity, 0;
    }

    /**
     acquireWorkerToken: done says that the context has ended before the call, ends that it ends
     while the call waits; where a token is free as well, the select takes either.
     */
    method Acquire(done: bool, ends: bool, either: bool) returns (answer: Answer)
      requires Valid()
      modifies this
      ensures Valid() && held == old(held) + if answer.Taken? then 1 else 0
      ensures answer.Taken? ==> !done && old(held) < capacity
      ensures answer.Refused? ==> done || ends
      ensures answer.Waits? <==> !done && !ends && old(held) == capacity
    {
      if done {
        return Refused;
      }
      if held < capacity && !(ends && either) {
        held := held + 1;
        return Taken;
      }
      return if ends then Refused else Waits;
    }

    /** releaseWorkerToken; not found is the default branch of its select. */
    method Release() returns (found: bool)
      requires Valid()
      modifies this
      ensures Valid() && (found <==> old(held) > 0) && held == if found then old(held) - 1 else 0
    {
      found := held > 0;
      if found {
        held := held - 1;
      }
    }
  }

  /** How an attempt to take a token ends, if it does not wait for ever. */
  datatype Answer = Taken | Refused | Waits
}
