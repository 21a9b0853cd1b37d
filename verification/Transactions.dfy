/**
 The transactions of the scheduler and the services, as functions on the tables.  None means
 that a statement failed, so the transaction rolls back.
 */
module Transactions {
  import opened Model
  import opened Tables
  import opened Instants

  // ---------- Timeouts and schedules ----------

  /** effectiveTimeoutSec: 0 stands for no timeout. */
  function EffectiveTimeout(cfg: Config, timeoutSec: int): int {
    var max := if cfg.maxTimeoutSec <= 0 then 86400 else cfg.maxTimeoutSec;
    if timeoutSec == 0 then
      if cfg.allowUnlimited then 0
      else if cfg.defaultTimeoutSec > 0 then cfg.defaultTimeoutSec
      else 3600
    else if timeoutSec > max then max
    else timeoutSec
  }

  /** computeNextRunAt of the scheduler; cronNext is what the cron library answers. */
  function ComputeNextRunAt(schedule: Schedule, from: Time, cronNext: Option<Time>): Option<Time> {
    match schedule
    case Interval(sec) => if sec.None? || sec.value <= 0 then None else Some(from + sec.value * SECOND)
    case Cron(expr) => if expr.None? || expr.value == "" then None else cronNext
  }

  // ---------- Worker ----------

  datatype ClaimVerdict = Stop | Claimed | NotClaimed

  datatype ClaimResult = ClaimResult(tables: Tables, verdict: ClaimVerdict)

  /** The first transaction of runWorker. */
  function ClaimTx(t: Tables, id: int, startedAt: Time, finishedAt: Time): Option<ClaimResult> {
    if id !in t.runs then None
    else
      var current := t.runs[id];
      match current.status
      case Cancelled => Some(ClaimResult(t, Stop))
      case Cancelling =>
        var t1 := UpdateStatus(t, id, Cancelled, current.startedAt, Some(finishedAt), current.exitCode,
                               current.errorMessage);
        var t2 :- InsertEvent(t1, id, RunCancelled);
        Some(ClaimResult(t2, Stop))
      case Pending =>
        var t1 := ClaimPending(t, id, startedAt);
        var t2 :- InsertEvent(t1, id, RunStarted);
        Some(ClaimResult(t2, ClaimVerdict.Claimed))
      case _ => Some(ClaimResult(t, NotClaimed))
  }

  /** The transaction taken when the context ended between the claim and the execution. */
  function CancelBeforeExecuteTx(t: Tables, id: int, run: Run, finishedAt: Time): Option<Tables> {
    InsertEvent(UpdateStatus(t, id, Cancelled, run.startedAt, Some(finishedAt), run.exitCode, run.errorMessage),
                id, RunCancelled)
  }

  /** How the switch of the last transaction classifies an outcome. */
  datatype Verdict = Succeeded | TimedOut | WasCancelled | DidFail {
    predicate Retryable() {
      TimedOut? || DidFail?
    }

    function Status(): RunStatus {
      match this
      case Succeeded => Success
      case TimedOut => Timeout
      case WasCancelled => Cancelled
      case DidFail => Failed
    }

    function Event(): EventType {
      match this
      case Succeeded => RunCompleted
      case TimedOut => RunTimeout
      case WasCancelled => RunCancelled
      case DidFail => RunFailed
    }
  }

  function Classify(o: Outcome): Verdict {
    if o.execErr.None? then Succeeded
    else if o.ctxErr == Some(DeadlineExceeded) then TimedOut
    else if o.ctxErr == Some(Canceled) then WasCancelled
    else DidFail
  }

  function ReportedExitCode(o: Outcome): int {
    match o.result
    case None => -1
    case Some(res) => res.exitCode
  }

  /** run with the paths that Execute reported. */
  function WithPaths(run: Run, o: Outcome): Run {
    match o.result
    case None => run
    case Some(res) => run.(logPath := if res.logPath != "" then Some(res.logPath) else run.logPath,
                           resultPath := if res.resultPath != "" then Some(res.resultPath) else run.resultPath)
  }

  predicate ShouldRetry(job: Job, run: Run) {
    job.retryLimit > 0 && run.attempt < job.retryLimit
  }

  /** buildRetryRun; RunRepo.Create stamps the creation time. */
  function BuildRetryRun(run: Run, createdAt: Time): Run {
    Run(run.jobId, run.scheduledAt, None, None, Pending, run.attempt + 1, None, None, None, None, createdAt)
  }

  function RetryTx(t: Tables, job: Job, run: Run, createdAt: Time): Option<Tables> {
    if !ShouldRetry(job, run) then Some(t)
    else
      var t1 :- InsertRun(t, BuildRetryRun(run, createdAt));
      InsertEvent(t1, t1.runSeq, RunCreated)
  }

  /** The outcome of a run, its event and, if due, the retry row. */
  function ConcludeTx(t: Tables, id: int, run: Run, job: Job, o: Outcome, finishedAt: Time,
                      createdAt: Time): Option<Tables> {
    match Classify(o)
    case Succeeded =>
      InsertEvent(UpdateStatus(t, id, Success, run.startedAt, Some(finishedAt), Some(0), None), id, RunCompleted)
    case TimedOut =>
      var t1 :- InsertEvent(UpdateStatus(t, id, Timeout, run.startedAt, Some(finishedAt), Some(ReportedExitCode(o)),
                                         Some(JobTimeout)), id, RunTimeout);
      RetryTx(t1, job, run, createdAt)
    case WasCancelled =>
      InsertEvent(UpdateStatus(t, id, Cancelled, run.startedAt, Some(finishedAt), None, Some(ContextCancelled)),
                  id, RunCancelled)
    case DidFail =>
      var t1 :- InsertEvent(UpdateStatus(t, id, Failed, run.startedAt, Some(finishedAt), Some(ReportedExitCode(o)),
                                         Some(ExecError(o.execErr.value))), id, RunFailed);
      RetryTx(t1, job, run, createdAt)
  }

  /** The last transaction of runWorker. */
  function FinalizeTx(t: Tables, id: int, run: Run, job: Job, o: Outcome, finishedAt: Time,
                      createdAt: Time): Option<Tables> {
    var run1 := WithPaths(run, o);
    ConcludeTx(if o.result.Some? then UpdateLogArtifacts(t, id, run1.logPath, run1.resultPath) else t,
               id, run, job, o, finishedAt, createdAt)
  }

  // ---------- Due jobs ----------

  /** isRunningRunStale. */
  predicate Stale(cfg: Config, run: Run, now: Time, timeoutSec: int) {
    var effective := EffectiveTimeout(cfg, timeoutSec);
    effective > 0 &&
    if run.startedAt.None? || run.startedAt.value == ZERO_TIME then
      run.createdAt != ZERO_TIME && now - run.createdAt >= effective * SECOND
    else
      now - run.startedAt.value >= effective * SECOND
  }

  /** The row that finalizeStaleRunningRun leaves. */
  function Reclaimed(cfg: Config, run: Run, now: Time, timeoutSec: int): Run {
    var started := if run.startedAt.None? || run.startedAt.value == ZERO_TIME then run.createdAt
      else run.startedAt.value;
    run.(status := Timeout, startedAt := Some(started), finishedAt := Some(now), exitCode := Some(-1),
         errorMessage := Some(StaleDiscarded(EffectiveTimeout(cfg, timeoutSec))))
  }

  /** One turn of the loop over the running rows. */
  function ReclaimOne(cfg: Config, t: Tables, id: int, now: Time, timeoutSec: int): Tables {
    if id in t.runs && Stale(cfg, t.runs[id], now, timeoutSec) then
      t.(runs := t.runs[id := Reclaimed(cfg, t.runs[id], now, timeoutSec)],
         events := t.events + [RunEvent(id, RunTimeout)])
    else t
  }

  function ReclaimAll(cfg: Config, t: Tables, listed: seq<int>, now: Time, timeoutSec: int): Tables {
    if listed == [] then t
    else ReclaimOne(cfg, ReclaimAll(cfg, t, listed[..|listed| - 1], now, timeoutSec), listed[|listed| - 1], now,
                    timeoutSec)
  }

  /** The listed runs that are still active, in listing order. */
  function Active(cfg: Config, t: Tables, listed: seq<int>, now: Time, timeoutSec: int): seq<int> {
    if listed == [] then []
    else
      var id := listed[|listed| - 1];
      Active(cfg, t, listed[..|listed| - 1], now, timeoutSec) +
      if id in t.runs && !Stale(cfg, t.runs[id], now, timeoutSec) then [id] else []
  }

  function SkippedRun(jobId: int, scheduledAt: Time, now: Time, active: int, next: Time, createdAt: Time): Run {
    Run(jobId, scheduledAt, None, Some(now), Skipped, 0, None, Some(ForbidSkipped(active, next)), None, None, createdAt)
  }

  function PendingRun(jobId: int, scheduledAt: Time, createdAt: Time): Run {
    Run(jobId, scheduledAt, None, None, Pending, 0, None, None, None, None, createdAt)
  }

  /** Insert an attempt-0 row with its first event. */
  function AddRun(t: Tables, run: Run, kind: EventType): Option<Tables> {
    var t1 :- InsertRun(t, run);
    InsertEvent(t1, t1.runSeq, kind)
  }

  /** The tables after the loop over the listed running rows, which only a forbid job runs. */
  function DueReclaimed(cfg: Config, t: Tables, job: Job, now: Time, listed: seq<int>): Tables {
    if job.policy.Forbid? then ReclaimAll(cfg, t, listed, now, job.timeoutSec) else t
  }

  function DueActive(cfg: Config, t: Tables, job: Job, now: Time, listed: seq<int>): seq<int> {
    if job.policy.Forbid? then Active(cfg, t, listed, now, job.timeoutSec) else []
  }

  /** The row a due slot gets: skipped beside an active run, pending otherwise. */
  function DueRow(jobId: int, slot: Time, active: seq<int>, now: Time, next: Time, createdAt: Time): Run {
    if active != [] then SkippedRun(jobId, slot, now, active[0], next, createdAt)
      else PendingRun(jobId, slot, createdAt)
  }

  function FirstEvent(run: Run): EventType {
    if run.status.Skipped? then RunSkipped else RunCreated
  }

  /** processDueJob from a due job row; next is the computed next run time and listed the running rows. */
  function DueTx(cfg: Config, t: Tables, jobId: int, job: Job, now: Time, next: Time,
                 listed: seq<int>, createdAt: Time): Option<Tables>
    requires job.nextRunAt.Some?
  {
    var slot := job.nextRunAt.value;
    var row := DueRow(jobId, slot, DueActive(cfg, t, job, now, listed), now, next, createdAt);
    var u :- AddRun(DueReclaimed(cfg, t, job, now, listed), row, FirstEvent(row));
    Some(UpdateScheduling(u, jobId, next, slot))
  }

  // ---------- Services ----------

  /** TriggerJob. */
  function TriggerTx(t: Tables, jobId: int, now: Time, createdAt: Time): Option<Tables> {
    AddRun(t, PendingRun(jobId, now, createdAt), RunCreated)
  }

  /** The status CancelRun asks for, if any. */
  function CancelTarget(status: RunStatus): Option<RunStatus> {
    match status
    case Pending => Some(Cancelled)
    case Running => Some(Cancelling)
    case Cancelling => Some(Cancelling)
    case _ => None
  }

  /** The write of CancelRun, with the columns it read before. */
  function CancelWrite(t: Tables, id: int, target: RunStatus, read: Run): Tables {
    UpdateStatus(t, id, target, read.startedAt, read.finishedAt, read.exitCode, read.errorMessage)
  }

  /** ListTerminalBefore and DeleteTerminalBefore select the same rows, by text. */
  predicate Prunable(run: Run, before: Time) {
    run.status.Terminal() && run.finishedAt.Some? && TextBefore(run.finishedAt.value, before)
  }

  function PrunableRuns(t: Tables, before: Time): set<int> {
    set r | r in t.runs && Prunable(t.runs[r], before)
  }

  function PruneTx(t: Tables, before: Time): Tables {
    DeleteRuns(t, PrunableRuns(t, before))
  }
}
