/** The records of internal/model: jobs, runs, run events, and what an execution returns. */
module Model {

  datatype Option<+T> = None | Some(value: T) {
    predicate IsFailure() {
      None?
    }

    function PropagateFailure<U>(): Option<U>
      requires None?
    {
      None
    }

    function Extract(): T
      requires Some?
    {
      value
    }
  }

  /** An instant: nanoseconds since 0000-01-01T00:00:00Z (see Instants.Nanos). */
  type Time = int

  const SECOND: Time := 1_000_000_000

  /** Go's zero time, 0001-01-01T00:00:00Z; year 0 has 366 days. */
  const ZERO_TIME: Time := 366 * 86400 * SECOND

  datatype RunStatus =
    | Pending | Running | Cancelling
    | Success | Failed | Timeout | Cancelled | Skipped
  {
    /** The five statuses that retention lists and CancelRun leaves alone. */
    predicate Terminal() {
      Success? || Failed? || Timeout? || Cancelled? || Skipped?
    }
  }

  datatype EventType =
    | RunCreated | RunStarted | RunSkipped
    | RunCompleted | RunFailed | RunTimeout | RunCancelled
  {
    /** The events written together with a terminal status after the run has started. */
    predicate Final() {
      RunCompleted? || RunFailed? || RunTimeout? || RunCancelled?
    }
  }

  datatype RunEvent = RunEvent(runId: int, kind: EventType)

  datatype Message =
    | JobTimeout
    | ContextCancelled
    | ExecError(text: string)
    | StaleDiscarded(timeoutSec: int)
    | ForbidSkipped(activeRun: int, next: Time)

  datatype Run = Run(
    jobId: int,
    scheduledAt: Time,
    startedAt: Option<Time>,
    finishedAt: Option<Time>,
    status: RunStatus,
    attempt: int,
    exitCode: Option<int>,
    errorMessage: Option<Message>,
    logPath: Option<string>,
    resultPath: Option<string>,
    createdAt: Time)
  {
    /** The columns of UNIQUE(job_id, scheduled_at, attempt). */
    function Key(): RunKey {
      RunKey(jobId, scheduledAt, attempt)
    }
  }

  datatype RunKey = RunKey(jobId: int, scheduledAt: Time, attempt: int)

  datatype Policy = Allow | Forbid

  datatype Schedule = Interval(sec: Option<int>) | Cron(expr: Option<string>)

  datatype Job = Job(
    enabled: bool,
    schedule: Schedule,
    policy: Policy,
    timeoutSec: int,
    retryLimit: int,
    nextRunAt: Option<Time>,
    lastScheduledAt: Option<Time>)

  datatype ExecResult = ExecResult(exitCode: int, logPath: string, resultPath: string)

  datatype ContextError = DeadlineExceeded | Canceled

  /** What Execute returned, and what runCtx.Err() says afterwards. */
  datatype Outcome = Outcome(result: Option<ExecResult>, execErr: Option<string>, ctxErr: Option<ContextError>)

  /** The timeout settings of config.SchedulerConfig. */
  datatype Config = Config(defaultTimeoutSec: int, maxTimeoutSec: int, allowUnlimited: bool)
}
