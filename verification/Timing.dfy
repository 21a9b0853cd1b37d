/** The times of the scheduler in terms of its settings: the next run time, the timeout, and what is overdue. */
module Timing {
  import opened Model
  import opened Transactions

  // ---------- The next run time ----------

  /** The next run time after a reading of the clock: so many seconds later, or what the cron library answers. */
  predicate RunsNext(schedule: Schedule, now: Time, cronNext: Option<Time>, next: Time) {
    match schedule
    case Interval(sec) => sec.Some? && sec.value > 0 && next == now + sec.value * 1_000_000_000
    case Cron(expr) => expr.Some? && expr.value != "" && cronNext == Some(next)
  }

  /** The interval is missing or not positive, or the expression or its answer is missing. */
  predicate NeverRuns(schedule: Schedule, cronNext: Option<Time>) {
    match schedule
    case Interval(sec) => sec.None? || sec.value <= 0
    case Cron(expr) => expr.None? || expr.value == "" || cronNext.None?
  }

  lemma NextRunIs(schedule: Schedule, now: Time, cronNext: Option<Time>)
    ensures ComputeNextRunAt(schedule, now, cronNext).None? <==> NeverRuns(schedule, cronNext)
    ensures forall next :: ComputeNextRunAt(schedule, now, cronNext) == Some(next)
                           <==> RunsNext(schedule, now, cronNext, next)
  {}

  // ---------- The timeout ----------

  /** A run with this setting may take so many seconds; 0 or less is for ever. */
  predicate MayTake(cfg: Config, timeoutSec: int, seconds: int) {
    && (timeoutSec == 0 && cfg.allowUnlimited ==> seconds == 0)
    && (timeoutSec == 0 && !cfg.allowUnlimited ==>
          seconds == if cfg.defaultTimeoutSec > 0 then cfg.defaultTimeoutSec else 3600)
    && (timeoutSec != 0 && cfg.maxTimeoutSec > 0 ==>
          seconds == if timeoutSec <= cfg.maxTimeoutSec then timeoutSec else cfg.maxTimeoutSec)
    && (timeoutSec != 0 && cfg.maxTimeoutSec <= 0 ==> seconds == if timeoutSec <= 86400 then timeoutSec else 86400)
  }

  /** A run with this setting has a timeout. */
  predicate HasTimeout(cfg: Config, timeoutSec: int) {
    timeoutSec > 0 || (timeoutSec == 0 && !cfg.allowUnlimited)
  }

  lemma TimeoutIs(cfg: Config, timeoutSec: int)
    ensures forall seconds :: MayTake(cfg, timeoutSec, seconds) <==> seconds == EffectiveTimeout(cfg, timeoutSec)
    ensures EffectiveTimeout(cfg, timeoutSec) > 0 <==> HasTimeout(cfg, timeoutSec)
  {}

  /** What internal/config accepts of these settings. */
  predicate ValidConfig(cfg: Config) {
    && cfg.defaultTimeoutSec >= 0 && (cfg.defaultTimeoutSec == 0 ==> cfg.allowUnlimited)
    && 0 < cfg.maxTimeoutSec && cfg.defaultTimeoutSec <= cfg.maxTimeoutSec
  }

  /** resolveTimeoutSec under the policy of NewJobServiceWithTimeoutPolicy; None is a validation error. */
  function AcceptedTimeout(cfg: Config, requested: Option<int>): Option<int> {
    var max := if cfg.maxTimeoutSec <= 0 then 86400 else cfg.maxTimeoutSec;
    match requested
    case None => Some(if cfg.defaultTimeoutSec == 0 && !cfg.allowUnlimited then 3600 else cfg.defaultTimeoutSec)
    case Some(sec) =>
      if sec < 0 || (sec == 0 && !cfg.allowUnlimited) || sec > max then None else Some(sec)
  }

  /**
   A timeout is accepted exactly if it is not negative and Execute would get it unchanged. The default
   reaches Execute unchanged exactly if it is within the maximum, as it is in every valid configuration.
   */
  lemma AcceptedTimeoutIsKept(cfg: Config, requested: Option<int>)
    ensures var accepted := AcceptedTimeout(cfg, requested);
            && (requested.Some? ==>
                  var sec := requested.value;
                  accepted == if sec >= 0 && MayTake(cfg, sec, sec) then requested else None)
            && (requested.None? ==>
                  && accepted.Some?
                  && var most := if cfg.maxTimeoutSec > 0 then cfg.maxTimeoutSec else 86400;
                     MayTake(cfg, accepted.value, accepted.value) <==> accepted.value <= most)
            && (ValidConfig(cfg) && accepted.Some? ==> MayTake(cfg, accepted.value, accepted.value))
  {}

  // ---------- Overdue runs ----------

  /** When a running row began to run; a row that does not say began when it was created. */
  function Began(row: Run): Time {
    if row.startedAt.Some? && row.startedAt.value != ZERO_TIME then row.startedAt.value else row.createdAt
  }

  /** The row has been running for so many seconds, which are a limit. */
  predicate Overdue(row: Run, now: Time, seconds: int) {
    seconds > 0 && Began(row) != ZERO_TIME && Began(row) + seconds * 1_000_000_000 <= now
  }

  /** The row that the due-job loop leaves of an overdue one. */
  function Closed(row: Run, now: Time, seconds: int): Run {
    row.(status := Timeout, startedAt := Some(Began(row)), finishedAt := Some(now), exitCode := Some(-1),
         errorMessage := Some(StaleDiscarded(seconds)))
  }

  lemma OverdueIs(cfg: Config, row: Run, now: Time, timeoutSec: int, seconds: int)
    requires MayTake(cfg, timeoutSec, seconds)
    ensures Stale(cfg, row, now, timeoutSec) <==> Overdue(row, now, seconds)
    ensures Reclaimed(cfg, row, now, timeoutSec) == Closed(row, now, seconds)
  {
    TimeoutIs(cfg, timeoutSec);
  }
}
