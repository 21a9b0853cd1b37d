/**
 What the steps that schedule a job write: the next run time after a clock reading, the row of a
 slot or of a manual trigger, and the rows that a scan closes, column by column.
 */
module JobChanges {
  import opened Model
  import opened Tables
  import opened Transactions
  import opened Lifecycle
  import opened Invariant
  import opened RowSteps
  import opened SlotProgress
  import opened Timing

  // ---------- A scan ----------

  /** The transaction of a due job commits: it adds at least a row. */
  ghost predicate Schedules(s: System, a: Action) {
    a.ScanJob? && Enabled(s, a) && Apply(s, a).db != s.db
  }

  lemma SchedulesTx(s: System, a: Action)
    requires Inv(s) && Schedules(s, a)
    ensures var e := s.scan.due[0];
            && e.job.nextRunAt.Some? && ComputeNextRunAt(e.job.schedule, s.scan.now, a.cronNext).Some?
            && DueTx(s.cfg, s.db, e.jobId, e.job, s.scan.now,
                     ComputeNextRunAt(e.job.schedule, s.scan.now, a.cronNext).value, a.listed, a.createdAt)
               == Some(Apply(s, a).db)
  {}

  /**
   A scan moves the job's next run time to the one after the scan's clock reading and records the
   slot that it takes; no other job, and nothing else of this one, changes.
   */
  lemma ScanSetsNextRun(s: System, a: Action)
    requires Inv(s) && Schedules(s, a)
    ensures var e, before, after := s.scan.due[0], s.db.jobs, Apply(s, a).db.jobs;
            && e.jobId in before && e.jobId in after && after[e.jobId].nextRunAt.Some?
            && RunsNext(e.job.schedule, s.scan.now, a.cronNext, after[e.jobId].nextRunAt.value)
            && after == before[e.jobId := before[e.jobId].(
                 nextRunAt := after[e.jobId].nextRunAt, lastScheduledAt := e.job.nextRunAt)]
  {
    SchedulesTx(s, a);
    var e := s.scan.due[0];
    NextRunIs(e.job.schedule, s.scan.now, a.cronNext);
    var next := ComputeNextRunAt(e.job.schedule, s.scan.now, a.cronNext).value;
    DueEffect(s.cfg, s.db, e.jobId, e.job, s.scan.now, next, a.listed, a.createdAt);
    DueReclaimedKeeps(s.cfg, s.db, e.jobId, e.job, s.scan.now, a.listed);
  }

  /** It changes nothing exactly when it fails, no next run time can be had, or the slot cannot be taken. */
  lemma ScanChangesIff(s: System, a: Action)
    requires Inv(s) && a.ScanJob? && Enabled(s, a)
    ensures var e := s.scan.due[0];
            Schedules(s, a) <==>
              && a.commit && e.job.nextRunAt.Some? && !NeverRuns(e.job.schedule, a.cronNext)
              && e.jobId in s.db.jobs && !KeyTaken(s.db, RunKey(e.jobId, e.job.nextRunAt.value, 0))
  {
    var e := s.scan.due[0];
    NextRunIs(e.job.schedule, s.scan.now, a.cronNext);
    if e.job.nextRunAt.Some? && !NeverRuns(e.job.schedule, a.cronNext) {
      var next := ComputeNextRunAt(e.job.schedule, s.scan.now, a.cronNext).value;
      DueCommitsIff(s.cfg, s.db, e.jobId, e.job, s.scan.now, next, a.listed, a.createdAt);
      if DueTx(s.cfg, s.db, e.jobId, e.job, s.scan.now, next, a.listed, a.createdAt).Some? {
        DueEffect(s.cfg, s.db, e.jobId, e.job, s.scan.now, next, a.listed, a.createdAt);
        DueReclaimedKeeps(s.cfg, s.db, e.jobId, e.job, s.scan.now, a.listed);
      }
    }
  }

  /** Of the rows that were there, a scan closes the overdue ones of a forbid job's page, and changes no other. */
  lemma ScanClosesIff(s: System, a: Action, r: int, seconds: int)
    requires Inv(s) && Schedules(s, a) && r in s.db.runs && MayTake(s.cfg, s.scan.due[0].job.timeoutSec, seconds)
    ensures var e, row, t, u := s.scan.due[0], s.db.runs[r], s.db, Apply(s, a).db;
            var closes := e.job.policy.Forbid? && r in a.listed && Overdue(row, s.scan.now, seconds);
            && r in u.runs
            && u.runs[r] == (if closes then Closed(row, s.scan.now, seconds) else row)
            && EventsOf(u.events, r) == EventsOf(t.events, r) + if closes then [RunTimeout] else []
  {
    SchedulesTx(s, a);
    var e := s.scan.due[0];
    var next := ComputeNextRunAt(e.job.schedule, s.scan.now, a.cronNext).value;
    DueEffect(s.cfg, s.db, e.jobId, e.job, s.scan.now, next, a.listed, a.createdAt);
    DueReclaimedKeeps(s.cfg, s.db, e.jobId, e.job, s.scan.now, a.listed);
    DueLog(s.cfg, s.db, e.jobId, e.job, s.scan.now, next, a.listed, a.createdAt, r);
    OverdueIs(s.cfg, s.db.runs[r], s.scan.now, e.job.timeoutSec, seconds);
  }

  /** The first row of the page that is not overdue. */
  predicate BlocksFirst(t: Tables, listed: seq<int>, now: Time, seconds: int, i: int) {
    && 0 <= i < |listed| && listed[i] in t.runs && !Overdue(t.runs[listed[i]], now, seconds)
    && forall k | 0 <= k < i :: listed[k] in t.runs && Overdue(t.runs[listed[k]], now, seconds)
  }

  /** Only a forbid job is blocked, by that row; it is not blocked where all of the page are overdue. */
  ghost predicate Blocks(t: Tables, policy: Policy, listed: seq<int>, now: Time, seconds: int, blocker: Option<int>) {
    match blocker
    case None =>
      policy.Allow? || forall i | 0 <= i < |listed| :: listed[i] in t.runs && Overdue(t.runs[listed[i]], now, seconds)
    case Some(r) => policy.Forbid? && exists i :: BlocksFirst(t, listed, now, seconds, i) && r == listed[i]
  }

  lemma {:induction false} FirstActive(cfg: Config, t: Tables, listed: seq<int>, now: Time, timeoutSec: int,
                                       seconds: int)
    requires MayTake(cfg, timeoutSec, seconds) && forall i | 0 <= i < |listed| :: listed[i] in t.runs
    ensures var active := Active(cfg, t, listed, now, timeoutSec);
            if active == [] then forall i | 0 <= i < |listed| :: Overdue(t.runs[listed[i]], now, seconds)
            else exists i :: BlocksFirst(t, listed, now, seconds, i) && active[0] == listed[i]
  {
    if listed != [] {
      var most, id := listed[..|listed| - 1], listed[|listed| - 1];
      FirstActive(cfg, t, most, now, timeoutSec, seconds);
      OverdueIs(cfg, t.runs[id], now, timeoutSec, seconds);
      if Active(cfg, t, most, now, timeoutSec) != [] {
        var i :| BlocksFirst(t, most, now, seconds, i) && Active(cfg, t, most, now, timeoutSec)[0] == most[i];
        assert BlocksFirst(t, listed, now, seconds, i);
      } else if !Overdue(t.runs[id], now, seconds) {
        assert BlocksFirst(t, listed, now, seconds, |listed| - 1);
      }
    }
  }

  /** The row of a slot, which active blocks if it is there, with its next run time. */
  predicate SlotRow(row: Run, j: int, slot: Time, blocker: Option<int>, now: Time, next: Time, createdAt: Time) {
    match blocker
    case None => row == Run(j, slot, None, None, Pending, 0, None, None, None, None, createdAt)
    case Some(r) =>
      row == Run(j, slot, None, Some(now), Skipped, 0, None, Some(ForbidSkipped(r, next)), None, None, createdAt)
  }

  /** One row is new: at the job's old next run time, pending or skipped, with its first event. */
  ghost predicate AddsRow(t: Tables, u: Tables, e: DueEntry, blocker: Option<int>, now: Time, createdAt: Time) {
    var x := t.runSeq + 1;
    && u.runs.Keys == t.runs.Keys + {x} && x !in t.runs && e.job.nextRunAt.Some?
    && e.jobId in u.jobs && u.jobs[e.jobId].nextRunAt.Some?
    && SlotRow(u.runs[x], e.jobId, e.job.nextRunAt.value, blocker, now, u.jobs[e.jobId].nextRunAt.value, createdAt)
    && EventsOf(u.events, x) == [if blocker.None? then RunCreated else RunSkipped]
  }

  /** A scan adds one row, which is skipped for the first row of a forbid job's page that is not overdue. */
  lemma ScanAddsRow(s: System, a: Action, seconds: int) returns (blocker: Option<int>)
    requires Inv(s) && Schedules(s, a) && MayTake(s.cfg, s.scan.due[0].job.timeoutSec, seconds)
    ensures AddsRow(s.db, Apply(s, a).db, s.scan.due[0], blocker, s.scan.now, a.createdAt)
    ensures Blocks(s.db, s.scan.due[0].job.policy, a.listed, s.scan.now, seconds, blocker)
  {
    SchedulesTx(s, a);
    var e := s.scan.due[0];
    var next := ComputeNextRunAt(e.job.schedule, s.scan.now, a.cronNext).value;
    blocker := BlockerOf(s.cfg, s.db, e.jobId, e.job, s.scan.now, a.listed, seconds);
    AddedRow(s.cfg, s.db, e.jobId, e.job, s.scan.now, next, a.listed, a.createdAt);
  }

  lemma BlockerOf(cfg: Config, t: Tables, j: int, job: Job, now: Time, listed: seq<int>, seconds: int)
    returns (blocker: Option<int>)
    requires RunningListing(t, j, listed) && MayTake(cfg, job.timeoutSec, seconds)
    ensures Blocks(t, job.policy, listed, now, seconds, blocker)
    ensures var active := DueActive(cfg, t, job, now, listed);
            blocker == if active == [] then None else Some(active[0])
  {
    var active := DueActive(cfg, t, job, now, listed);
    assert forall i | 0 <= i < |listed| :: IsRunningOf(t, j, listed[i]);
    FirstActive(cfg, t, listed, now, job.timeoutSec, seconds);
    blocker := if active == [] then None else Some(active[0]);
  }

  lemma AddedRow(cfg: Config, t: Tables, j: int, job: Job, now: Time, next: Time, listed: seq<int>, createdAt: Time)
    requires Schema(t) && RowsOk(t) && job.nextRunAt.Some? && RunningListing(t, j, listed)
    requires DueTx(cfg, t, j, job, now, next, listed, createdAt).Some?
    ensures var u := DueTx(cfg, t, j, job, now, next, listed, createdAt).value;
            var active := DueActive(cfg, t, job, now, listed);
            var blocker := if active == [] then None else Some(active[0]);
            AddsRow(t, u, DueEntry(j, job), blocker, now, createdAt)
  {
    DueEffect(cfg, t, j, job, now, next, listed, createdAt);
    DueReclaimedKeeps(cfg, t, j, job, now, listed);
    var t1, x := DueReclaimed(cfg, t, job, now, listed), t.runSeq + 1;
    NoEventsOf(t1.events, x);
    EventsOfAppend(t1.events, RunEvent(x, FirstEvent(DueRow(j, job.nextRunAt.value, DueActive(cfg, t, job, now, listed),
                                                            now, next, createdAt))), x);
  }

  // ---------- CreateJob, UpdateJob, TriggerJob ----------

  /** CreateJob stores the job with the next run time after its clock reading, or fails for want of one. */
  lemma CreateSetsNextRun(s: System, job: Job, now: Time, cronNext: Option<Time>)
    ensures Enabled(s, CreateJob(job, now, cronNext)) <==> !NeverRuns(job.schedule, cronNext)
    ensures !NeverRuns(job.schedule, cronNext) ==>
              var u, j := Apply(s, CreateJob(job, now, cronNext)).db, s.db.jobSeq + 1;
              && j in u.jobs && u.jobs[j].nextRunAt.Some?
              && RunsNext(job.schedule, now, cronNext, u.jobs[j].nextRunAt.value)
              && u == s.db.(jobs := s.db.jobs[j := job.(nextRunAt := u.jobs[j].nextRunAt)], jobSeq := j)
  {
    NextRunIs(job.schedule, now, cronNext);
  }

  /** The steps of one UpdateJob, and the crash that ends it. */
  predicate Touches(a: Action, u: int) {
    a.Crash? || ((a.UpdateRead? || a.UpdateClock? || a.UpdateCommit?) && a.u == u)
  }

  lemma CallKept(s: System, a: Action, u: int)
    requires Enabled(s, a) && !Touches(a, u) && u in s.updates
    ensures u in Apply(s, a).updates && Apply(s, a).updates[u] == s.updates[u]
  {
    if !a.UpdateRead? && !a.UpdateClock? && !a.UpdateCommit? {
      UpdatesUntouched(s, a);
    }
  }

  lemma UpdatesUntouched(s: System, a: Action)
    requires Enabled(s, a) && !a.UpdateRead? && !a.UpdateClock? && !a.UpdateCommit? && !a.Crash?
    ensures Apply(s, a).updates == s.updates
  {}

  lemma {:induction false} CallStays(s: System, acts: seq<Action>, u: int)
    requires Exec(s, acts).Some? && (forall i | 0 <= i < |acts| :: !Touches(acts[i], u)) && u in s.updates
    ensures u in Exec(s, acts).value.updates && Exec(s, acts).value.updates[u] == s.updates[u]
    decreases |acts|
  {
    if acts != [] {
      CallKept(s, acts[0], u);
      CallStays(Apply(s, acts[0]), acts[1..], u);
    }
  }

  /**
   An UpdateJob over its three steps, with anything else between them: it ends without a write exactly
   when no next run time can be had; else it writes the job as asked for, with the next run time after
   its own clock reading and the last slot of the row that it had read.
   */
  lemma UpdateSetsNextRun(s: System, u: int, j: int, job: Job, before: seq<Action>, now: Time, cronNext: Option<Time>,
                          after: seq<Action>)
    requires Enabled(s, UpdateRead(u, j, job)) && j in s.db.jobs
    requires forall i | 0 <= i < |before| :: !Touches(before[i], u)
    requires Exec(Apply(s, UpdateRead(u, j, job)), before).Some?
    ensures var s1 := Exec(Apply(s, UpdateRead(u, j, job)), before).value;
            && Enabled(s1, UpdateClock(u, now, cronNext))
            && var s2 := Apply(s1, UpdateClock(u, now, cronNext));
               && s2.db == s1.db && (u in s2.updates <==> !NeverRuns(job.schedule, cronNext))
               && (u in s2.updates && Exec(s2, after).Some?
                   && (forall i | 0 <= i < |after| :: !Touches(after[i], u)) ==>
                     var s3 := Exec(s2, after).value;
                     && Enabled(s3, UpdateCommit(u, j, true))
                     && Writes(s3.db, Apply(s3, UpdateCommit(u, j, true)).db, j, job, now, cronNext,
                               s.db.jobs[j].lastScheduledAt))
  {
    var s0 := Apply(s, UpdateRead(u, j, job));
    CallStays(s0, before, u);
    var s1 := Exec(s0, before).value;
    NextRunIs(job.schedule, now, cronNext);
    var s2 := Apply(s1, UpdateClock(u, now, cronNext));
    if u in s2.updates && (forall i | 0 <= i < |after| :: !Touches(after[i], u)) && Exec(s2, after).Some? {
      CallStays(s2, after, u);
    }
  }

  /** The job's row, if it is there, is the one asked for; nothing else changes. */
  predicate Writes(t: Tables, u: Tables, j: int, job: Job, now: Time, cronNext: Option<Time>, last: Option<Time>) {
    if j !in t.jobs then u == t
    else
      && j in u.jobs && u.jobs[j].nextRunAt.Some?
      && RunsNext(job.schedule, now, cronNext, u.jobs[j].nextRunAt.value)
      && u == t.(jobs := t.jobs[j := job.(nextRunAt := u.jobs[j].nextRunAt, lastScheduledAt := last)])
  }

  /** TriggerJob adds a pending row at its clock reading, unless it fails, the job is gone or a row has the key. */
  lemma TriggerAddsRow(s: System, j: int, now: Time, createdAt: Time, commit: bool)
    requires Inv(s)
    ensures var t, u, x := s.db, Apply(s, Trigger(j, now, createdAt, commit)).db, s.db.runSeq + 1;
            if commit && j in t.jobs && !KeyTaken(t, RunKey(j, now, 0)) then
              && u.runs == t.runs[x := Run(j, now, None, None, Pending, 0, None, None, None, None, createdAt)]
              && x !in t.runs && u.runSeq == x && u.jobs == t.jobs && u.jobSeq == t.jobSeq
              && u.events == t.events + [RunEvent(x, RunCreated)]
            else u == t
  {
    AddRunCommitsIff(s.db, PendingRun(j, now, createdAt), RunCreated);
  }
}
