/**
 Rows that no worker looks after any more, as a crash leaves them: what can still happen to them.
 The dispatch loop lists pending rows only, and stale running rows are closed for forbid jobs only.
 */
module Orphans {
  import opened Model
  import opened Tables
  import opened Transactions
  import opened Lifecycle
  import opened Invariant
  import opened RowSteps
  import opened ExecuteOnce
  import opened Instants
  import opened SlotProgress
  import opened ForbidRecovery
  import opened Listings
  import opened Paths
  import opened Holders
  import opened DeadRows
  import opened Timing
  import opened Continuations

  /** No worker, no entry of a dispatch round, and no CancelRun that would write anything but cancelling. */
  ghost predicate Unattended(s: System, r: int) {
    && (forall w <- s.workers :: s.workers[w].runId != r)
    && (s.dispatcher.Round? ==> r !in s.dispatcher.left)
    && (forall c <- s.cancels :: s.cancels[c].runId == r ==> s.cancels[c].target.Cancelling?)
  }

  ghost predicate Open(s: System, r: int) {
    r in s.db.runs && (s.db.runs[r].status.Running? || s.db.runs[r].status.Cancelling?)
  }

  lemma StaysUnattended(s: System, a: Action, r: int)
    requires Inv(s) && Enabled(s, a) && Unattended(s, r) && Open(s, r)
    ensures Unattended(Apply(s, a), r)
  {
    var s' := Apply(s, a);
    forall w | w in s'.workers ensures s'.workers[w].runId != r {
      WorkerRowsStep(s, a, w);
    }
    if s'.dispatcher.Round? && r in s'.dispatcher.left {
      RoundRows(s, a, r);
    }
    forall c | c in s'.cancels && s'.cancels[c].runId == r ensures s'.cancels[c].target.Cancelling? {
      CancelStepOf(s, a, c);
    }
  }

  /** The due-job loop closes row r as stale. */
  ghost predicate Reclaims(s: System, a: Action, r: int) {
    && a.ScanJob? && s.scan.Scan? && s.scan.due != [] && r in s.db.runs
    && s.scan.due[0].jobId == s.db.runs[r].jobId && s.scan.due[0].job.policy.Forbid?
    && Stale(s.cfg, s.db.runs[r], s.scan.now, s.scan.due[0].job.timeoutSec)
  }

  /** The causes of a change, for an unattended open row: it can only be reclaimed or asked to cancel. */
  lemma OpenChange(s: System, a: Action, r: int, before: View, after: View)
    requires RowChange(s, a, r, before, after) && Unattended(s, r)
    requires before.row.status.Running? || before.row.status.Cancelling?
    ensures after == before || ByReclaim(s, a, r, before, after) || after.row.status.Cancelling?
  {}

  /** One step: an unattended row stays open unless it is reclaimed, and once cancelling it stays cancelling. */
  lemma OpenStep(s: System, a: Action, r: int)
    requires Inv(s) && Enabled(s, a) && Unattended(s, r) && Open(s, r) && r in Apply(s, a).db.runs
    ensures Open(Apply(s, a), r) || Reclaims(s, a, r)
    ensures s.db.runs[r].status.Cancelling? ==> Apply(s, a).db.runs[r].status.Cancelling?
  {
    RowStep(s, a, r);
    OpenChange(s, a, r, ViewOf(s.db, r), ViewOf(Apply(s, a).db, r));
  }

  // ---------- Main results ----------

  /** A cancelling row that nobody attends to never leaves that status, whatever the system does. */
  lemma {:induction false} CancellingNeverEnds(s: System, acts: seq<Action>, r: int)
    requires Inv(s) && Exec(s, acts).Some? && Unattended(s, r) && r in s.db.runs && s.db.runs[r].status.Cancelling?
    ensures var t := Exec(s, acts).value.db; r in t.runs ==> t.runs[r].status.Cancelling?
    decreases |acts|
  {
    if acts != [] && r in Exec(s, acts).value.db.runs {
      StillThere(s, acts[0], acts[1..], r);
      StaysUnattended(s, acts[0], r);
      OpenStep(s, acts[0], r);
      CancellingNeverEnds(Apply(s, acts[0]), acts[1..], r);
    }
  }

  /** A crash leaves every row that was being cancelled in cancelling for ever, until it is deleted with its job. */
  lemma CrashStrandsCancelling(s: System, acts: seq<Action>, r: int)
    requires Inv(s) && Exec(Apply(s, Crash), acts).Some? && r in s.db.runs && s.db.runs[r].status.Cancelling?
    ensures var t := Exec(Apply(s, Crash), acts).value.db; r in t.runs ==> t.runs[r].status.Cancelling?
  {
    InvStep(s, Crash);
    CancellingNeverEnds(Apply(s, Crash), acts, r);
  }

  // ---------- When a running row can still be closed ----------

  /** The due-job loop reclaims rows of this policy and timeout. */
  predicate Reclaimable(cfg: Config, policy: Policy, timeoutSec: int) {
    policy.Forbid? && HasTimeout(cfg, timeoutSec)
  }

  /** An open row closes only in a committed scan of its job that finds it stale. */
  lemma ClosedByScan(s: System, a: Action, r: int)
    requires Inv(s) && Enabled(s, a) && Unattended(s, r) && Open(s, r) && r in Apply(s, a).db.runs
             && !Open(Apply(s, a), r)
    ensures Reclaims(s, a, r) && Consumes(s, a, s.db.runs[r].jobId)
  {
    OpenStep(s, a, r);
  }

  lemma SameJob(s: System, a: Action, r: int)
    requires Inv(s) && Enabled(s, a) && r in s.db.runs && r in Apply(s, a).db.runs
    ensures Apply(s, a).db.runs[r].jobId == s.db.runs[r].jobId
  {
    InvStep(s, a);
    assert Apply(s, a).db.runs[r].Key() == s.db.runs[r].Key();
  }

  lemma UnclosableStep(s: System, a: Action, r: int, j: int, policy: Policy, timeoutSec: int)
    requires Inv(s) && Enabled(s, a) && Unattended(s, r) && Open(s, r) && s.db.runs[r].jobId == j
    requires Governs(s, j, policy, timeoutSec) && !Reclaimable(s.cfg, policy, timeoutSec) && !Replaces(a, j)
    requires Inv(Apply(s, a)) && r in Apply(s, a).db.runs
    ensures var s' := Apply(s, a);
            && Unattended(s', r) && Open(s', r) && s'.db.runs[r].jobId == j
            && Governs(s', j, policy, timeoutSec) && s'.cfg == s.cfg
  {
    StaysUnattended(s, a, r);
    GovernsStep(s, a, j, policy, timeoutSec);
    SameJob(s, a, r);
    ConfigStays(s, a);
    if !Open(Apply(s, a), r) {
      ClosedByScan(s, a, r);
    }
  }

  /**
   An unattended row of an allow job, or of a forbid job without a
   timeout, never finishes while the job is not replaced.
   */
  lemma {:induction false} UnclosableNeverEnds(s: System, acts: seq<Action>, r: int, j: int, policy: Policy,
                                               timeoutSec: int)
    requires Inv(s) && Exec(s, acts).Some? && Unattended(s, r) && Open(s, r) && s.db.runs[r].jobId == j
    requires Governs(s, j, policy, timeoutSec) && !Reclaimable(s.cfg, policy, timeoutSec)
    requires forall i | 0 <= i < |acts| :: !Replaces(acts[i], j)
    ensures r in Exec(s, acts).value.db.runs ==> Open(Exec(s, acts).value, r)
    decreases |acts|
  {
    if acts != [] && r in Exec(s, acts).value.db.runs {
      StillThere(s, acts[0], acts[1..], r);
      UnclosableStep(s, acts[0], r, j, policy, timeoutSec);
      UnclosableNeverEnds(Apply(s, acts[0]), acts[1..], r, j, policy, timeoutSec);
    }
  }

  /** Nor does one whose job can never fire again. */
  lemma {:induction false} BarredRowNeverEnds(s: System, acts: seq<Action>, r: int, j: int, job: Job)
    requires Inv(s) && Exec(s, acts).Some? && Unattended(s, r) && Open(s, r) && s.db.runs[r].jobId == j
    requires Barred(s, j, job, None) && Keeps(acts, j)
    ensures r in Exec(s, acts).value.db.runs ==> Open(Exec(s, acts).value, r)
    decreases |acts|
  {
    if acts != [] && r in Exec(s, acts).value.db.runs {
      var a := acts[0];
      StillThere(s, a, acts[1..], r);
      StaysUnattended(s, a, r);
      SameJob(s, a, r);
      BarredStep(s, a, j, job, None);
      if !Open(Apply(s, a), r) {
        ClosedByScan(s, a, r);
      }
      BarredRowNeverEnds(Apply(s, a), acts[1..], r, j, job);
    }
  }

  /**
   After a crash, the rows of a job that is not reclaimable never
   finish: no worker is left, and nobody closes them.
   */
  lemma CrashStrandsRuns(s: System, acts: seq<Action>, r: int)
    requires Inv(s) && Exec(Apply(s, Crash), acts).Some? && Open(s, r)
    requires var j := s.db.runs[r].jobId;
             && !Reclaimable(s.cfg, s.db.jobs[j].policy, s.db.jobs[j].timeoutSec)
             && forall i | 0 <= i < |acts| :: !Replaces(acts[i], j)
    ensures var u := Exec(Apply(s, Crash), acts).value; r in u.db.runs ==> Open(u, r)
  {
    var j := s.db.runs[r].jobId;
    InvStep(s, Crash);
    UnclosableNeverEnds(Apply(s, Crash), acts, r, j, s.db.jobs[j].policy, s.db.jobs[j].timeoutSec);
  }

  // ---------- Closing it ----------

  /** No row of these tables carries a time after this one. */
  predicate LatestTime(t: Tables, latest: Time) {
    forall r <- t.runs ::
      && t.runs[r].scheduledAt <= latest && t.runs[r].createdAt <= latest
      && (t.runs[r].startedAt.Some? ==> t.runs[r].startedAt.value <= latest)
  }

  function Latest(a: Time, b: Time): Time {
    if a < b then b else a
  }

  lemma {:induction false} LatestOf(t: Tables, ids: set<int>) returns (latest: Time)
    requires ids <= t.runs.Keys
    ensures forall r <- ids ::
              && t.runs[r].scheduledAt <= latest && t.runs[r].createdAt <= latest
              && (t.runs[r].startedAt.Some? ==> t.runs[r].startedAt.value <= latest)
    decreases |ids|
  {
    latest := 0;
    EmptyOrMember(ids);
    if ids != {} {
      var r :| r in ids;
      var before := LatestOf(t, ids - {r});
      var row := t.runs[r];
      var started := if row.startedAt.Some? then row.startedAt.value else 0;
      latest := Latest(before, Latest(row.scheduledAt, Latest(row.createdAt, started)));
      forall q | q in ids
        ensures t.runs[q].scheduledAt <= latest && t.runs[q].createdAt <= latest
        ensures t.runs[q].startedAt.Some? ==> t.runs[q].startedAt.value <= latest
      {
        assert q == r || q in ids - {r};
      }
    }
  }

  /** Go's zero time is no row's start and creation alike. */
  predicate ClocksRan(t: Tables, j: int) {
    forall r <- RunningIds(t, j) :: t.runs[r].startedAt != Some(ZERO_TIME) || t.runs[r].createdAt != ZERO_TIME
  }

  /** So late that every running row is stale and the next slot is free. */
  predicate LateEnough(cfg: Config, t: Tables, job: Job, now: Time, latest: Time) {
    && LatestTime(t, latest) && job.nextRunAt.Some? && TextAtMost(job.nextRunAt.value, now)
    && job.nextRunAt.value <= now && latest + EffectiveTimeout(cfg, job.timeoutSec) * SECOND <= now && latest <= now
  }

  lemma AllStale(cfg: Config, t: Tables, j: int, job: Job, now: Time, latest: Time, r: int)
    requires RowsOk(t) && ClocksRan(t, j) && r in RunningIds(t, j) && EffectiveTimeout(cfg, job.timeoutSec) > 0
    requires LateEnough(cfg, t, job, now, latest)
    ensures Stale(cfg, t.runs[r], now, job.timeoutSec)
  {
    assert Shape(t.runs[r]);
  }

  /** A reading of the clock that is late enough. */
  function LateReading(cfg: Config, job: Job, latest: Time): (now: Time)
    requires job.nextRunAt.Some? && EffectiveTimeout(cfg, job.timeoutSec) > 0
  {
    Latest(latest, job.nextRunAt.value) + (EffectiveTimeout(cfg, job.timeoutSec) + 1) * SECOND
  }

  lemma LateReadingIsLate(cfg: Config, t: Tables, job: Job, latest: Time)
    requires job.nextRunAt.Some? && EffectiveTimeout(cfg, job.timeoutSec) > 0 && LatestTime(t, latest)
    ensures LateEnough(cfg, t, job, LateReading(cfg, job, latest), latest)
  {
    var now := LateReading(cfg, job, latest);
    assert Sec(job.nextRunAt.value) < Sec(now);
  }

  /** What one late scan does to the running rows of the job: it closes its page and leaves the others. */
  lemma LateScanRows(cfg: Config, t: Tables, j: int, now: Time, next: Time, latest: Time)
    requires Schema(t) && RowsOk(t) && ClocksRan(t, j) && j in t.jobs && t.jobs[j].policy.Forbid?
    requires EffectiveTimeout(cfg, t.jobs[j].timeoutSec) > 0 && LateEnough(cfg, t, t.jobs[j], now, latest)
    requires Fired(cfg, t, j, now, next).Some?
    ensures var u := Fired(cfg, t, j, now, next).value; var page := RunningPage(t, j);
            && (forall q <- page :: q in t.runs && q in u.runs && u.runs[q].status.Timeout?)
            && (forall q <- t.runs :: q in u.runs && (q !in page ==> u.runs[q] == t.runs[q]))
  {
    var job, page := t.jobs[j], RunningPage(t, j);
    RunningPageLists(t, j);
    DueRows(cfg, t, j, job, now, next, page, now);
    forall q | q in page ensures q in t.runs && Stale(cfg, t.runs[q], now, job.timeoutSec) {
      assert IsRunningOf(t, j, q);
      AllStale(cfg, t, j, job, now, latest, q);
    }
  }

  lemma LateScanIds(cfg: Config, t: Tables, j: int, now: Time, next: Time, latest: Time)
    requires Schema(t) && RowsOk(t) && ClocksRan(t, j) && j in t.jobs && t.jobs[j].policy.Forbid?
    requires EffectiveTimeout(cfg, t.jobs[j].timeoutSec) > 0 && LateEnough(cfg, t, t.jobs[j], now, latest)
    requires Fired(cfg, t, j, now, next).Some?
    ensures var u := Fired(cfg, t, j, now, next).value;
            RunningIds(u, j) <= RunningIds(t, j) && ClocksRan(u, j) && forall q <- RunningPage(t, j) ::
              q !in RunningIds(u, j)
  {
    var u, page := Fired(cfg, t, j, now, next).value, RunningPage(t, j);
    LateScanRows(cfg, t, j, now, next, latest);
    RunningPageLists(t, j);
    DueTakesSlot(cfg, t, j, t.jobs[j], now, next, page, now);
    NewRowIsNotRunning(cfg, t, j, t.jobs[j], now, next, page);
    PageCloses(t, u, j, page);
  }

  lemma PageCloses(t: Tables, u: Tables, j: int, page: seq<int>)
    requires u.runs.Keys == t.runs.Keys + {t.runSeq + 1} && !u.runs[t.runSeq + 1].status.Running? && ClocksRan(t, j)
    requires forall q <- page :: q in u.runs && u.runs[q].status.Timeout?
    requires forall q <- t.runs :: q !in page ==> u.runs[q] == t.runs[q]
    ensures RunningIds(u, j) <= RunningIds(t, j) && ClocksRan(u, j) && forall q <- page :: q !in RunningIds(u, j)
  {
    forall q | q in RunningIds(u, j) ensures q in RunningIds(t, j) && u.runs[q] == t.runs[q] {
      assert q in u.runs.Keys && q != t.runSeq + 1 && q !in page;
    }
  }

  lemma NewRowIsNotRunning(cfg: Config, t: Tables, j: int, job: Job, now: Time, next: Time, page: seq<int>)
    requires Schema(t) && RowsOk(t) && job.nextRunAt.Some? && RunningListing(t, j, page)
    requires DueTx(cfg, t, j, job, now, next, page, now).Some?
    ensures var u := DueTx(cfg, t, j, job, now, next, page, now).value;
            t.runSeq + 1 in u.runs && !u.runs[t.runSeq + 1].status.Running?
  {
    DueEffect(cfg, t, j, job, now, next, page, now);
    DueReclaimedKeeps(cfg, t, j, job, now, page);
  }

  /** The job can fire again after a late scan: no row is as late as its next run time. */
  lemma LateScanJob(cfg: Config, t: Tables, j: int, now: Time, next: Time, latest: Time)
    requires Schema(t) && RowsOk(t) && j in t.jobs && CanFire(t, j, t.jobs[j])
             && LateEnough(cfg, t, t.jobs[j], now, latest) && now < next
    requires Fired(cfg, t, j, now, next).Some?
    ensures var u := Fired(cfg, t, j, now, next).value;
            && j in u.jobs && u.jobs[j] == t.jobs[j].(nextRunAt := Some(next), lastScheduledAt := t.jobs[j].nextRunAt)
            && CanFire(u, j, u.jobs[j])
  {
    var u := Fired(cfg, t, j, now, next).value;
    RunningPageLists(t, j);
    DueTakesSlot(cfg, t, j, t.jobs[j], now, next, RunningPage(t, j), now);
    DueKeeps(cfg, t, j, t.jobs[j], now, next, RunningPage(t, j), now);
    forall q | q in u.runs ensures u.runs[q].Key() != RunKey(j, next, 0) {
      if q in t.runs {
        assert u.runs[q].Key() == t.runs[q].Key();
      }
    }
  }

  /** One late scan closes the row, or fewer rows are left running. */
  lemma LateScan(s: System, r: int, j: int) returns (acts: seq<Action>, u: System)
    requires Inv(s) && r in RunningIds(s.db, j) && ClocksRan(s.db, j) && j in s.db.jobs
    requires CanFire(s.db, j, s.db.jobs[j]) && Reclaimable(s.cfg, s.db.jobs[j].policy, s.db.jobs[j].timeoutSec)
    ensures ScanOnly(acts) && Exec(s, acts) == Some(u) && CronSteps(s, acts) && u.cfg == s.cfg && r in u.db.runs
    ensures u.db.runs[r].status.Timeout?
            || (r in RunningIds(u.db, j) && ClocksRan(u.db, j) && |RunningIds(u.db, j)| < |RunningIds(s.db, j)|
                && j in u.db.jobs && CanFire(u.db, j, u.db.jobs[j])
                && u.db.jobs[j].policy == s.db.jobs[j].policy && u.db.jobs[j].timeoutSec == s.db.jobs[j].timeoutSec)
  {
    var job := s.db.jobs[j];
    var latest := LatestOf(s.db, s.db.runs.Keys);
    LateReadingIsLate(s.cfg, s.db, job, latest);
    var now := LateReading(s.cfg, job, latest);
    acts, u := FireAt(s, j, now);
    var next := ComputeNextRunAt(job.schedule, now, Some(now + SECOND)).value;
    LateScanRows(s.cfg, s.db, j, now, next, latest);
    if r !in RunningPage(s.db, j) {
      LateScanIds(s.cfg, s.db, j, now, next, latest);
      LateScanJob(s.cfg, s.db, j, now, next, latest);
      FewerRunning(s.db, u.db, j, r);
    }
  }

  /** A running row of a reclaimable job that can fire is closed by scans that come late enough, page by page. */
  lemma {:induction false} ScansCloseIt(s: System, r: int, j: int) returns (acts: seq<Action>)
    requires Inv(s) && r in RunningIds(s.db, j) && ClocksRan(s.db, j) && j in s.db.jobs
    requires CanFire(s.db, j, s.db.jobs[j]) && Reclaimable(s.cfg, s.db.jobs[j].policy, s.db.jobs[j].timeoutSec)
    ensures ScanOnly(acts) && Exec(s, acts).Some? && CronSteps(s, acts)
    ensures var t := Exec(s, acts).value.db; r in t.runs && t.runs[r].status.Timeout?
    decreases |RunningIds(s.db, j)|
  {
    var first, u := LateScan(s, r, j);
    if u.db.runs[r].status.Timeout? {
      acts := first;
    } else {
      InvExec(s, first);
      var more := ScansCloseIt(u, r, j);
      ExecSplit(s, first, more);
      CronSplit(s, first, more);
      acts := first + more;
    }
  }

  lemma FewerRunning(t: Tables, u: Tables, j: int, r: int)
    requires r in RunningIds(t, j) && r !in RunningPage(t, j) && RunningIds(u, j) <= RunningIds(t, j)
    requires forall q <- RunningPage(t, j) :: q !in RunningIds(u, j)
    ensures |RunningIds(u, j)| < |RunningIds(t, j)|
  {
    RunningPageLists(t, j);
    var q := RunningPage(t, j)[0];
    assert q in RunningPage(t, j) && IsRunningOf(t, j, q);
    SubsetSize(RunningIds(u, j), RunningIds(t, j));
  }

  // ---------- Main results ----------

  ghost predicate ClosedBy(s: System, acts: seq<Action>, r: int) {
    && r in s.db.runs && Keeps(acts, s.db.runs[r].jobId) && Exec(s, acts).Some? && CronSteps(s, acts)
    && r in Exec(s, acts).value.db.runs && Exec(s, acts).value.db.runs[r].status.Terminal()
  }

  ghost predicate CanClose(s: System, r: int) {
    exists acts :: ClosedBy(s, acts, r)
  }

  /**
   A running row that nobody attends to, as every running row after a crash, can be closed in some
   continuation exactly when its job forbids concurrent runs, has an effective timeout, and can still
   fire: it is enabled, has a next run time, and the row that holds the key of that slot, if there is
   one, can still end, and so be deleted.
   */
  lemma RunningRowClosesIff(s: System, r: int)
    requires Inv(s) && s.scan.NoScan? && Unattended(s, r) && r in s.db.runs && s.db.runs[r].status.Running?
    requires ClocksRan(s.db, s.db.runs[r].jobId)
    ensures var j := s.db.runs[r].jobId; var job := s.db.jobs[j];
            CanClose(s, r) <==> Reclaimable(s.cfg, job.policy, job.timeoutSec) && CanFireYet(s, j, job)
  {
    var j := s.db.runs[r].jobId;
    var job := s.db.jobs[j];
    if Reclaimable(s.cfg, job.policy, job.timeoutSec) && CanFireYet(s, j, job) {
      var acts := FreeAndClose(s, r);
      assert ClosedBy(s, acts, r);
    } else {
      forall acts ensures !ClosedBy(s, acts, r) {
        if Keeps(acts, j) && Exec(s, acts).Some? {
          NeverCloses(s, acts, r);
        }
      }
    }
  }

  /** The key of the job's next slot is freed, and then late scans close the row. */
  lemma FreeAndClose(s: System, r: int) returns (acts: seq<Action>)
    requires Inv(s) && Unattended(s, r) && r in s.db.runs && s.db.runs[r].status.Running?
    requires ClocksRan(s.db, s.db.runs[r].jobId)
    requires var j := s.db.runs[r].jobId; var job := s.db.jobs[j];
             Reclaimable(s.cfg, job.policy, job.timeoutSec) && CanFireYet(s, j, job)
    ensures ClosedBy(s, acts, r)
  {
    var j := s.db.runs[r].jobId;
    assert Alone(s, r);
    var free, m := FreeKey(s, RunKey(j, s.db.jobs[j].nextRunAt.value, 0));
    BringsKeeps(s, free, m);
    var close := ScansCloseIt(m, r, j);
    ExecSplit(s, free, close);
    PlainSlots(s, free, j);
    CronSplit(s, free, close);
    PlainKeeps(free, j);
    ScanOnlyKeeps(close, j);
    acts := free + close;
  }

  lemma NeverCloses(s: System, acts: seq<Action>, r: int)
    requires Inv(s) && s.scan.NoScan? && Unattended(s, r) && Open(s, r)
    requires var j := s.db.runs[r].jobId; var job := s.db.jobs[j];
             Keeps(acts, j) && Exec(s, acts).Some?
               && !(Reclaimable(s.cfg, job.policy, job.timeoutSec) && CanFireYet(s, j, job))
    ensures r in Exec(s, acts).value.db.runs ==> Open(Exec(s, acts).value, r)
  {
    var j := s.db.runs[r].jobId;
    var job := s.db.jobs[j];
    if Reclaimable(s.cfg, job.policy, job.timeoutSec) {
      BlockedIff(s, j, job);
      BarredRowNeverEnds(s, acts, r, j, job);
    } else {
      UnclosableNeverEnds(s, acts, r, j, job.policy, job.timeoutSec);
    }
  }
}
