/** What a stranded running row does to a forbid job without a timeout: it never runs again. */
module SkippedForEver {
  import opened Model
  import opened Tables
  import opened Transactions
  import opened Lifecycle
  import opened Invariant
  import opened RowSteps
  import opened SlotProgress
  import opened ForbidRecovery
  import opened DeadRows
  import opened Timing
  import opened Orphans

  /** Every slot the job consumes on the way is skipped. */
  ghost predicate AllSkipped(s: System, acts: seq<Action>, j: int)
    requires Exec(s, acts).Some?
    decreases |acts|
  {
    acts == [] || (StepSkips(s, acts[0], j) && AllSkipped(Apply(s, acts[0]), acts[1..], j))
  }

  ghost predicate StepSkips(s: System, a: Action, j: int)
    requires Enabled(s, a)
  {
    Consumes(s, a, j) ==> s.db.runSeq + 1 in Apply(s, a).db.runs && Apply(s, a).db.runs[s.db.runSeq + 1].status.Skipped?
  }

  /** A page of running rows is not empty while there is one. */
  lemma PageNotEmpty(t: Tables, j: int, listed: seq<int>, r: int)
    requires RunningListing(t, j, listed) && IsRunningOf(t, j, r)
    ensures listed != []
  {}

  lemma RunningRowBlocks(s: System, a: Action, j: int, r: int, timeoutSec: int)
    requires Inv(s) && Enabled(s, a) && Governs(s, j, Forbid, timeoutSec) && !HasTimeout(s.cfg, timeoutSec)
    requires IsRunningOf(s.db, j, r)
    ensures StepSkips(s, a, j)
  {
    if Consumes(s, a, j) {
      ConsumedTx(s, a, j);
      var e := s.scan.due[0];
      var next := ComputeNextRunAt(e.job.schedule, s.scan.now, a.cronNext).value;
      BlockedTx(s.cfg, s.db, j, e.job, s.scan.now, next, a.listed, a.createdAt, r);
    }
  }

  lemma BlockedTx(cfg: Config, t: Tables, j: int, job: Job, now: Time, next: Time, listed: seq<int>, createdAt: Time,
                  r: int)
    requires Schema(t) && RowsOk(t) && RunningListing(t, j, listed) && IsRunningOf(t, j, r)
    requires job.policy.Forbid? && !HasTimeout(cfg, job.timeoutSec) && job.nextRunAt.Some?
    requires DueTx(cfg, t, j, job, now, next, listed, createdAt).Some?
    ensures var u := DueTx(cfg, t, j, job, now, next, listed, createdAt).value;
            t.runSeq + 1 in u.runs && u.runs[t.runSeq + 1].status.Skipped?
  {
    TimeoutIs(cfg, job.timeoutSec);
    SkippedIff(cfg, t, j, job, now, next, listed, createdAt, EffectiveTimeout(cfg, job.timeoutSec));
    PageNotEmpty(t, j, listed, r);
    assert listed[0] in listed && !Stale(cfg, t.runs[listed[0]], now, job.timeoutSec);
  }

  /** No CancelRun has read the row. */
  ghost predicate NoCancel(s: System, r: int) {
    forall c <- s.cancels :: s.cancels[c].runId != r
  }

  predicate Cancels(a: Action, r: int) {
    (a.CancelRead? || a.CancelAtOnce?) && a.runId == r
  }

  lemma NoCancelStep(s: System, a: Action, r: int)
    requires Enabled(s, a) && NoCancel(s, r) && !Cancels(a, r)
    ensures NoCancel(Apply(s, a), r)
  {
    forall c | c in Apply(s, a).cancels ensures Apply(s, a).cancels[c].runId != r {
      CancelStepOf(s, a, c);
    }
  }

  lemma NoChangeLeft(s: System, a: Action, r: int, before: View, after: View)
    requires RowChange(s, a, r, before, after) && Unattended(s, r) && NoCancel(s, r) && !Cancels(a, r)
             && before.row.status.Running?
    requires a.ScanJob? && s.scan.Scan? && s.scan.due != [] && s.scan.due[0].jobId == before.row.jobId ==>
               !HasTimeout(s.cfg, s.scan.due[0].job.timeoutSec)
    ensures after == before
  {}

  /** The row, the job and those who might write the row, as one step leaves them. */
  ghost predicate Held(s: System, r: int, j: int, timeoutSec: int) {
    && Inv(s) && Unattended(s, r) && NoCancel(s, r) && IsRunningOf(s.db, j, r)
    && Governs(s, j, Forbid, timeoutSec) && !HasTimeout(s.cfg, timeoutSec)
  }

  lemma HeldStep(s: System, a: Action, r: int, j: int, timeoutSec: int)
    requires Held(s, r, j, timeoutSec) && Enabled(s, a) && !Replaces(a, j) && !RemovesJob(a, j) && !Cancels(a, r)
    ensures Held(Apply(s, a), r, j, timeoutSec)
  {
    InvStep(s, a);
    StaysUnattended(s, a, r);
    NoCancelStep(s, a, r);
    GovernsStep(s, a, j, Forbid, timeoutSec);
    ConfigStays(s, a);
    SameJob(s, a, r);
    RowStep(s, a, r);
    NoChangeLeft(s, a, r, ViewOf(s.db, r), ViewOf(Apply(s, a).db, r));
  }

  lemma {:induction false} HeldSkips(s: System, acts: seq<Action>, r: int, j: int, timeoutSec: int)
    requires Held(s, r, j, timeoutSec) && Exec(s, acts).Some?
    requires forall i | 0 <= i < |acts| :: !Replaces(acts[i], j) && !RemovesJob(acts[i], j) && !Cancels(acts[i], r)
    ensures AllSkipped(s, acts, j) && Held(Exec(s, acts).value, r, j, timeoutSec)
    decreases |acts|
  {
    if acts != [] {
      RunningRowBlocks(s, acts[0], j, r, timeoutSec);
      HeldStep(s, acts[0], r, j, timeoutSec);
      HeldSkips(Apply(s, acts[0]), acts[1..], r, j, timeoutSec);
    }
  }

  /**
   A crash during a run of a forbid job whose timeout is unlimited: whatever the system does after
   it, retention and the removal of other jobs included, short of cancelling the row and replacing or
   removing the job, the row stays running and every further slot of the job is skipped.
   */
  lemma CrashSkipsForEver(s: System, acts: seq<Action>, r: int)
    requires Inv(s) && Exec(Apply(s, Crash), acts).Some? && r in s.db.runs && s.db.runs[r].status.Running?
    requires var job := s.db.jobs[s.db.runs[r].jobId];
             job.policy.Forbid? && !HasTimeout(s.cfg, job.timeoutSec)
    requires var j := s.db.runs[r].jobId;
             forall i | 0 <= i < |acts| :: !Replaces(acts[i], j) && !RemovesJob(acts[i], j) && !Cancels(acts[i], r)
    ensures AllSkipped(Apply(s, Crash), acts, s.db.runs[r].jobId)
    ensures var t := Exec(Apply(s, Crash), acts).value.db; r in t.runs && t.runs[r].status.Running?
  {
    var j := s.db.runs[r].jobId;
    InvStep(s, Crash);
    HeldSkips(Apply(s, Crash), acts, r, j, s.db.jobs[j].timeoutSec);
  }
}
