/** Runs from the empty database in which the code does what one would not expect of it. */
module Reached {
  import opened Model
  import opened Tables
  import opened Instants
  import opened Transactions
  import opened Lifecycle
  import opened Invariant
  import opened RowSteps
  import opened EventLog
  import opened SlotProgress
  import opened ForbidRecovery
  import opened Listings
  import opened Paths
  import opened DeadRows
  import opened Timing
  import opened Continuations
  import opened SkippedForEver

  // ---------- A job and a triggered run ----------

  const FIRST_SLOT: Time := 10 * SECOND

  /** Every ten seconds, from second 0 on. */
  function NewJob(policy: Policy, timeoutSec: int): Job {
    Job(true, Interval(Some(10)), policy, timeoutSec, 0, None, None)
  }

  function Stored(policy: Policy, timeoutSec: int): Job {
    NewJob(policy, timeoutSec).(nextRunAt := Some(FIRST_SLOT))
  }

  /** The job, and one pending run of it for a trigger at this instant. */
  ghost predicate OneRun(s: System, job: Job, at: Time) {
    && Inv(s) && s.scan.NoScan? && s.cancels == map[] && s.db.jobSeq == 1 && s.db.runSeq == 1
    && s.db.jobs == map[1 := job] && s.db.runs == map[1 := PendingRun(1, at, at)]
  }

  lemma Created(s0: System, policy: Policy, timeoutSec: int)
    requires Init(s0)
    ensures var a := CreateJob(NewJob(policy, timeoutSec), 0, None);
            && Enabled(s0, a) && Inv(Apply(s0, a))
            && Apply(s0, a) == s0.(db := Tables(map[1 := Stored(policy, timeoutSec)], map[], [], 1, 0))
  {
    InvStep(s0, CreateJob(NewJob(policy, timeoutSec), 0, None));
  }

  lemma TriggerAdds(s: System, j: int, at: Time)
    requires Inv(s) && j in s.db.jobs && !KeyTaken(s.db, RunKey(j, at, 0))
    ensures var a := Trigger(j, at, at, true); var r := s.db.runSeq + 1;
            && Enabled(s, a) && Inv(Apply(s, a)) && r !in s.db.runs
            && Apply(s, a) == s.(db := Apply(s, a).db) && Apply(s, a).db.jobs == s.db.jobs
            && Apply(s, a).db.jobSeq == s.db.jobSeq
            && Apply(s, a).db.runs == s.db.runs[r := PendingRun(j, at, at)] && Apply(s, a).db.runSeq == r
  {
    var row := PendingRun(j, at, at);
    InvStep(s, Trigger(j, at, at, true));
    AddRunCommitsIff(s.db, row, RunCreated);
    AddRunKeeps(s.db, row, RunCreated);
  }

  lemma ExecTwo(s: System, a: Action, b: Action)
    requires Enabled(s, a) && Enabled(Apply(s, a), b)
    ensures Exec(s, [a, b]) == Some(Apply(Apply(s, a), b))
  {
    assert [a, b][1..] == [b] && [b][1..] == [];
    assert Exec(Apply(s, a), [b]) == Some(Apply(Apply(s, a), b));
  }

  lemma Start(s0: System, policy: Policy, timeoutSec: int, at: Time) returns (acts: seq<Action>, s: System)
    requires Init(s0)
    ensures Exec(s0, acts) == Some(s) && OneRun(s, Stored(policy, timeoutSec), at) && s.capacity == s0.capacity
            && s.cfg == s0.cfg
  {
    var a, b := CreateJob(NewJob(policy, timeoutSec), 0, None), Trigger(1, at, at, true);
    Created(s0, policy, timeoutSec);
    TriggerAdds(Apply(s0, a), 1, at);
    ExecTwo(s0, a, b);
    acts, s := [a, b], Apply(Apply(s0, a), b);
  }

  /** The run is being executed by worker 0. */
  ghost predicate OneExecuting(s: System, job: Job, at: Time) {
    && Inv(s) && s.scan.NoScan? && s.cancels == map[] && s.db.jobs == map[1 := job]
    && s.db.runs == map[1 := PendingRun(1, at, at).(status := Running, startedAt := Some(at))]
    && Owns(s, 0, 1) && s.workers[0].phase.Executing?
    && s.workers[0].phase.run == PendingRun(1, at, at).(startedAt := Some(at))
  }

  lemma ExecuteNext(s: System, job: Job, at: Time) returns (acts: seq<Action>, u: System)
    requires OneRun(s, job, at) && s.capacity > 0
    ensures Brings(s, acts, u) && OneExecuting(u, job, at) && u.cfg == s.cfg && u.capacity == s.capacity
  {
    acts, u := ExecuteOnly(s, s.db.runs[1], at);
    OneExecutes(s, acts, u, job, at);
  }

  lemma ExecuteOnly(s: System, row: Run, at: Time) returns (acts: seq<Action>, u: System)
    requires Inv(s) && s.capacity > 0 && s.db.runs.Keys == {1} && s.db.runs[1] == row && row.status.Pending?
    ensures Brings(s, acts, u) && Owns(u, 0, 1) && u.workers[0].phase.Executing? && u.db.runs.Keys == {1}
    ensures u.workers[0].phase.run == row.(startedAt := Some(at))
    ensures u.db.runs[1] == row.(status := Running, startedAt := Some(at))
  {
    assert 1 in PendingIds(s.db);
    var claim, m := TakePending(s, 1, at);
    ExecuteStays(m, 0, 1);
    BringsThen(s, claim, m, Execute(0));
    acts, u := claim + [Execute(0)], Apply(m, Execute(0));
  }

  lemma OneExecutes(s: System, acts: seq<Action>, u: System, job: Job, at: Time)
    requires OneRun(s, job, at) && Brings(s, acts, u) && Owns(u, 0, 1) && u.workers[0].phase.Executing?
    requires u.workers[0].phase.run == PendingRun(1, at, at).(startedAt := Some(at)) && u.db.runs.Keys == {1}
    requires u.db.runs[1] == PendingRun(1, at, at).(status := Running, startedAt := Some(at))
    ensures OneExecuting(u, job, at) && u.cfg == s.cfg && u.capacity == s.capacity
  {
    BringsKeeps(s, acts, u);
    BringsNothingNew(s, acts, u);
    assert u.db.runs == map[1 := u.db.runs[1]];
  }

  /** From the empty database to a run that is being executed. */
  lemma StartExecuting(s0: System, policy: Policy, timeoutSec: int, at: Time) returns (acts: seq<Action>, u: System)
    requires Init(s0) && s0.capacity > 0
    ensures Exec(s0, acts) == Some(u) && OneExecuting(u, Stored(policy, timeoutSec), at)
    ensures u.cfg == s0.cfg && u.capacity == s0.capacity
  {
    var more, s;
    acts, s := Start(s0, policy, timeoutSec, at);
    more, u := ExecuteNext(s, Stored(policy, timeoutSec), at);
    ExecSplit(s0, acts, more);
    acts := acts + more;
  }

  // ---------- A trigger at the next run time ----------

  /**
   A manual trigger at exactly the job's next run time: as long as its row
   is kept and the job not replaced, the job never fires.
   */
  lemma TriggerBlocksTheJob(s0: System, policy: Policy, timeoutSec: int, more: seq<Action>)
    returns (acts: seq<Action>, s: System)
    requires Init(s0)
    ensures Exec(s0, acts) == Some(s) && 1 in s.db.jobs && s.db.jobs[1].enabled
            && s.db.jobs[1].nextRunAt == Some(FIRST_SLOT)
    ensures Exec(s, more).Some? && 1 in Exec(s, more).value.db.runs
            && (forall i | 0 <= i < |more| :: !Replaces(more[i], 1)) ==>
              Slots(s, more, 1) == []
  {
    acts, s := Start(s0, policy, timeoutSec, FIRST_SLOT);
    if Exec(s, more).Some? && 1 in Exec(s, more).value.db.runs && forall i | 0 <= i < |more| :: !Replaces(more[i], 1) {
      TakenSlotBlocksForEver(s, more, 1, s.db.jobs[1], 1);
    }
  }

  // ---------- A finished row that changes ----------

  lemma SecondsInOrder(a: int, b: int)
    requires a < b
    ensures TextBefore(a * SECOND, b * SECOND)
  {
    assert Sec(a * SECOND) == a && Sec(b * SECOND) == b;
  }

  lemma OnlyDue(t: Tables, job: Job, now: Time)
    requires t.jobs == map[1 := job] && job.enabled && job.nextRunAt.Some? && TextAtMost(job.nextRunAt.value, now)
    ensures DueListing(t, now, [DueEntry(1, job)])
  {}

  /** The scan at second 20 finds the run of second 1 stale. */
  lemma ScanStarts(s: System, job: Job, at: Time)
    requires OneExecuting(s, job, at) && job.enabled && job.nextRunAt == Some(FIRST_SLOT)
    ensures var a := ScanStart(20 * SECOND, [DueEntry(1, job)]);
            Enabled(s, a) && Inv(Apply(s, a)) && Apply(s, a) == s.(scan := Scan(20 * SECOND, [DueEntry(1, job)]))
  {
    SecondsInOrder(10, 20);
    OnlyDue(s.db, job, 20 * SECOND);
    InvStep(s, ScanStart(20 * SECOND, [DueEntry(1, job)]));
  }

  lemma OnlyRunning(t: Tables)
    requires t.runs.Keys == {1} && t.runs[1].jobId == 1 && t.runs[1].status.Running?
    ensures RunningListing(t, 1, RunningPage(t, 1)) && 1 in RunningPage(t, 1)
  {
    RunningPageLists(t, 1);
    var rows := RunningRows(t, 1);
    assert rows == {1};
    SmallPagesHold(t, 1, RunningPage(t, 1), 1);
  }

  /** Its transaction commits, and closes the row. */
  lemma ClosingTx(cfg: Config, t: Tables)
    requires Schema(t) && RowsOk(t) && t.jobs == map[1 := Stored(Forbid, 1)]
    requires t.runs == map[1 := PendingRun(1, SECOND, SECOND).(status := Running, startedAt := Some(SECOND))]
    ensures RunningListing(t, 1, RunningPage(t, 1))
    ensures var tx := DueTx(cfg, t, 1, Stored(Forbid, 1), 20 * SECOND, 30 * SECOND, RunningPage(t, 1), 20 * SECOND);
            tx.Some? && 1 in tx.value.runs && tx.value.runs[1].status.Timeout?
  {
    var job, now, page := Stored(Forbid, 1), 20 * SECOND, RunningPage(t, 1);
    OnlyRunning(t);
    DueCommitsIff(cfg, t, 1, job, now, 30 * SECOND, page, now);
    DueRows(cfg, t, 1, job, now, 30 * SECOND, page, now);
  }

  lemma ScanCloses(s: System)
    requires Inv(s) && s.scan == Scan(20 * SECOND, [DueEntry(1, Stored(Forbid, 1))])
    requires s.db.jobs == map[1 := Stored(Forbid, 1)]
    requires s.db.runs == map[1 := PendingRun(1, SECOND, SECOND).(status := Running, startedAt := Some(SECOND))]
    ensures var a := ScanJob(None, RunningPage(s.db, 1), 20 * SECOND, true);
            && Enabled(s, a) && Inv(Apply(s, a)) && Apply(s, a).workers == s.workers
            && 1 in Apply(s, a).db.runs && Apply(s, a).db.runs[1].status.Timeout?
  {
    ClosingTx(s.cfg, s.db);
    InvStep(s, ScanJob(None, RunningPage(s.db, 1), 20 * SECOND, true));
  }

  /** From the empty database to a run that the loop has closed while worker 0 executes it. */
  lemma CloseExecuting(s0: System) returns (acts: seq<Action>, s: System)
    requires Init(s0) && s0.capacity > 0
    ensures Exec(s0, acts) == Some(s) && Inv(s) && 1 in s.db.runs && s.db.runs[1].status.Timeout?
    ensures Owns(s, 0, 1) && s.workers[0].phase.Executing?
  {
    var first, m := StartExecuting(s0, Forbid, 1, SECOND);
    var a := ScanStart(20 * SECOND, [DueEntry(1, Stored(Forbid, 1))]);
    ScanStarts(m, Stored(Forbid, 1), SECOND);
    var n := Apply(m, a);
    ScanCloses(n);
    var b := ScanJob(None, RunningPage(n.db, 1), 20 * SECOND, true);
    ExecTwo(m, a, b);
    ExecSplit(s0, first, [a, b]);
    acts, s := first + [a, b], Apply(n, b);
  }

  /**
   A run that the due-job loop has closed as timed out, because its worker was slow to finalize,
   becomes successful when the worker does.
   */
  lemma FinishedRowChanges(s0: System) returns (acts: seq<Action>, s: System, more: seq<Action>, u: System)
    requires Init(s0) && s0.capacity > 0
    ensures Exec(s0, acts) == Some(s) && 1 in s.db.runs && s.db.runs[1].status.Timeout?
    ensures Exec(s, more) == Some(u) && 1 in u.db.runs && u.db.runs[1].status.Success?
  {
    acts, s := CloseExecuting(s0);
    more, u := EndExecuting(s, 0, 1, SUCCEEDED, 21 * SECOND);
  }

  // ---------- A status that contradicts the last event ----------

  lemma CancelReads(s: System, job: Job, at: Time)
    requires OneExecuting(s, job, at)
    ensures Enabled(s, CancelRead(0, 1))
    ensures var s' := Apply(s, CancelRead(0, 1));
            && Inv(s') && Owns(s', 0, 1) && s'.workers == s.workers && s'.db == s.db
            && 0 in s'.cancels && s'.cancels[0].runId == 1 && s'.cancels[0].target.Cancelling?
  {
    InvStep(s, CancelRead(0, 1));
  }

  /**
   A CancelRun that has read the row before the worker finalized it writes
   cancelling over success: the log ends in completed.
   */
  lemma CancelContradictsLog(s0: System) returns (acts: seq<Action>, s: System)
    requires Init(s0) && s0.capacity > 0
    ensures Exec(s0, acts) == Some(s) && Enabled(s, CancelCommit(0, true)) && WritesTooLate(s, CancelCommit(0, true))
    ensures var u := Apply(s, CancelCommit(0, true)).db; var log := EventsOf(u.events, 1);
            1 in u.runs && u.runs[1].status.Cancelling? && log != [] && log[|log| - 1] == RunCompleted
  {
    var first, m := StartExecuting(s0, Allow, 60, SECOND);
    CancelReads(m, Stored(Allow, 60), SECOND);
    var n := Apply(m, CancelRead(0, 1));
    var more;
    more, s := EndExecuting(n, 0, 1, SUCCEEDED, 2 * SECOND);
    ExecOne(m, CancelRead(0, 1));
    ExecSplit(s0, first, [CancelRead(0, 1)]);
    ExecSplit(s0, first + [CancelRead(0, 1)], more);
    acts := first + [CancelRead(0, 1)] + more;
    LogsFit(s0, acts, 1);
    CancelWriteOnly(s, 0, 1);
  }

  lemma ExecOne(s: System, a: Action)
    requires Enabled(s, a)
    ensures Exec(s, [a]) == Some(Apply(s, a))
  {
    assert [a][1..] == [];
  }

  // ---------- A crash after which a slot is skipped ----------

  /** Wherever CrashSkipsForEver applies and the job can fire, there is a slot that it loses. */
  lemma CrashSkipsASlot(s: System, r: int) returns (more: seq<Action>)
    requires Inv(s) && r in s.db.runs && s.db.runs[r].status.Running?
    requires var j := s.db.runs[r].jobId; var job := s.db.jobs[j];
             job.policy.Forbid? && !HasTimeout(s.cfg, job.timeoutSec) && CanFire(s.db, j, job)
    ensures Exec(Apply(s, Crash), more).Some? && Slots(Apply(s, Crash), more, s.db.runs[r].jobId) != []
    ensures AllSkipped(Apply(s, Crash), more, s.db.runs[r].jobId)
  {
    var j := s.db.runs[r].jobId;
    var u;
    CrashStays(s);
    more, u := FireAt(Apply(s, Crash), j, s.db.jobs[j].nextRunAt.value);
    FiredIsScanOnly(Apply(s, Crash), more, u, j, s.db.jobs[j].nextRunAt.value, r);
    CrashSkipsForEver(s, more, r);
  }

  lemma FiredIsScanOnly(s: System, acts: seq<Action>, u: System, j: int, at: Time, r: int)
    requires Leads(s, acts, u, j, [Slot(at, at)])
    ensures Exec(s, acts).Some? && Slots(s, acts, j) != []
    ensures forall i | 0 <= i < |acts| :: !Replaces(acts[i], j) && !RemovesJob(acts[i], j) && !Cancels(acts[i], r)
  {}

  /** And there is a run from the empty database to such a state, where timeouts may be unlimited. */
  lemma SkipIsReached(s0: System) returns (acts: seq<Action>, s: System, more: seq<Action>)
    requires Init(s0) && s0.capacity > 0 && s0.cfg.allowUnlimited
    ensures Exec(s0, acts) == Some(s) && 1 in s.db.runs && s.db.runs[1].status.Running? && s.db.runs[1].jobId == 1
    ensures Exec(Apply(s, Crash), more).Some? && Slots(Apply(s, Crash), more, 1) != []
            && AllSkipped(Apply(s, Crash), more, 1)
  {
    acts, s := StartExecuting(s0, Forbid, 0, SECOND);
    more := CrashSkipsASlot(s, 1);
  }
}
