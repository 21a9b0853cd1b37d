/** The event log of a run against its status. */
module EventLog {
  import opened Model
  import opened Tables
  import opened Transactions
  import opened Lifecycle
  import opened Invariant
  import opened RowSteps

  /**
   The log of a row, whatever the interleaving: `skipped` alone; or `created`, then `started` at most
   once and in second place, then only final events.  The worker's and the scheduler's own verdicts
   are always the last event.
   */
  ghost predicate LogFits(log: seq<EventType>, status: RunStatus) {
    && log != []
    && (if status.Skipped? then log == [RunSkipped] else log[0] == RunCreated)
    && (|log| > 1 ==> log[1] == RunStarted && forall i | 2 <= i < |log| :: log[i].Final())
    && match status
       case Pending => |log| == 1
       case Running => |log| == 2
       case Cancelling => |log| >= 2
       case Success => |log| > 2 && log[|log| - 1] == RunCompleted
       case Failed => |log| > 2 && log[|log| - 1] == RunFailed
       case Timeout => |log| > 2 && log[|log| - 1] == RunTimeout
       case _ => true
  }

  /** The log fits, and whoever may still write a started row's status knows that it has started. */
  ghost predicate LogOk(s: System, r: int)
    requires r in s.db.runs
  {
    var log := EventsOf(s.db.events, r);
    && LogFits(log, s.db.runs[r].status)
    && (HasOwner(s, r) ==> |log| >= 2)
    && (forall c <- s.cancels | s.cancels[c].runId == r && s.cancels[c].target.Cancelling? :: |log| >= 2)
  }

  ghost predicate LogsOk(s: System) {
    forall r <- s.db.runs :: LogOk(s, r)
  }

  lemma ChangeFits(s: System, a: Action, r: int, before: View, after: View)
    requires RowChange(s, a, r, before, after) && LogFits(before.log, before.row.status)
    requires HasOwner(s, r) ==> |before.log| >= 2 && !before.row.status.Skipped?
    requires forall c <- s.cancels | s.cancels[c].runId == r ::
               && !before.row.status.Skipped?
               && (s.cancels[c].target.Cancelled? || (s.cancels[c].target.Cancelling? && |before.log| >= 2))
    ensures LogFits(after.log, after.row.status) && |after.log| >= |before.log|
    ensures after.row.status.Running? || after.row.status.Cancelling? ==> |after.log| >= 2
  {}

  lemma ExistingLogStep(s: System, a: Action, r: int)
    requires Inv(s) && LogsOk(s) && Enabled(s, a) && r in s.db.runs && r in Apply(s, a).db.runs
    ensures LogFits(EventsOf(Apply(s, a).db.events, r), Apply(s, a).db.runs[r].status)
    ensures |EventsOf(Apply(s, a).db.events, r)| >= |EventsOf(s.db.events, r)|
  {
    assert LogOk(s, r);
    assert forall w <- s.workers :: WorkerOk(s.db, s.workers[w]);
    assert forall c <- s.cancels :: CancelOk(s.db, s.cancels[c]);
    RowStep(s, a, r);
    ChangeFits(s, a, r, ViewOf(s.db, r), ViewOf(Apply(s, a).db, r));
  }

  /** A new row has exactly its first event. */
  lemma NewLogStep(s: System, a: Action, r: int)
    requires Inv(s) && Enabled(s, a) && r !in s.db.runs && r in Apply(s, a).db.runs
    ensures LogFits(EventsOf(Apply(s, a).db.events, r), Apply(s, a).db.runs[r].status)
    ensures Apply(s, a).db.runs[r].status.Pending? || Apply(s, a).db.runs[r].status.Skipped?
  {
    NoEventsOf(s.db.events, r);
    if Quiet(a) {
      QuietStep(s, a);
    } else if OneRow(a) {
      OneRowStep(s, a);
    } else if a.ScanJob? {
      DueNewLog(s, a, r);
    } else if a.Finalize? {
      FinalizeNewLog(s, a, r);
    } else {
      OtherNewLog(s, a, r);
    }
  }

  lemma OtherNewLog(s: System, a: Action, r: int)
    requires Inv(s) && Enabled(s, a) && r !in s.db.runs && r in Apply(s, a).db.runs
    requires !Quiet(a) && !OneRow(a) && !a.ScanJob? && !a.Finalize?
    requires EventsOf(s.db.events, r) == []
    ensures EventsOf(Apply(s, a).db.events, r) == [RunCreated] && Apply(s, a).db.runs[r].status.Pending?
  {
    if a.Trigger? {
      EventsOfAppend(s.db.events, RunEvent(s.db.runSeq + 1, RunCreated), r);
    }
  }

  lemma FinalizeNewLog(s: System, a: Action, r: int)
    requires Inv(s) && a.Finalize? && Enabled(s, a) && r !in s.db.runs && r in Apply(s, a).db.runs
    requires EventsOf(s.db.events, r) == []
    ensures EventsOf(Apply(s, a).db.events, r) == [RunCreated] && Apply(s, a).db.runs[r].status.Pending?
  {
    var me := s.workers[a.w];
    FinalizeEffect(s.db, me.runId, me.phase.run, me.phase.job, me.phase.outcome, a.finishedAt, a.createdAt);
    var m := Finalized(s.db, me.runId, me.phase.run, me.phase.outcome, a.finishedAt);
    EventsOfAppend(s.db.events, RunEvent(me.runId, Classify(me.phase.outcome).Event()), r);
    EventsOfAppend(m.events, RunEvent(s.db.runSeq + 1, RunCreated), r);
  }

  lemma {:induction false} ReclaimNoEvents(cfg: Config, t: Tables, listed: seq<int>, now: Time, timeoutSec: int, r: int)
    requires r !in listed
    ensures EventsOf(ReclaimAll(cfg, t, listed, now, timeoutSec).events, r) == EventsOf(t.events, r)
  {
    if listed != [] {
      var most, id := listed[..|listed| - 1], listed[|listed| - 1];
      ReclaimNoEvents(cfg, t, most, now, timeoutSec, r);
      EventsOfAppend(ReclaimAll(cfg, t, most, now, timeoutSec).events, RunEvent(id, RunTimeout), r);
    }
  }

  lemma DueNewLog(s: System, a: Action, r: int)
    requires Inv(s) && a.ScanJob? && Enabled(s, a) && r !in s.db.runs && r in Apply(s, a).db.runs
    requires EventsOf(s.db.events, r) == []
    ensures LogFits(EventsOf(Apply(s, a).db.events, r), Apply(s, a).db.runs[r].status)
    ensures Apply(s, a).db.runs[r].status.Pending? || Apply(s, a).db.runs[r].status.Skipped?
  {
    var e := s.scan.due[0];
    var next := ComputeNextRunAt(e.job.schedule, s.scan.now, a.cronNext).value;
    assert forall i | 0 <= i < |a.listed| :: IsRunningOf(s.db, e.jobId, a.listed[i]);
    DueTxNewLog(s.cfg, s.db, e.jobId, e.job, s.scan.now, next, a.listed, a.createdAt, r);
  }

  lemma DueTxNewLog(cfg: Config, t: Tables, jobId: int, job: Job, now: Time, next: Time, listed: seq<int>,
                    createdAt: Time, r: int)
    requires Schema(t) && RowsOk(t) && job.nextRunAt.Some? && RunningListing(t, jobId, listed)
    requires DueTx(cfg, t, jobId, job, now, next, listed, createdAt).Some?
    requires r !in t.runs && r !in listed && EventsOf(t.events, r) == []
    requires r in DueTx(cfg, t, jobId, job, now, next, listed, createdAt).value.runs
    ensures var u := DueTx(cfg, t, jobId, job, now, next, listed, createdAt).value;
            && (u.runs[r].status.Pending? || u.runs[r].status.Skipped?)
            && EventsOf(u.events, r) == [if u.runs[r].status.Pending? then RunCreated else RunSkipped]
  {
    DueEffect(cfg, t, jobId, job, now, next, listed, createdAt);
    DueReclaimedKeeps(cfg, t, jobId, job, now, listed);
    if job.policy.Forbid? {
      ReclaimNoEvents(cfg, t, listed, now, job.timeoutSec, r);
    }
    var t1 := DueReclaimed(cfg, t, job, now, listed);
    var row := DueRow(jobId, job.nextRunAt.value, DueActive(cfg, t, job, now, listed), now, next, createdAt);
    EventsOfAppend(t1.events, RunEvent(t1.runSeq + 1, FirstEvent(row)), r);
  }

  lemma WritersKnowStep(s: System, a: Action, r: int)
    requires Inv(s) && LogsOk(s) && Enabled(s, a) && r in s.db.runs && r in Apply(s, a).db.runs
    ensures HasOwner(Apply(s, a), r) ==> |EventsOf(Apply(s, a).db.events, r)| >= 2
    ensures forall c <- Apply(s, a).cancels | Apply(s, a).cancels[c].runId == r
            && Apply(s, a).cancels[c].target.Cancelling? ::
              |EventsOf(Apply(s, a).db.events, r)| >= 2
  {
    var s' := Apply(s, a);
    ExistingLogStep(s, a, r);
    InvStep(s, a);
    assert LogOk(s, r);
    if w :| Owns(s', w, r) {
      OwnerStep(s, a, w, r);
      if !Owns(s, w, r) {
        ClaimedLog(s, a, r);
      }
    }
    forall c <- s'.cancels | s'.cancels[c].runId == r && s'.cancels[c].target.Cancelling?
      ensures |EventsOf(s'.db.events, r)| >= 2
    {
      CancelStepOf(s, a, c);
    }
  }

  lemma ClaimedLog(s: System, a: Action, r: int)
    requires Inv(s) && LogsOk(s) && Enabled(s, a) && a.Claim? && s.workers[a.w].runId == r && Claimable(s.db, r)
    requires Apply(s, a).workers[a.w].phase.Claimed?
    ensures |EventsOf(Apply(s, a).db.events, r)| >= 2
  {
    assert LogOk(s, r);
    EventsOfAppend(s.db.events, RunEvent(r, RunStarted), r);
  }

  lemma NewRowHasNoWriters(s: System, a: Action, r: int)
    requires Inv(s) && Enabled(s, a) && r !in s.db.runs && r in Apply(s, a).db.runs
    ensures !HasOwner(Apply(s, a), r) && !HasCancel(Apply(s, a), r)
  {
    InvStep(s, a);
    assert forall w <- s.workers :: WorkerOk(s.db, s.workers[w]);
    forall w ensures !Owns(Apply(s, a), w, r) {
      if Owns(Apply(s, a), w, r) {
        OwnerStep(s, a, w, r);
      }
    }
    forall c | c in Apply(s, a).cancels ensures Apply(s, a).cancels[c].runId != r {
      CancelStepOf(s, a, c);
      assert c in s.cancels ==> CancelOk(s.db, s.cancels[c]);
    }
  }

  lemma LogsOkStep(s: System, a: Action)
    requires Inv(s) && LogsOk(s) && Enabled(s, a)
    ensures LogsOk(Apply(s, a))
  {
    forall r <- Apply(s, a).db.runs ensures LogOk(Apply(s, a), r) {
      if r in s.db.runs {
        ExistingLogStep(s, a, r);
        WritersKnowStep(s, a, r);
      } else {
        NewLogStep(s, a, r);
        NewRowHasNoWriters(s, a, r);
      }
    }
  }

  lemma {:induction false} LogsStayOk(s: System, acts: seq<Action>)
    requires Inv(s) && LogsOk(s) && Exec(s, acts).Some?
    ensures LogsOk(Exec(s, acts).value)
    decreases |acts|
  {
    if acts != [] {
      InvStep(s, acts[0]);
      LogsOkStep(s, acts[0]);
      LogsStayOk(Apply(s, acts[0]), acts[1..]);
    }
  }

  /** In every reachable state, of every interleaving, each row's log fits its status. */
  lemma LogsFit(s: System, acts: seq<Action>, r: int)
    requires Init(s) && Exec(s, acts).Some? && r in Exec(s, acts).value.db.runs
    ensures var t := Exec(s, acts).value.db; LogFits(EventsOf(t.events, r), t.runs[r].status)
  {
    LogsStayOk(s, acts);
    assert LogOk(Exec(s, acts).value, r);
  }

  // ---------- Agreement, when CancelRun is not torn ----------

  /** The statuses that the last event of a run allows. */
  predicate Agrees(last: EventType, status: RunStatus) {
    match last
    case RunCreated => status.Pending? || status.Cancelled?
    case RunStarted => status.Running? || status.Cancelling?
    case RunSkipped => status.Skipped?
    case RunCompleted => status.Success?
    case RunFailed => status.Failed?
    case RunTimeout => status.Timeout?
    case RunCancelled => status.Cancelled?
  }

  /** The last event of row r allows this status. */
  ghost predicate LastAllows(t: Tables, r: int, status: RunStatus) {
    var log := EventsOf(t.events, r);
    log != [] && Agrees(log[|log| - 1], status)
  }

  ghost predicate AllAgree(s: System) {
    forall r <- s.db.runs :: LastAllows(s.db, r, s.db.runs[r].status)
  }

  lemma AgreeChange(s: System, a: Action, r: int, before: View, after: View)
    requires RowChange(s, a, r, before, after) && !a.CancelCommit?
    requires before.log != [] && Agrees(before.log[|before.log| - 1], before.row.status)
    ensures after.log != [] && Agrees(after.log[|after.log| - 1], after.row.status)
  {}

  lemma AgreeStep(s: System, a: Action)
    requires Inv(s) && LogsOk(s) && AllAgree(s) && Enabled(s, a) && !a.CancelCommit?
    ensures AllAgree(Apply(s, a))
  {
    var s' := Apply(s, a);
    forall r <- s'.db.runs ensures LastAllows(s'.db, r, s'.db.runs[r].status) {
      if r in s.db.runs {
        assert LastAllows(s.db, r, s.db.runs[r].status);
        RowStep(s, a, r);
        AgreeChange(s, a, r, ViewOf(s.db, r), ViewOf(s'.db, r));
      } else {
        NewLogStep(s, a, r);
      }
    }
  }

  lemma {:induction false} AgreementStays(s: System, acts: seq<Action>)
    requires Inv(s) && LogsOk(s) && AllAgree(s) && Exec(s, acts).Some?
    requires forall i | 0 <= i < |acts| :: !acts[i].CancelCommit?
    ensures AllAgree(Exec(s, acts).value)
    decreases |acts|
  {
    if acts != [] {
      InvStep(s, acts[0]);
      LogsOkStep(s, acts[0]);
      AgreeStep(s, acts[0]);
      AgreementStays(Apply(s, acts[0]), acts[1..]);
    }
  }

  /** With every CancelRun taken as one step, the last event of each row of a reachable state tells its status. */
  lemma LastEventTellsStatus(s: System, acts: seq<Action>, r: int)
    requires Init(s) && Exec(s, acts).Some? && forall i | 0 <= i < |acts| :: !acts[i].CancelCommit?
    requires r in Exec(s, acts).value.db.runs
    ensures var t := Exec(s, acts).value.db; var log := EventsOf(t.events, r);
            log != [] && Agrees(log[|log| - 1], t.runs[r].status)
  {
    AgreementStays(s, acts);
    assert LastAllows(Exec(s, acts).value.db, r, Exec(s, acts).value.db.runs[r].status);
  }

  // ---------- When a torn CancelRun breaks it ----------

  /** The statuses for which CancelRun chooses this target, and the target itself. */
  predicate Timely(target: RunStatus, status: RunStatus) {
    status == target || if target.Cancelled? then status.Pending? else status.Running?
  }

  /**
   A CancelRun about to write when its row, if it is still there, has
   left the status that was read for another one.
   */
  predicate WritesTooLate(s: System, a: Action) {
    && a.CancelCommit? && a.commit && a.c in s.cancels && s.cancels[a.c].runId in s.db.runs
    && !Timely(s.cancels[a.c].target, s.db.runs[s.cancels[a.c].runId].status)
  }

  /** Where the last event tells the status, it allows a target exactly when the status is one the target is for. */
  lemma TimelyIff(last: EventType, status: RunStatus, target: RunStatus)
    requires Agrees(last, status) && (target.Cancelled? || target.Cancelling?)
    ensures Agrees(last, target) <==> Timely(target, status)
  {}

  /** The write changes the status of one row, and no log. */
  lemma CancelWriteOnly(s: System, c: int, r: int)
    requires c in s.cancels && r in s.db.runs
    ensures var s' := Apply(s, CancelCommit(c, true));
            && s'.db.runs.Keys == s.db.runs.Keys && s'.db.events == s.db.events
            && s'.db.runs[r].status == if r == s.cancels[c].runId then s.cancels[c].target else s.db.runs[r].status
  {}

  /** One step breaks the agreement exactly when it is such a write, which the row's status shows before the step. */
  lemma AgreementBreaksIff(s: System, a: Action)
    requires Inv(s) && LogsOk(s) && AllAgree(s) && Enabled(s, a)
    ensures AllAgree(Apply(s, a)) <==> !WritesTooLate(s, a)
  {
    if !a.CancelCommit? {
      AgreeStep(s, a);
    } else if a.commit {
      TornWriteBreaksIff(s, a.c);
    }
  }

  lemma WriteAllowedIff(s: System, c: int)
    requires Inv(s) && AllAgree(s) && c in s.cancels && s.cancels[c].runId in s.db.runs
    ensures var call := s.cancels[c];
            LastAllows(s.db, call.runId, call.target) <==> Timely(call.target, s.db.runs[call.runId].status)
  {
    var call := s.cancels[c];
    var log := EventsOf(s.db.events, call.runId);
    assert CancelOk(s.db, call) && LastAllows(s.db, call.runId, s.db.runs[call.runId].status);
    TimelyIff(log[|log| - 1], s.db.runs[call.runId].status, call.target);
  }

  lemma TornWriteBreaksIff(s: System, c: int)
    requires Inv(s) && AllAgree(s) && c in s.cancels
    ensures AllAgree(Apply(s, CancelCommit(c, true))) <==> !WritesTooLate(s, CancelCommit(c, true))
  {
    var s', call := Apply(s, CancelCommit(c, true)), s.cancels[c];
    forall r <- s.db.runs
      ensures LastAllows(s'.db, r, s'.db.runs[r].status)
              <==> LastAllows(s.db, r, if r == call.runId then call.target else s.db.runs[r].status)
    {
      CancelWriteOnly(s, c, r);
    }
    if call.runId in s.db.runs {
      CancelWriteOnly(s, c, call.runId);
      WriteAllowedIff(s, c);
    }
  }

  ghost predicate AlwaysAgree(s: System, acts: seq<Action>)
    requires Exec(s, acts).Some?
    decreases |acts|
  {
    AllAgree(s) && (acts == [] || AlwaysAgree(Apply(s, acts[0]), acts[1..]))
  }

  ghost predicate NoneTooLate(s: System, acts: seq<Action>)
    requires Exec(s, acts).Some?
    decreases |acts|
  {
    acts == [] || (!WritesTooLate(s, acts[0]) && NoneTooLate(Apply(s, acts[0]), acts[1..]))
  }

  lemma {:induction false} AgreementLastsIff(s: System, acts: seq<Action>)
    requires Inv(s) && LogsOk(s) && AllAgree(s) && Exec(s, acts).Some?
    ensures AlwaysAgree(s, acts) <==> NoneTooLate(s, acts)
    decreases |acts|
  {
    if acts != [] {
      InvStep(s, acts[0]);
      LogsOkStep(s, acts[0]);
      AgreementBreaksIff(s, acts[0]);
      if AllAgree(Apply(s, acts[0])) {
        AgreementLastsIff(Apply(s, acts[0]), acts[1..]);
      }
    }
  }

  /**
   From the empty database on, the last events tell the statuses all
   along exactly when no CancelRun writes too late.
   */
  lemma AlwaysAgreesIff(s: System, acts: seq<Action>)
    requires Init(s) && Exec(s, acts).Some?
    ensures AlwaysAgree(s, acts) <==> NoneTooLate(s, acts)
  {
    AgreementLastsIff(s, acts);
  }
}
