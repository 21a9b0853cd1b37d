/** How one step can change one existing run row and its events. */
module RowSteps {
  import opened Model
  import opened Tables
  import opened Transactions
  import opened Lifecycle
  import opened Invariant

  /** The events of row r, in the order of their ids. */
  function EventsOf(events: seq<RunEvent>, r: int): seq<EventType> {
    if events == [] then []
    else
      var last := events[|events| - 1];
      EventsOf(events[..|events| - 1], r) + if last.runId == r then [last.kind] else []
  }

  lemma EventsOfAppend(events: seq<RunEvent>, e: RunEvent, r: int)
    ensures EventsOf(events + [e], r) == EventsOf(events, r) + if e.runId == r then [e.kind] else []
  {
    assert (events + [e])[..|events|] == events;
  }

  lemma {:induction false} NoEventsOf(events: seq<RunEvent>, r: int)
    requires forall i | 0 <= i < |events| :: events[i].runId != r
    ensures EventsOf(events, r) == []
  {
    if events != [] {
      NoEventsOf(events[..|events| - 1], r);
    }
  }

  lemma {:induction false} EventsOfKept(events: seq<RunEvent>, gone: set<int>, r: int)
    requires r !in gone
    ensures EventsOf(KeepEvents(events, gone), r) == EventsOf(events, r)
  {
    if events != [] {
      var most, last := events[..|events| - 1], events[|events| - 1];
      EventsOfKept(most, gone, r);
      if last.runId in gone {
        assert KeepEvents(events, gone) == KeepEvents(most, gone);
      } else {
        EventsOfAppend(KeepEvents(most, gone), last, r);
      }
    }
  }

  /** A row and its events, as one step finds and leaves them. */
  datatype View = View(row: Run, log: seq<EventType>)

  function ViewOf(t: Tables, r: int): View
    requires r in t.runs
  {
    View(t.runs[r], EventsOf(t.events, r))
  }

  /** A worker's claim: the only way to running. */
  ghost predicate ByClaim(s: System, a: Action, r: int, before: View, after: View) {
    && a.Claim? && a.w in s.workers && s.workers[a.w].runId == r && before.row.status.Pending?
    && after == View(before.row.(status := Running, startedAt := Some(a.startedAt)), before.log + [RunStarted])
  }

  /** A worker that finds the row cancelling before it could claim it. */
  ghost predicate ByStop(s: System, a: Action, r: int, before: View, after: View) {
    && a.Claim? && a.w in s.workers && s.workers[a.w].runId == r && before.row.status.Cancelling?
    && after == View(before.row.(status := Cancelled, finishedAt := Some(a.finishedAt)), before.log + [RunCancelled])
  }

  /** The row's owner writes its outcome. */
  ghost predicate ByOwner(s: System, a: Action, r: int, before: View, after: View) {
    && (a.CancelBeforeExecute? || a.Finalize?) && Owns(s, a.w, r)
    && var p := s.workers[a.w].phase;
       if a.Finalize? then
         p.Returned? && after == View(FinalRow(before.row, p.run, p.outcome, a.finishedAt),
                                      before.log + [Classify(p.outcome).Event()])
       else
         p.Claimed? && after == View(before.row.(status := Cancelled, startedAt := p.run.startedAt,
                                                 finishedAt := Some(a.finishedAt), exitCode := p.run.exitCode,
                                                 errorMessage := p.run.errorMessage),
                                     before.log + [RunCancelled])
  }

  /** The due-job loop closes a running row that has outlived the timeout. */
  ghost predicate ByReclaim(s: System, a: Action, r: int, before: View, after: View) {
    && a.ScanJob? && s.scan.Scan? && s.scan.due != []
    && var e := s.scan.due[0];
       && e.jobId == before.row.jobId && e.job.policy.Forbid? && before.row.status.Running?
       && Stale(s.cfg, before.row, s.scan.now, e.job.timeoutSec)
       && after == View(Reclaimed(s.cfg, before.row, s.scan.now, e.job.timeoutSec), before.log + [RunTimeout])
  }

  /** A CancelRun writes its target and the columns it read, and no event. */
  ghost predicate ByCancel(s: System, a: Action, r: int, before: View, after: View) {
    after.log == before.log &&
    ((a.CancelCommit? && a.c in s.cancels && s.cancels[a.c].runId == r
      && var call := s.cancels[a.c];
         after.row == before.row.(status := call.target, startedAt := call.read.startedAt,
                                  finishedAt := call.read.finishedAt,
                                  exitCode := call.read.exitCode, errorMessage := call.read.errorMessage))
     || (a.CancelAtOnce? && a.runId == r && CancelTarget(before.row.status).Some?
         && after.row == before.row.(status := CancelTarget(before.row.status).value)))
  }

  ghost predicate RowChange(s: System, a: Action, r: int, before: View, after: View) {
    || after == before
    || ByClaim(s, a, r, before, after) || ByStop(s, a, r, before, after) || ByOwner(s, a, r, before, after)
    || ByReclaim(s, a, r, before, after) || ByCancel(s, a, r, before, after)
  }

  lemma {:induction false} ReclaimLog(cfg: Config, t: Tables, jobId: int, listed: seq<int>, now: Time,
                                      timeoutSec: int, r: int)
    requires Schema(t) && RowsOk(t) && forall i | 0 <= i < |listed| :: IsRunningOf(t, jobId, listed[i])
    requires forall i, k | 0 <= i < k < |listed| :: listed[i] != listed[k]
    requires r in t.runs
    ensures EventsOf(ReclaimAll(cfg, t, listed, now, timeoutSec).events, r) ==
            EventsOf(t.events, r) + if r in listed && Stale(cfg, t.runs[r], now, timeoutSec) then [RunTimeout] else []
  {
    if listed != [] {
      var most, id := listed[..|listed| - 1], listed[|listed| - 1];
      assert listed == most + [id];
      ReclaimLog(cfg, t, jobId, most, now, timeoutSec, r);
      NotYetReclaimed(cfg, t, jobId, most, id, now, timeoutSec);
      ReclaimOneLog(cfg, ReclaimAll(cfg, t, most, now, timeoutSec), id, now, timeoutSec, r);
    }
  }

  lemma NotYetReclaimed(cfg: Config, t: Tables, jobId: int, listed: seq<int>, id: int, now: Time, timeoutSec: int)
    requires Schema(t) && RowsOk(t) && (forall i | 0 <= i < |listed| :: IsRunningOf(t, jobId, listed[i]))
    requires id in t.runs && id !in listed
    ensures var u := ReclaimAll(cfg, t, listed, now, timeoutSec); id in u.runs && u.runs[id] == t.runs[id]
  {
    ReclaimKeeps(cfg, t, jobId, listed, now, timeoutSec);
  }

  lemma ReclaimOneLog(cfg: Config, t: Tables, id: int, now: Time, timeoutSec: int, r: int)
    requires id in t.runs
    ensures EventsOf(ReclaimOne(cfg, t, id, now, timeoutSec).events, r) ==
            EventsOf(t.events, r) + if r == id && Stale(cfg, t.runs[id], now, timeoutSec) then [RunTimeout] else []
  {
    EventsOfAppend(t.events, RunEvent(id, RunTimeout), r);
  }

  lemma DueLog(cfg: Config, t: Tables, jobId: int, job: Job, now: Time, next: Time, listed: seq<int>, createdAt: Time,
               r: int)
    requires Schema(t) && RowsOk(t) && job.nextRunAt.Some? && RunningListing(t, jobId, listed) && r in t.runs
    requires DueTx(cfg, t, jobId, job, now, next, listed, createdAt).Some?
    ensures EventsOf(DueTx(cfg, t, jobId, job, now, next, listed, createdAt).value.events, r) ==
            EventsOf(t.events, r) +
            if job.policy.Forbid? && r in listed && Stale(cfg, t.runs[r], now, job.timeoutSec) then [RunTimeout] else []
  {
    DueEffect(cfg, t, jobId, job, now, next, listed, createdAt);
    DueReclaimedKeeps(cfg, t, jobId, job, now, listed);
    if job.policy.Forbid? {
      ReclaimLog(cfg, t, jobId, listed, now, job.timeoutSec, r);
    }
    var t1 := DueReclaimed(cfg, t, job, now, listed);
    var row := DueRow(jobId, job.nextRunAt.value, DueActive(cfg, t, job, now, listed), now, next, createdAt);
    EventsOfAppend(t1.events, RunEvent(t1.runSeq + 1, FirstEvent(row)), r);
  }

  lemma ScanRow(s: System, a: Action, r: int)
    requires Inv(s) && a.ScanJob? && Enabled(s, a) && r in s.db.runs
    ensures var u := Apply(s, a).db; r in u.runs && RowChange(s, a, r, ViewOf(s.db, r), ViewOf(u, r))
  {
    var e := s.scan.due[0];
    var u := Apply(s, a).db;
    if u != s.db {
      var next := ComputeNextRunAt(e.job.schedule, s.scan.now, a.cronNext).value;
      DueKeeps(s.cfg, s.db, e.jobId, e.job, s.scan.now, next, a.listed, a.createdAt);
      DueLog(s.cfg, s.db, e.jobId, e.job, s.scan.now, next, a.listed, a.createdAt, r);
      assert r in a.listed ==> IsRunningOf(s.db, e.jobId, r);
    }
  }

  lemma FinalizeLog(t: Tables, id: int, run: Run, job: Job, o: Outcome, finishedAt: Time, createdAt: Time, r: int)
    requires Schema(t) && id in t.runs && r in t.runs && FinalizeTx(t, id, run, job, o, finishedAt, createdAt).Some?
    ensures var u := FinalizeTx(t, id, run, job, o, finishedAt, createdAt).value;
            EventsOf(u.events, r) == EventsOf(t.events, r) + if r == id then [Classify(o).Event()] else []
  {
    FinalizeEffect(t, id, run, job, o, finishedAt, createdAt);
    var m := Finalized(t, id, run, o, finishedAt);
    EventsOfAppend(t.events, RunEvent(id, Classify(o).Event()), r);
    EventsOfAppend(m.events, RunEvent(t.runSeq + 1, RunCreated), r);
  }

  lemma FinalizeRun(t: Tables, id: int, run: Run, job: Job, o: Outcome, finishedAt: Time, createdAt: Time, r: int)
    requires Schema(t) && id in t.runs && r in t.runs && FinalizeTx(t, id, run, job, o, finishedAt, createdAt).Some?
    ensures var u := FinalizeTx(t, id, run, job, o, finishedAt, createdAt).value;
            r in u.runs && u.runs[r] == if r == id then FinalRow(t.runs[r], run, o, finishedAt) else t.runs[r]
  {
    FinalizeEffect(t, id, run, job, o, finishedAt, createdAt);
  }

  lemma FinalizeRow(s: System, a: Action, r: int)
    requires Inv(s) && a.Finalize? && Enabled(s, a) && r in s.db.runs
    ensures var u := Apply(s, a).db; r in u.runs && RowChange(s, a, r, ViewOf(s.db, r), ViewOf(u, r))
  {
    var me := s.workers[a.w];
    FinalizeEffect(s.db, me.runId, me.phase.run, me.phase.job, me.phase.outcome, a.finishedAt, a.createdAt);
    assert Owns(s, a.w, me.runId);
    if Apply(s, a).db != s.db {
      FinalizeLog(s.db, me.runId, me.phase.run, me.phase.job, me.phase.outcome, a.finishedAt, a.createdAt, r);
      FinalizeRun(s.db, me.runId, me.phase.run, me.phase.job, me.phase.outcome, a.finishedAt, a.createdAt, r);
    }
  }

  lemma ClaimRow(s: System, a: Action, r: int)
    requires Inv(s) && a.Claim? && Enabled(s, a) && r in s.db.runs
    ensures var u := Apply(s, a).db; r in u.runs && RowChange(s, a, r, ViewOf(s.db, r), ViewOf(u, r))
  {
    var me, res := s.workers[a.w], ClaimTx(s.db, s.workers[a.w].runId, a.startedAt, a.finishedAt);
    if a.commit && res.Some? {
      ClaimView(s.db, me.runId, a.startedAt, a.finishedAt, r);
    }
  }

  lemma ClaimView(t: Tables, id: int, startedAt: Time, finishedAt: Time, r: int)
    requires r in t.runs && ClaimTx(t, id, startedAt, finishedAt).Some?
    ensures var u, before := ClaimTx(t, id, startedAt, finishedAt).value.tables, ViewOf(t, r);
            && r in u.runs
            && ViewOf(u, r) ==
               if r != id then before
               else if before.row.status.Pending? then
                 View(before.row.(status := Running, startedAt := Some(startedAt)), before.log + [RunStarted])
               else if before.row.status.Cancelling? then
                 View(before.row.(status := Cancelled, finishedAt := Some(finishedAt)), before.log + [RunCancelled])
               else before
  {
    EventsOfAppend(t.events, RunEvent(id, RunStarted), r);
    EventsOfAppend(t.events, RunEvent(id, RunCancelled), r);
  }

  lemma CancelBeforeExecuteRow(s: System, a: Action, r: int)
    requires Inv(s) && a.CancelBeforeExecute? && Enabled(s, a) && r in s.db.runs
    ensures var u := Apply(s, a).db; r in u.runs && RowChange(s, a, r, ViewOf(s.db, r), ViewOf(u, r))
  {
    var id := s.workers[a.w].runId;
    assert Owns(s, a.w, id);
    EventsOfAppend(s.db.events, RunEvent(id, RunCancelled), r);
  }

  lemma CancelCommitRow(s: System, c: int, commit: bool, r: int)
    requires c in s.cancels && r in s.db.runs
    ensures var a := CancelCommit(c, commit); var u := Apply(s, a).db;
            r in u.runs && (ViewOf(u, r) == ViewOf(s.db, r) || ByCancel(s, a, r, ViewOf(s.db, r), ViewOf(u, r)))
  {}

  lemma CancelAtOnceRow(s: System, runId: int, r: int)
    requires r in s.db.runs
    ensures var a := CancelAtOnce(runId); var u := ApplyCancelAtOnce(s, runId).db;
            r in u.runs && (ViewOf(u, r) == ViewOf(s.db, r) || ByCancel(s, a, r, ViewOf(s.db, r), ViewOf(u, r)))
  {}

  lemma CancelRow(s: System, a: Action, r: int)
    requires (a.CancelCommit? || a.CancelAtOnce?) && Enabled(s, a) && r in s.db.runs
    ensures var u := Apply(s, a).db; r in u.runs && RowChange(s, a, r, ViewOf(s.db, r), ViewOf(u, r))
  {
    if a.CancelCommit? {
      CancelCommitRow(s, a.c, a.commit, r);
    } else {
      CancelAtOnceRow(s, a.runId, r);
    }
  }

  lemma DeleteRow(s: System, a: Action, r: int)
    requires Deletes(a) && r in s.db.runs && r in Apply(s, a).db.runs
    ensures ViewOf(Apply(s, a).db, r) == ViewOf(s.db, r)
  {
    EventsOfKept(s.db.events, if a.RemoveJob? then RunsOfJob(s.db, a.jobId) else PrunableRuns(s.db, a.before), r);
  }

  lemma TriggerRow(s: System, jobId: int, now: Time, createdAt: Time, commit: bool, r: int)
    requires Schema(s.db) && r in s.db.runs
    ensures var u := Apply(s, Trigger(jobId, now, createdAt, commit)).db; r in u.runs && ViewOf(u, r) == ViewOf(s.db, r)
  {
    if commit && TriggerTx(s.db, jobId, now, createdAt).Some? {
      TriggerView(s.db, jobId, now, createdAt, r);
    }
  }

  lemma TriggerView(t: Tables, jobId: int, now: Time, createdAt: Time, r: int)
    requires Schema(t) && r in t.runs && TriggerTx(t, jobId, now, createdAt).Some?
    ensures var u := TriggerTx(t, jobId, now, createdAt).value; r in u.runs && ViewOf(u, r) == ViewOf(t, r)
  {
    EventsOfAppend(t.events, RunEvent(t.runSeq + 1, RunCreated), r);
  }

  /** The remaining steps leave existing rows alone. */
  lemma OtherRow(s: System, a: Action, r: int)
    requires Inv(s) && Enabled(s, a) && r in s.db.runs
    requires a.LoadRun? || a.LoadJob? || a.Execute? || a.Return? || a.Trigger? || a.CreateJob? || a.UpdateCommit?
    ensures var u := Apply(s, a).db; r in u.runs && ViewOf(u, r) == ViewOf(s.db, r)
  {
    if a.Trigger? {
      TriggerRow(s, a.jobId, a.now, a.createdAt, a.commit, r);
    } else {
      RowsUntouched(s, a);
    }
  }

  lemma RowsUntouched(s: System, a: Action)
    requires Enabled(s, a) && (a.LoadRun? || a.LoadJob? || a.Execute? || a.Return? || a.CreateJob? || a.UpdateCommit?)
    ensures var u := Apply(s, a).db; u.runs == s.db.runs && u.events == s.db.events
  {}

  lemma WorkerRow(s: System, a: Action, r: int)
    requires Inv(s) && (a.Finalize? || a.Claim? || a.CancelBeforeExecute?) && Enabled(s, a) && r in s.db.runs
    ensures var u := Apply(s, a).db; r in u.runs && RowChange(s, a, r, ViewOf(s.db, r), ViewOf(u, r))
  {
    if a.Finalize? {
      FinalizeRow(s, a, r);
    } else if a.Claim? {
      ClaimRow(s, a, r);
    } else {
      CancelBeforeExecuteRow(s, a, r);
    }
  }

  /** Every change of an existing row and its events has one of these causes. */
  lemma RowStep(s: System, a: Action, r: int)
    requires Inv(s) && Enabled(s, a) && r in s.db.runs && r in Apply(s, a).db.runs
    ensures RowChange(s, a, r, ViewOf(s.db, r), ViewOf(Apply(s, a).db, r))
  {
    if a.Finalize? || a.Claim? || a.CancelBeforeExecute? {
      WorkerRow(s, a, r);
    } else if a.ScanJob? {
      ScanRow(s, a, r);
    } else if a.CancelCommit? || a.CancelAtOnce? {
      CancelRow(s, a, r);
    } else if Quiet(a) {
      QuietStep(s, a);
    } else if Deletes(a) {
      DeleteRow(s, a, r);
    } else {
      OtherRow(s, a, r);
    }
  }

  // ---------- What else a step does ----------

  lemma ConfigStays(s: System, a: Action)
    requires Enabled(s, a)
    ensures Apply(s, a).cfg == s.cfg && Apply(s, a).capacity == s.capacity
  {}

  /** The steps that rewrite one existing row at most. */
  predicate OneRow(a: Action) {
    a.Claim? || a.CancelBeforeExecute? || a.CancelCommit? || a.CancelAtOnce?
  }

  /** No row and no job comes or goes. */
  ghost predicate SameIds(t: Tables, u: Tables) {
    u.runs.Keys == t.runs.Keys && u.jobs == t.jobs && u.runSeq == t.runSeq && u.jobSeq == t.jobSeq
  }

  lemma OneRowStep(s: System, a: Action)
    requires Enabled(s, a) && OneRow(a)
    ensures SameIds(s.db, Apply(s, a).db)
  {
    if a.Claim? {
      ClaimIds(s.db, s.workers[a.w].runId, a.startedAt, a.finishedAt);
    }
  }

  lemma ClaimIds(t: Tables, id: int, startedAt: Time, finishedAt: Time)
    ensures var res := ClaimTx(t, id, startedAt, finishedAt); res.Some? ==> SameIds(t, res.value.tables)
  {}

  /** Tables u add to t one attempt-0 row of job j, for slot at, and set the job's next run time to next. */
  ghost predicate TakesSlot(t: Tables, u: Tables, j: int, at: Time, next: Time) {
    && j in t.jobs && t.runSeq + 1 !in t.runs
    && u.runs.Keys == t.runs.Keys + {t.runSeq + 1} && u.runSeq == t.runSeq + 1
    && u.runs[t.runSeq + 1].Key() == RunKey(j, at, 0)
    && u.jobSeq == t.jobSeq
    && u.jobs == t.jobs[j := t.jobs[j].(nextRunAt := Some(next), lastScheduledAt := Some(at))]
  }

  /** A committed due-job transaction takes its slot: the old next run time. */
  lemma DueTakesSlot(cfg: Config, t: Tables, jobId: int, job: Job, now: Time, next: Time, listed: seq<int>,
                     createdAt: Time)
    requires Schema(t) && RowsOk(t) && job.nextRunAt.Some? && RunningListing(t, jobId, listed)
    requires DueTx(cfg, t, jobId, job, now, next, listed, createdAt).Some?
    ensures TakesSlot(t, DueTx(cfg, t, jobId, job, now, next, listed, createdAt).value, jobId,
                      job.nextRunAt.value, next)
  {
    DueEffect(cfg, t, jobId, job, now, next, listed, createdAt);
    DueReclaimedKeeps(cfg, t, jobId, job, now, listed);
  }

  /** Only the due-job loop and the job service change a job's row. */
  lemma JobsAfter(s: System, a: Action, j: int)
    requires Inv(s) && Enabled(s, a) && !a.ScanJob? && !a.CreateJob? && !a.UpdateCommit? && j in Apply(s, a).db.jobs
    ensures j in s.db.jobs && Apply(s, a).db.jobs[j] == s.db.jobs[j]
  {
    if Quiet(a) {
      QuietStep(s, a);
    } else if OneRow(a) {
      OneRowStep(s, a);
    } else if a.Finalize? {
      var me := s.workers[a.w];
      FinalizeEffect(s.db, me.runId, me.phase.run, me.phase.job, me.phase.outcome, a.finishedAt, a.createdAt);
    }
  }

  /** Job ids grow, and one that is gone does not come back. */
  lemma JobIdsStep(s: System, a: Action)
    requires Inv(s) && Enabled(s, a)
    ensures s.db.jobSeq <= Apply(s, a).db.jobSeq
    ensures forall j <- Apply(s, a).db.jobs | j <= s.db.jobSeq :: j in s.db.jobs
  {
    if a.ScanJob? {
      ScanJobIds(s, a);
    } else if !a.CreateJob? && !a.UpdateCommit? {
      forall j | j in Apply(s, a).db.jobs ensures j in s.db.jobs {
        JobsAfter(s, a, j);
      }
      JobSeqStays(s, a);
    }
  }

  lemma ScanJobIds(s: System, a: Action)
    requires Inv(s) && Enabled(s, a) && a.ScanJob?
    ensures Apply(s, a).db.jobSeq == s.db.jobSeq && Apply(s, a).db.jobs.Keys == s.db.jobs.Keys
  {
    if Apply(s, a).db != s.db {
      var e := s.scan.due[0];
      var next := ComputeNextRunAt(e.job.schedule, s.scan.now, a.cronNext).value;
      DueTakesSlot(s.cfg, s.db, e.jobId, e.job, s.scan.now, next, a.listed, a.createdAt);
    }
  }

  lemma JobSeqStays(s: System, a: Action)
    requires Inv(s) && Enabled(s, a) && !a.ScanJob? && !a.CreateJob?
    ensures Apply(s, a).db.jobSeq == s.db.jobSeq
  {
    if Quiet(a) {
      QuietStep(s, a);
    } else if OneRow(a) {
      OneRowStep(s, a);
    } else if a.Finalize? {
      var me := s.workers[a.w];
      FinalizeEffect(s.db, me.runId, me.phase.run, me.phase.job, me.phase.outcome, a.finishedAt, a.createdAt);
    }
  }

  lemma CancelsUntouched(s: System, a: Action)
    requires Enabled(s, a) && !a.CancelRead? && !a.CancelCommit? && !a.Crash?
    ensures Apply(s, a).cancels == s.cancels
  {}

  /** A pending CancelRun was pending before, or has just read the row as non-terminal. */
  lemma CancelStepOf(s: System, a: Action, c: int)
    requires Enabled(s, a) && c in Apply(s, a).cancels
    ensures (c in s.cancels && s.cancels[c] == Apply(s, a).cancels[c])
            || (a.CancelRead? && a.c == c && a.runId == Apply(s, a).cancels[c].runId && a.runId in s.db.runs
                && CancelTarget(s.db.runs[a.runId].status) == Some(Apply(s, a).cancels[c].target))
  {
    if !a.CancelRead? && !a.CancelCommit? && !a.Crash? {
      CancelsUntouched(s, a);
    }
  }
}
