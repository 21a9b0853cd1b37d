/** What every step of the run lifecycle keeps, in every interleaving. */
module Invariant {
  import opened Model
  import opened Tables
  import opened Transactions
  import opened Lifecycle

  /** Worker w has claimed row r and has not finalized it. */
  ghost predicate Owns(s: System, w: int, r: int) {
    w in s.workers && s.workers[w].runId == r && s.workers[w].phase.Owning()
  }

  ghost predicate HasOwner(s: System, r: int) {
    exists w :: Owns(s, w, r)
  }

  /** A CancelRun that read row r as non-terminal has not written yet. */
  ghost predicate HasCancel(s: System, r: int) {
    exists c :: c in s.cancels && s.cancels[c].runId == r
  }

  /**
   What the columns of a row say under each status; of the finished
   rows, cancelled ones may miss their finish time.
   */
  predicate Shape(run: Run) {
    run.attempt >= 0 &&
    match run.status
    case Pending => run.startedAt.None? && run.finishedAt.None? && run.exitCode.None? && run.errorMessage.None?
    case Running => run.startedAt.Some? && run.finishedAt.None? && run.exitCode.None? && run.errorMessage.None?
    case Cancelling => run.startedAt.Some? && run.finishedAt.None?
    case Success => run.startedAt.Some? && run.finishedAt.Some? && run.exitCode == Some(0) && run.errorMessage.None?
    case Failed =>
      && run.startedAt.Some? && run.finishedAt.Some? && run.exitCode.Some?
      && run.errorMessage.Some? && run.errorMessage.value.ExecError?
    case Timeout =>
      && run.startedAt.Some? && run.finishedAt.Some? && run.exitCode.Some? && run.errorMessage.Some?
      && (run.errorMessage.value.JobTimeout? || (run.errorMessage.value.StaleDiscarded? && run.exitCode == Some(-1)))
    case Cancelled => true
    case Skipped =>
      && run.startedAt.None? && run.finishedAt.Some? && run.exitCode.None? && run.attempt == 0
      && run.errorMessage.Some? && run.errorMessage.value.ForbidSkipped?
  }

  ghost predicate RowsOk(t: Tables) {
    forall r <- t.runs :: Shape(t.runs[r])
  }

  ghost predicate WorkerOk(t: Tables, me: Worker) {
    && 1 <= me.runId <= t.runSeq
    && (me.phase.HasRun() && me.runId in t.runs ==> me.phase.run.Key() == t.runs[me.runId].Key())
    && (me.phase.Owning() ==> me.phase.run.startedAt.Some?)
    && (me.phase.Owning() && me.runId in t.runs
        ==> !t.runs[me.runId].status.Pending? && !t.runs[me.runId].status.Skipped?)
  }

  ghost predicate WorkersOk(s: System) {
    forall w <- s.workers :: WorkerOk(s.db, s.workers[w])
  }

  ghost predicate OneOwner(s: System) {
    forall w, v, r :: Owns(s, w, r) && Owns(s, v, r) ==> w == v
  }

  ghost predicate CancelOk(t: Tables, call: CancelCall) {
    && 1 <= call.runId <= t.runSeq
    && call.read.finishedAt.None?
    && (call.target.Cancelled? || (call.target.Cancelling? && call.read.startedAt.Some?))
    && (call.runId in t.runs ==> !t.runs[call.runId].status.Skipped?)
    && (call.runId in t.runs && call.target.Cancelling? ==> !t.runs[call.runId].status.Pending?)
  }

  ghost predicate CancelsOk(s: System) {
    forall c <- s.cancels :: CancelOk(s.db, s.cancels[c])
  }

  /** Held tokens are live workers, and a round never needs more tokens than are free. */
  ghost predicate TokensOk(s: System) {
    && s.tokens == |s.workers| <= s.capacity
    && match s.dispatcher
       case Idle => true
       case Free(available) => 1 <= available && s.tokens + available <= s.capacity
       case Round(left) =>
         && left != [] && s.tokens + |left| <= s.capacity
         && forall i | 0 <= i < |left| :: 1 <= left[i] <= s.db.runSeq
  }

  ghost predicate Inv(s: System) {
    Schema(s.db) && RowsOk(s.db) && WorkersOk(s) && OneOwner(s) && CancelsOk(s) && TokensOk(s)
  }

  // ---------- One table change at a time ----------

  /**
   How a step may change the tables, as seen by the other actors: ids are never reused, keys never
   change, no row returns to pending, and no row becomes skipped.
   */
  ghost predicate Steady(t: Tables, u: Tables) {
    && t.runSeq <= u.runSeq
    && (forall r <- u.runs | r in t.runs ::
          && u.runs[r].Key() == t.runs[r].Key()
          && (u.runs[r].status.Pending? ==> t.runs[r].status.Pending?)
          && (u.runs[r].status.Skipped? <==> t.runs[r].status.Skipped?))
    && (forall r <- u.runs :: r in t.runs || r > t.runSeq)
  }

  /** No row is deleted. */
  ghost predicate Grows(t: Tables, u: Tables) {
    t.runs.Keys <= u.runs.Keys
  }

  lemma OthersKeep(s: System, u: Tables)
    requires WorkersOk(s) && CancelsOk(s) && Steady(s.db, u)
    ensures forall w <- s.workers :: WorkerOk(u, s.workers[w])
    ensures forall c <- s.cancels :: CancelOk(u, s.cancels[c])
  {
    forall w <- s.workers ensures WorkerOk(u, s.workers[w]) {
      assert WorkerOk(s.db, s.workers[w]);
    }
    forall c <- s.cancels ensures CancelOk(u, s.cancels[c]) {
      assert CancelOk(s.db, s.cancels[c]);
    }
  }

  /** Writing a row that keeps its key, with or without an event for it. */
  ghost predicate Rewrites(t: Tables, u: Tables, id: int, row: Run) {
    && id in t.runs && row.Key() == t.runs[id].Key() && Shape(row)
    && (row.status.Pending? ==> t.runs[id].status.Pending?)
    && (row.status.Skipped? <==> t.runs[id].status.Skipped?)
    && u == t.(runs := t.runs[id := row], events := u.events)
    && (u.events == t.events || exists kind :: u.events == t.events + [RunEvent(id, kind)])
  }

  lemma RewriteKeeps(t: Tables, u: Tables, id: int, row: Run)
    requires Schema(t) && RowsOk(t) && Rewrites(t, u, id, row)
    ensures Schema(u) && RowsOk(u) && Steady(t, u) && Grows(t, u)
  {
    forall r <- u.runs, q <- u.runs | u.runs[r].Key() == u.runs[q].Key() ensures r == q {
      assert t.runs[r].Key() == t.runs[q].Key();
    }
  }

  /** Inserting a row with its first event. */
  lemma AddRunKeeps(t: Tables, run: Run, kind: EventType)
    requires Schema(t) && RowsOk(t) && Shape(run) && AddRun(t, run, kind).Some?
    ensures var u := AddRun(t, run, kind).value;
            && Schema(u) && RowsOk(u) && Steady(t, u) && run.jobId in t.jobs
            && u == t.(runs := t.runs[t.runSeq + 1 := run], runSeq := t.runSeq + 1,
                       events := t.events + [RunEvent(t.runSeq + 1, kind)])
  {}

  /** A row is inserted exactly when its job exists and its key is free. */
  lemma AddRunCommitsIff(t: Tables, run: Run, kind: EventType)
    ensures AddRun(t, run, kind).Some? <==> run.jobId in t.jobs && !KeyTaken(t, run.Key())
  {}

  lemma SteadyTransitive(t: Tables, u: Tables, v: Tables)
    requires Schema(t) && Steady(t, u) && Steady(u, v)
    ensures Steady(t, v)
  {
    forall r <- v.runs | r in t.runs ensures r in u.runs {
      assert r <= t.runSeq;
    }
  }

  // ---------- Each transaction keeps the tables well-formed ----------

  lemma ClaimKeeps(t: Tables, id: int, startedAt: Time, finishedAt: Time)
    requires Schema(t) && RowsOk(t) && ClaimTx(t, id, startedAt, finishedAt).Some?
    ensures var u := ClaimTx(t, id, startedAt, finishedAt).value.tables;
            Schema(u) && RowsOk(u) && Steady(t, u) && Grows(t, u)
  {
    var u := ClaimTx(t, id, startedAt, finishedAt).value.tables;
    if u != t {
      RewriteKeeps(t, u, id, u.runs[id]);
    }
  }

  lemma CancelBeforeExecuteKeeps(t: Tables, id: int, run: Run, finishedAt: Time)
    requires Schema(t) && RowsOk(t) && (id in t.runs ==> !t.runs[id].status.Skipped?)
    requires CancelBeforeExecuteTx(t, id, run, finishedAt).Some?
    ensures var u := CancelBeforeExecuteTx(t, id, run, finishedAt).value;
            Schema(u) && RowsOk(u) && Steady(t, u) && Grows(t, u)
  {
    var u := CancelBeforeExecuteTx(t, id, run, finishedAt).value;
    RewriteKeeps(t, u, id, u.runs[id]);
  }

  /** The tables after the outcome and its event, before the retry. */
  function FinalRow(row: Run, run: Run, o: Outcome, finishedAt: Time): Run {
    var run1 := WithPaths(run, o);
    var row1 := if o.result.Some? then row.(logPath := run1.logPath, resultPath := run1.resultPath) else row;
    var v := Classify(o);
    row1.(status := v.Status(), startedAt := run.startedAt, finishedAt := Some(finishedAt),
          exitCode := (match v case Succeeded => Some(0) case WasCancelled => None case _ => Some(ReportedExitCode(o))),
          errorMessage := (match v
                           case Succeeded => None
                           case TimedOut => Some(JobTimeout)
                           case WasCancelled => Some(ContextCancelled)
                           case DidFail => Some(ExecError(o.execErr.value))))
  }

  function Finalized(t: Tables, id: int, run: Run, o: Outcome, finishedAt: Time): Tables
    requires id in t.runs
  {
    t.(runs := t.runs[id := FinalRow(t.runs[id], run, o, finishedAt)],
       events := t.events + [RunEvent(id, Classify(o).Event())])
  }

  /** FinalizeTx fails only for a missing row or a rejected retry row; otherwise it is these two writes. */
  lemma FinalizeEffect(t: Tables, id: int, run: Run, job: Job, o: Outcome, finishedAt: Time, createdAt: Time)
    ensures FinalizeTx(t, id, run, job, o, finishedAt, createdAt) ==
            if id !in t.runs then None
            else if Classify(o).Retryable() then RetryTx(Finalized(t, id, run, o, finishedAt), job, run, createdAt)
            else Some(Finalized(t, id, run, o, finishedAt))
  {
    if id in t.runs {
      var run1 := WithPaths(run, o);
      var t1 := if o.result.Some? then UpdateLogArtifacts(t, id, run1.logPath, run1.resultPath) else t;
      var row := FinalRow(t.runs[id], run, o, finishedAt);
      assert t1.runs[id := row] == t.runs[id := row];
    }
  }

  lemma FinalizeKeeps(t: Tables, id: int, run: Run, job: Job, o: Outcome, finishedAt: Time, createdAt: Time)
    requires Schema(t) && RowsOk(t) && id in t.runs && WorkerOk(t, Worker(id, Returned(run, job, o)))
    requires FinalizeTx(t, id, run, job, o, finishedAt, createdAt).Some?
    ensures var u := FinalizeTx(t, id, run, job, o, finishedAt, createdAt).value;
            Schema(u) && RowsOk(u) && Steady(t, u) && Grows(t, u)
  {
    FinalizeEffect(t, id, run, job, o, finishedAt, createdAt);
    var u := Finalized(t, id, run, o, finishedAt);
    RewriteKeeps(t, u, id, u.runs[id]);
    if Classify(o).Retryable() && ShouldRetry(job, run) {
      AddRunKeeps(u, BuildRetryRun(run, createdAt), RunCreated);
      SteadyTransitive(t, u, FinalizeTx(t, id, run, job, o, finishedAt, createdAt).value);
    }
  }

  /** The loop over the running rows closes stale ones and changes nothing else. */
  lemma {:induction false} ReclaimKeeps(cfg: Config, t: Tables, jobId: int, listed: seq<int>, now: Time,
                                        timeoutSec: int)
    requires Schema(t) && RowsOk(t) && forall i | 0 <= i < |listed| :: IsRunningOf(t, jobId, listed[i])
    ensures var u := ReclaimAll(cfg, t, listed, now, timeoutSec);
            && Schema(u) && RowsOk(u) && Steady(t, u) && u.jobs == t.jobs && u.runSeq == t.runSeq
            && u.jobSeq == t.jobSeq
            && u.runs.Keys == t.runs.Keys
            && (forall r <- t.runs ::
                  u.runs[r] == if r in listed && Stale(cfg, t.runs[r], now, timeoutSec)
                               then Reclaimed(cfg, t.runs[r], now, timeoutSec) else t.runs[r])
  {
    if listed != [] {
      var most, id := listed[..|listed| - 1], listed[|listed| - 1];
      assert listed == most + [id];
      ReclaimKeeps(cfg, t, jobId, most, now, timeoutSec);
      var m := ReclaimAll(cfg, t, most, now, timeoutSec);
      var u := ReclaimOne(cfg, m, id, now, timeoutSec);
      if u != m {
        RewriteKeeps(m, u, id, u.runs[id]);
        SteadyTransitive(t, m, u);
      }
    }
  }

  /** A committed due-job transaction: the reclaimed rows, one new row for the slot, and the advanced schedule. */
  lemma DueEffect(cfg: Config, t: Tables, jobId: int, job: Job, now: Time, next: Time, listed: seq<int>,
                  createdAt: Time)
    requires job.nextRunAt.Some? && DueTx(cfg, t, jobId, job, now, next, listed, createdAt).Some?
    ensures var t1 := DueReclaimed(cfg, t, job, now, listed);
            var row := DueRow(jobId, job.nextRunAt.value, DueActive(cfg, t, job, now, listed), now, next, createdAt);
            && AddRun(t1, row, FirstEvent(row)).Some? && jobId in t1.jobs
            && DueTx(cfg, t, jobId, job, now, next, listed, createdAt) == Some(t1.(
                 runs := t1.runs[t1.runSeq + 1 := row], runSeq := t1.runSeq + 1,
                 events := t1.events + [RunEvent(t1.runSeq + 1, FirstEvent(row))],
                 jobs := t1.jobs[jobId := t1.jobs[jobId].(nextRunAt := Some(next), lastScheduledAt := job.nextRunAt)]))
  {}

  lemma DueReclaimedKeeps(cfg: Config, t: Tables, jobId: int, job: Job, now: Time, listed: seq<int>)
    requires Schema(t) && RowsOk(t) && RunningListing(t, jobId, listed)
    ensures var u := DueReclaimed(cfg, t, job, now, listed);
            && Schema(u) && RowsOk(u) && Steady(t, u) && u.jobs == t.jobs && u.runSeq == t.runSeq
            && u.jobSeq == t.jobSeq
            && u.runs.Keys == t.runs.Keys
            && (forall r <- t.runs ::
                  u.runs[r] == if job.policy.Forbid? && r in listed && Stale(cfg, t.runs[r], now, job.timeoutSec)
                               then Reclaimed(cfg, t.runs[r], now, job.timeoutSec) else t.runs[r])
  {
    if job.policy.Forbid? {
      ReclaimKeeps(cfg, t, jobId, listed, now, job.timeoutSec);
    }
  }

  /** Tables that differ in one job's schedule only. */
  lemma ScheduleKeeps(t: Tables, u: Tables, jobId: int, next: Time, last: Time)
    requires Schema(u) && RowsOk(u) && Steady(t, u) && Grows(t, u)
    ensures var v := UpdateScheduling(u, jobId, next, last); Schema(v) && RowsOk(v) && Steady(t, v) && Grows(t, v)
  {}

  lemma DueRows(cfg: Config, t: Tables, jobId: int, job: Job, now: Time, next: Time, listed: seq<int>, createdAt: Time)
    requires Schema(t) && RowsOk(t) && job.nextRunAt.Some? && RunningListing(t, jobId, listed)
    requires DueTx(cfg, t, jobId, job, now, next, listed, createdAt).Some?
    ensures var u := DueTx(cfg, t, jobId, job, now, next, listed, createdAt).value;
            forall r <- t.runs :: r in u.runs &&
              u.runs[r] == if job.policy.Forbid? && r in listed && Stale(cfg, t.runs[r], now, job.timeoutSec)
                           then Reclaimed(cfg, t.runs[r], now, job.timeoutSec) else t.runs[r]
  {
    DueEffect(cfg, t, jobId, job, now, next, listed, createdAt);
    DueReclaimedKeeps(cfg, t, jobId, job, now, listed);
  }

  lemma DueKeeps(cfg: Config, t: Tables, jobId: int, job: Job, now: Time, next: Time, listed: seq<int>, createdAt: Time)
    requires Schema(t) && RowsOk(t) && job.nextRunAt.Some? && RunningListing(t, jobId, listed)
    requires DueTx(cfg, t, jobId, job, now, next, listed, createdAt).Some?
    ensures var u := DueTx(cfg, t, jobId, job, now, next, listed, createdAt).value;
            Schema(u) && RowsOk(u) && Steady(t, u) && Grows(t, u)
    ensures var u := DueTx(cfg, t, jobId, job, now, next, listed, createdAt).value;
            forall r <- t.runs ::
              u.runs[r] == if job.policy.Forbid? && r in listed && Stale(cfg, t.runs[r], now, job.timeoutSec)
                           then Reclaimed(cfg, t.runs[r], now, job.timeoutSec) else t.runs[r]
  {
    DueReclaimedKeeps(cfg, t, jobId, job, now, listed);
    var t1 := DueReclaimed(cfg, t, job, now, listed);
    var row := DueRow(jobId, job.nextRunAt.value, DueActive(cfg, t, job, now, listed), now, next, createdAt);
    var u := AddRun(t1, row, FirstEvent(row)).value;
    AddRunKeeps(t1, row, FirstEvent(row));
    SteadyTransitive(t, t1, u);
    ScheduleKeeps(t, u, jobId, next, job.nextRunAt.value);
    DueRows(cfg, t, jobId, job, now, next, listed, createdAt);
  }

  lemma CancelWriteKeeps(t: Tables, id: int, target: RunStatus, read: Run)
    requires Schema(t) && RowsOk(t) && CancelOk(t, CancelCall(id, target, read))
    ensures var u := CancelWrite(t, id, target, read);
            Schema(u) && RowsOk(u) && Steady(t, u) && Grows(t, u)
  {
    var u := CancelWrite(t, id, target, read);
    if id in t.runs {
      RewriteKeeps(t, u, id, u.runs[id]);
    }
  }

  lemma DeleteKeeps(t: Tables, gone: set<int>)
    requires Schema(t) && RowsOk(t)
    ensures var u := DeleteRuns(t, gone); Schema(u) && RowsOk(u) && Steady(t, u)
  {
    var u := DeleteRuns(t, gone);
    forall i | 0 <= i < |u.events| ensures u.events[i].runId in u.runs {
      assert u.events[i] in t.events;
    }
  }

  // ---------- Every step keeps the invariant ----------

  /** A step of one worker that leaves every other actor as it was. */
  lemma WorkerStep(s: System, w: int, phase: Phase, u: Tables)
    requires Inv(s) && w in s.workers && Schema(u) && RowsOk(u) && Steady(s.db, u)
    requires WorkerOk(u, Worker(s.workers[w].runId, phase))
    requires phase.Owning() ==> forall v :: Owns(s, v, s.workers[w].runId) ==> v == w
    ensures Inv(SetPhase(s, w, phase).(db := u))
  {
    OthersKeep(s, u);
    var s' := SetPhase(s, w, phase).(db := u);
    assert s'.workers.Keys == s.workers.Keys;
    CardinalityOfKeys(s'.workers);
    CardinalityOfKeys(s.workers);
    assert forall v, r | Owns(s', v, r) && v != w :: Owns(s, v, r);
  }

  lemma CardinalityOfKeys<K, V>(m: map<K, V>)
    ensures |m| == |m.Keys|
  {}

  /** A step that changes only the tables. */
  lemma TableStep(s: System, u: Tables)
    requires Inv(s) && Schema(u) && RowsOk(u) && Steady(s.db, u)
    ensures Inv(s.(db := u))
  {
    OthersKeep(s, u);
    assert forall w, r | Owns(s.(db := u), w, r) :: Owns(s, w, r);
  }

  lemma ClaimStep(s: System, w: int, startedAt: Time, finishedAt: Time, commit: bool)
    requires Inv(s) && w in s.workers && s.workers[w].phase.Loaded?
    ensures Inv(ApplyClaim(s, w, startedAt, finishedAt, commit))
    ensures Steady(s.db, ApplyClaim(s, w, startedAt, finishedAt, commit).db)
    ensures Grows(s.db, ApplyClaim(s, w, startedAt, finishedAt, commit).db)
  {
    var me := s.workers[w];
    var res := ClaimTx(s.db, me.runId, startedAt, finishedAt);
    if commit && res.Some? {
      ClaimKeeps(s.db, me.runId, startedAt, finishedAt);
      var s' := ApplyClaim(s, w, startedAt, finishedAt, commit);
      forall v | Owns(s, v, me.runId) ensures res.value.verdict != ClaimVerdict.Claimed {
        assert WorkerOk(s.db, s.workers[v]);
      }
      WorkerStep(s, w, s'.workers[w].phase, res.value.tables);
    } else {
      WorkerStep(s, w, Finished, s.db);
    }
  }

  lemma DueStep(s: System, a: Action)
    requires Inv(s) && a.ScanJob? && Enabled(s, a)
    ensures Inv(Apply(s, a)) && Steady(s.db, Apply(s, a).db) && Grows(s.db, Apply(s, a).db)
  {
    var e := s.scan.due[0];
    var u := Apply(s, a).db;
    if u != s.db {
      var next := ComputeNextRunAt(e.job.schedule, s.scan.now, a.cronNext);
      DueKeeps(s.cfg, s.db, e.jobId, e.job, s.scan.now, next.value, a.listed, a.createdAt);
    }
    TableStep(s, u);
    assert forall w, r | Owns(Apply(s, a), w, r) :: Owns(s, w, r);
  }

  lemma WorkerActionStep(s: System, a: Action)
    requires Inv(s) && Enabled(s, a)
    requires a.LoadRun? || a.LoadJob? || a.CancelBeforeExecute? || a.Execute? || a.Return? || a.Finalize?
    ensures Inv(Apply(s, a)) && Steady(s.db, Apply(s, a).db) && Grows(s.db, Apply(s, a).db)
  {
    var s' := Apply(s, a);
    var me := s.workers[a.w];
    assert WorkerOk(s.db, me);
    assert me.phase.Owning() ==> Owns(s, a.w, me.runId);
    if a.CancelBeforeExecute? && s'.db != s.db {
      CancelBeforeExecuteKeeps(s.db, me.runId, me.phase.run, a.finishedAt);
    } else if a.Finalize? && s'.db != s.db {
      FinalizeEffect(s.db, me.runId, me.phase.run, me.phase.job, me.phase.outcome, a.finishedAt, a.createdAt);
      FinalizeKeeps(s.db, me.runId, me.phase.run, me.phase.job, me.phase.outcome, a.finishedAt, a.createdAt);
    }
    WorkerStep(s, a.w, s'.workers[a.w].phase, s'.db);
  }

  lemma DispatchStep(s: System, a: Action)
    requires Inv(s) && Enabled(s, a)
    requires a.ReadFree? || a.ListPending? || a.StopRound?
    ensures Inv(Apply(s, a)) && Apply(s, a).db == s.db
  {
    assert forall v, r | Owns(Apply(s, a), v, r) :: Owns(s, v, r);
  }

  lemma SpawnStep(s: System, w: int)
    requires Inv(s) && Enabled(s, Spawn(w))
    ensures var s' := Apply(s, Spawn(w)); Inv(s') && s'.db == s.db
  {
    var left := s.dispatcher.left;
    SpawnTokens(s, w, Worker(left[0], Spawned), left);
    assert forall v, r | Owns(Apply(s, Spawn(w)), v, r) :: Owns(s, v, r);
  }

  lemma SpawnTokens(s: System, w: int, me: Worker, left: seq<int>)
    requires TokensOk(s) && s.dispatcher == Round(left) && left != [] && w !in s.workers
    ensures TokensOk(s.(tokens := s.tokens + 1, workers := s.workers[w := me],
                        dispatcher := if |left| == 1 then Idle else Round(left[1..])))
  {
    var workers := s.workers[w := me];
    assert workers.Keys == s.workers.Keys + {w};
    CardinalityOfKeys(workers);
    CardinalityOfKeys(s.workers);
  }

  lemma ReleaseStep(s: System, w: int)
    requires Inv(s) && Enabled(s, Release(w))
    ensures var s' := Apply(s, Release(w)); Inv(s') && s'.db == s.db
  {
    var s' := Apply(s, Release(w));
    assert forall v, r | Owns(s', v, r) :: Owns(s, v, r);
    assert s'.workers.Keys == s.workers.Keys - {w};
    CardinalityOfKeys(s'.workers);
    CardinalityOfKeys(s.workers);
  }

  lemma CancelCommitStep(s: System, c: int, commit: bool)
    requires Inv(s) && c in s.cancels
    ensures var s' := Apply(s, CancelCommit(c, commit)); Inv(s') && Steady(s.db, s'.db) && Grows(s.db, s'.db)
  {
    var call := s.cancels[c];
    assert CancelOk(s.db, call);
    CancelWriteKeeps(s.db, call.runId, call.target, call.read);
    var s' := Apply(s, CancelCommit(c, commit));
    TableStep(s, s'.db);
    assert forall v, r | Owns(s', v, r) :: Owns(s, v, r);
  }

  lemma CancelReadStep(s: System, c: int, runId: int)
    requires Inv(s) && Enabled(s, CancelRead(c, runId))
    ensures var s' := Apply(s, CancelRead(c, runId)); Inv(s') && s'.db == s.db
  {
    assert forall v, r | Owns(ApplyCancelRead(s, c, runId), v, r) :: Owns(s, v, r);
  }

  lemma CancelAtOnceStep(s: System, runId: int)
    requires Inv(s)
    ensures var s' := ApplyCancelAtOnce(s, runId); Inv(s') && Steady(s.db, s'.db) && Grows(s.db, s'.db)
  {
    var s' := ApplyCancelAtOnce(s, runId);
    if s'.db != s.db {
      CancelWriteKeeps(s.db, runId, CancelTarget(s.db.runs[runId].status).value, s.db.runs[runId]);
    }
    TableStep(s, s'.db);
  }

  lemma TriggerStep(s: System, jobId: int, now: Time, createdAt: Time, commit: bool)
    requires Inv(s)
    ensures var s' := Apply(s, Trigger(jobId, now, createdAt, commit));
            Inv(s') && Steady(s.db, s'.db) && Grows(s.db, s'.db)
  {
    var s' := Apply(s, Trigger(jobId, now, createdAt, commit));
    if s'.db != s.db {
      AddRunKeeps(s.db, PendingRun(jobId, now, createdAt), RunCreated);
    }
    TableStep(s, s'.db);
  }

  lemma CreateJobStep(s: System, job: Job)
    requires Inv(s)
    ensures var u := InsertJob(s.db, job); Inv(s.(db := u)) && Steady(s.db, u) && Grows(s.db, u)
  {
    TableStep(s, InsertJob(s.db, job));
  }

  lemma UpdateCommitStep(s: System, u: int, jobId: int, commit: bool)
    requires Inv(s) && Enabled(s, UpdateCommit(u, jobId, commit))
    ensures var s' := Apply(s, UpdateCommit(u, jobId, commit)); Inv(s') && Steady(s.db, s'.db) && Grows(s.db, s'.db)
  {
    var t := if commit then UpdateJob(s.db, jobId, s.updates[u].job) else s.db;
    TableStep(s, t);
    UpdatesStep(s.(db := t), s.updates - {u});
  }

  lemma DeleteStep(s: System, a: Action)
    requires Inv(s) && (a.RemoveJob? || a.Prune?)
    ensures Inv(Apply(s, a)) && Steady(s.db, Apply(s, a).db)
  {
    var u := Apply(s, a).db;
    DeleteKeeps(s.db, if a.RemoveJob? then RunsOfJob(s.db, a.jobId) else PrunableRuns(s.db, a.before));
    TableStep(s, u);
  }

  /** The steps that only read the tables, or do not touch them. */
  predicate Quiet(a: Action) {
    Reads(a) || a.Spawn? || a.Release? || a.CancelRead? || a.Crash?
  }

  predicate Reads(a: Action) {
    a.ScanStart? || a.ReadFree? || a.ListPending? || a.StopRound? || a.UpdateRead? || a.UpdateClock?
  }

  lemma ReadStep(s: System, a: Action)
    requires Inv(s) && Enabled(s, a) && Reads(a)
    ensures Inv(Apply(s, a)) && Apply(s, a).db == s.db
  {
    if a.ScanStart? {
      ScanStartStep(s, a.now, a.due);
    } else if a.UpdateRead? {
      UpdateReadStep(s, a.u, a.jobId, a.job);
    } else if a.UpdateClock? {
      UpdateClockStep(s, a.u, a.now, a.cronNext);
    } else {
      DispatchStep(s, a);
    }
  }

  lemma QuietStep(s: System, a: Action)
    requires Inv(s) && Enabled(s, a) && Quiet(a)
    ensures Inv(Apply(s, a)) && Apply(s, a).db == s.db
  {
    if Reads(a) {
      ReadStep(s, a);
    } else if a.Spawn? {
      SpawnStep(s, a.w);
    } else if a.Release? {
      ReleaseStep(s, a.w);
    } else if a.CancelRead? {
      CancelReadStep(s, a.c, a.runId);
    } else {
      CrashStep(s);
    }
  }

  lemma UpdatesStep(s: System, updates: map<int, UpdateCall>)
    requires Inv(s)
    ensures Inv(s.(updates := updates))
  {
    assert forall v, r | Owns(s.(updates := updates), v, r) :: Owns(s, v, r);
  }

  lemma UpdateReadStep(s: System, u: int, jobId: int, job: Job)
    requires Inv(s) && Enabled(s, UpdateRead(u, jobId, job))
    ensures var s' := Apply(s, UpdateRead(u, jobId, job)); Inv(s') && s'.db == s.db
  {
    UpdatesStep(s, AfterUpdateRead(s, u, jobId, job));
  }

  lemma UpdateClockStep(s: System, u: int, now: Time, cronNext: Option<Time>)
    requires Inv(s) && Enabled(s, UpdateClock(u, now, cronNext))
    ensures var s' := Apply(s, UpdateClock(u, now, cronNext)); Inv(s') && s'.db == s.db
  {
    UpdatesStep(s, AfterUpdateClock(s, u, now, cronNext));
  }

  lemma ScanStartStep(s: System, now: Time, due: seq<DueEntry>)
    requires Inv(s) && Enabled(s, ScanStart(now, due))
    ensures var s' := Apply(s, ScanStart(now, due)); Inv(s') && s'.db == s.db
  {
    assert forall v, r | Owns(Apply(s, ScanStart(now, due)), v, r) :: Owns(s, v, r);
  }

  lemma CrashStep(s: System)
    requires Inv(s)
    ensures var s' := Apply(s, Crash); Inv(s') && s'.db == s.db
  {}

  /** The steps of the services and of retention that write. */
  predicate Serves(a: Action) {
    a.CancelCommit? || a.CancelAtOnce? || a.RemoveJob? || a.Prune? || a.Trigger? || a.CreateJob? || a.UpdateCommit?
  }

  lemma ServiceStep(s: System, a: Action)
    requires Inv(s) && Enabled(s, a) && Serves(a)
    ensures Inv(Apply(s, a)) && Steady(s.db, Apply(s, a).db)
    ensures !Deletes(a) ==> Grows(s.db, Apply(s, a).db)
  {
    if a.CancelCommit? {
      CancelCommitStep(s, a.c, a.commit);
    } else if a.CancelAtOnce? {
      CancelAtOnceStep(s, a.runId);
    } else if a.Trigger? {
      TriggerStep(s, a.jobId, a.now, a.createdAt, a.commit);
    } else if a.CreateJob? {
      CreateJobStep(s, WithNext(a.job, a.now, a.cronNext));
    } else if a.UpdateCommit? {
      UpdateCommitStep(s, a.u, a.jobId, a.commit);
    } else {
      DeleteStep(s, a);
    }
  }

  lemma WriteStep(s: System, a: Action)
    requires Inv(s) && Enabled(s, a) && !Quiet(a)
    ensures Inv(Apply(s, a)) && Steady(s.db, Apply(s, a).db)
    ensures !Deletes(a) ==> Grows(s.db, Apply(s, a).db)
  {
    if Serves(a) {
      ServiceStep(s, a);
    } else if a.ScanJob? {
      DueStep(s, a);
    } else if a.Claim? {
      ClaimStep(s, a.w, a.startedAt, a.finishedAt, a.commit);
    } else {
      WorkerActionStep(s, a);
    }
  }

  /** Every step of every actor, committed or rolled back, keeps the invariant; no row returns to pending. */
  lemma InvStep(s: System, a: Action)
    requires Inv(s) && Enabled(s, a)
    ensures Inv(Apply(s, a)) && Steady(s.db, Apply(s, a).db)
    ensures !Deletes(a) ==> Grows(s.db, Apply(s, a).db)
  {
    if Quiet(a) {
      QuietStep(s, a);
    } else {
      WriteStep(s, a);
    }
  }

  lemma InitInv(s: System)
    requires Init(s)
    ensures Inv(s)
  {}

  /** The invariant holds after any run of the system. */
  lemma {:induction false} InvExec(s: System, acts: seq<Action>)
    requires Inv(s) && Exec(s, acts).Some?
    ensures Inv(Exec(s, acts).value)
    decreases |acts|
  {
    if acts != [] {
      InvStep(s, acts[0]);
      InvExec(Apply(s, acts[0]), acts[1..]);
    }
  }

  // ---------- What a step leaves alone ----------

  /** Action a is a step of worker w. */
  predicate StepOf(a: Action, w: int) {
    && (a.Spawn? || a.LoadRun? || a.LoadJob? || a.Claim? || a.CancelBeforeExecute? || a.Execute? || a.Return?
        || a.Finalize?)
    && a.w == w
  }

  /** The steps of a worker that is there already. */
  predicate WorkerMoves(a: Action) {
    a.LoadRun? || a.LoadJob? || a.Claim? || a.CancelBeforeExecute? || a.Execute? || a.Return? || a.Finalize?
  }

  lemma MovesOne(s: System, a: Action, w: int)
    requires Enabled(s, a) && WorkerMoves(a) && a.w != w && w in Apply(s, a).workers
    ensures w in s.workers && Apply(s, a).workers[w] == s.workers[w]
  {}

  lemma OthersMoveNone(s: System, a: Action, w: int)
    requires Enabled(s, a) && !WorkerMoves(a) && w in Apply(s, a).workers && !StepOf(a, w)
    ensures w in s.workers && Apply(s, a).workers[w] == s.workers[w]
  {}

  /** Only its own steps change a worker. */
  lemma OtherWorkersKeep(s: System, a: Action, w: int)
    requires Enabled(s, a) && w in Apply(s, a).workers && !StepOf(a, w)
    ensures w in s.workers && Apply(s, a).workers[w] == s.workers[w]
  {
    if WorkerMoves(a) {
      MovesOne(s, a, w);
    } else {
      OthersMoveNone(s, a, w);
    }
  }

  /** An owner was an owner of the same row with the same run key before, or has just claimed a pending row. */
  lemma OwnerStep(s: System, a: Action, w: int, r: int)
    requires Enabled(s, a) && Owns(Apply(s, a), w, r)
    ensures Owns(s, w, r) || (a.Claim? && a.w == w && s.workers[w].runId == r && Claimable(s.db, r)
                              && Apply(s, a).workers[w].phase.Claimed?)
    ensures w in s.workers && s.workers[w].phase.HasJob()
            && Apply(s, a).workers[w].phase.run.Key() == s.workers[w].phase.run.Key()
            && Apply(s, a).workers[w].phase.job.retryLimit == s.workers[w].phase.job.retryLimit
    ensures Apply(s, a).workers[w].phase.Claimed? && !a.Claim? ==> s.workers[w].phase.Claimed?
  {
    if !StepOf(a, w) {
      OtherWorkersKeep(s, a, w);
    }
  }
}
