/**
 The goroutines with their local variables, one method for what each does between two points where
 others can come in.  Every method takes one step of the run lifecycle.
 */
module Actors {
  import opened Model
  import T = Tables
  import opened Transactions
  import opened Lifecycle
  import opened Invariant
  import opened Listings
  import opened Timing
  import opened Store

  /** runWorker. */
  class RunWorker {
    const engine: Engine
    const runId: int
    var phase: Phase

    /** In state s of the lifecycle, this is worker w. */
    ghost predicate Is(s: System, w: int)
      reads this, engine.store
    {
      w in s.workers && s.workers[w] == Worker(runId, phase) && s.db == engine.store.Db() && s.cfg == engine.cfg
    }

    constructor (engine: Engine, runId: int)
      ensures this.engine == engine && this.runId == runId && phase == Spawned
    {
      this.engine, this.runId, phase := engine, runId, Spawned;
    }

    method ReadRun(broken: bool, ghost s: System, ghost w: int)
      requires Is(s, w) && phase.Spawned?
      modifies this
      ensures Enabled(s, LoadRun(w, !broken)) && Is(Apply(s, LoadRun(w, !broken)), w)
    {
      var row := engine.store.GetRun(runId, broken);
      phase := if row.Some? then RunLoaded(row.value) else Finished;
    }

    method ReadJob(broken: bool, ghost s: System, ghost w: int)
      requires Is(s, w) && phase.RunLoaded?
      modifies this
      ensures Enabled(s, LoadJob(w, !broken)) && Is(Apply(s, LoadJob(w, !broken)), w)
    {
      var run := phase.run;
      if !broken && run.jobId in engine.store.jobs {
        phase := Loaded(run, engine.store.jobs[run.jobId]);
      } else {
        phase := Finished;
      }
    }

    /** The claim: a worker goes on only with a row that it has itself set to running. */
    method ClaimOrStop(startedAt: Time, finishedAt: Time, faults: Faults, ghost s: System, ghost w: int)
      returns (committed: bool)
      requires Is(s, w) && phase.Loaded?
      modifies this, engine.store
      ensures var a := Claim(w, startedAt, finishedAt, committed); Enabled(s, a) && Is(Apply(s, a), w)
      ensures committed && old(T.Claimable(engine.store.Db(), runId)) <==> phase.Claimed?
    {
      var run, job := phase.run, phase.job;
      var verdict := engine.ClaimRun(runId, startedAt, finishedAt, faults);
      committed := verdict.Some?;
      if verdict == Some(ClaimVerdict.Claimed) {
        run := run.(startedAt := Some(startedAt));
        phase := Phase.Claimed(run, job);
      } else {
        phase := Finished;
      }
    }

    /** The context has ended after the claim. */
    method GiveUp(finishedAt: Time, faults: Faults, ghost s: System, ghost w: int) returns (committed: bool)
      requires Is(s, w) && phase.Claimed?
      modifies this, engine.store
      ensures var a := CancelBeforeExecute(w, finishedAt, committed); Enabled(s, a) && Is(Apply(s, a), w)
    {
      committed := engine.CancelBeforeExecute(runId, phase.run, finishedAt, faults);
      phase := Finished;
    }

    /** The call of Execute, with the effective timeout; runCtx gets a deadline if that is positive. */
    method CallExecute(ghost s: System, ghost w: int) returns (deadline: bool)
      requires Is(s, w) && phase.Claimed?
      modifies this
      ensures Enabled(s, Execute(w)) && Is(Apply(s, Execute(w)), w)
      ensures deadline <==> phase.job.timeoutSec > 0
      ensures phase.Executing? && MayTake(engine.cfg, old(phase.job.timeoutSec), phase.job.timeoutSec)
      ensures deadline <==> HasTimeout(engine.cfg, old(phase.job.timeoutSec))
    {
      var run, job := phase.run, phase.job;
      job := job.(timeoutSec := EffectiveTimeout(engine.cfg, job.timeoutSec));
      deadline := job.timeoutSec > 0;
      phase := Executing(run, job);
    }

    /** Execute returns; only a context with a deadline can have exceeded it. */
    method TakeOutcome(outcome: Outcome, ghost s: System, ghost w: int)
      requires Is(s, w) && phase.Executing?
      requires outcome.ctxErr == Some(DeadlineExceeded) ==> phase.job.timeoutSec > 0
      modifies this
      ensures Enabled(s, Return(w, outcome)) && Is(Apply(s, Return(w, outcome)), w)
    {
      phase := Returned(phase.run, phase.job, outcome);
    }

    method FinalizeOutcome(finishedAt: Time, createdAt: Time, faults: Faults, ghost s: System, ghost w: int)
      returns (committed: bool)
      requires Is(s, w) && phase.Returned?
      modifies this, engine.store
      ensures var a := Finalize(w, finishedAt, createdAt, committed); Enabled(s, a) && Is(Apply(s, a), w)
    {
      committed := engine.FinalizeRun(runId, phase.run, phase.job, phase.outcome, finishedAt, createdAt, faults);
      phase := Finished;
    }
  }

  /** processDueJobs: the due jobs it has listed and not yet processed. */
  class DueJobLoop {
    const engine: Engine
    var scan: Lifecycle.Scan

    ghost predicate Is(s: System)
      reads this, engine.store
    {
      s.scan == scan && s.db == engine.store.Db() && s.cfg == engine.cfg
    }

    constructor (engine: Engine)
      ensures this.engine == engine && scan == NoScan
    {
      this.engine, scan := engine, NoScan;
    }

    /** A scan begins unless the query fails. */
    method List(now: Time, broken: bool, ghost s: System)
      requires Is(s) && scan.NoScan?
      modifies this
      ensures broken ==> Is(s)
      ensures !broken ==> var a := ScanStart(now, DueList(s.db, now)); Enabled(s, a) && Is(Apply(s, a))
    {
      var due := engine.store.ListDue(now, broken);
      if due.None? {
        return;
      }
      DueListLists(s.db, now);
      scan := if due.value == [] then NoScan else Scan(now, due.value);
    }

    /** One turn of the loop: an error of one job does not keep the others from being processed. */
    method ProcessNext(cronNext: Option<Time>, createdAt: Time, faults: Faults, ghost s: System)
      returns (committed: bool)
      requires Is(s) && scan.Scan? && scan.due != []
      requires T.Schema(s.db) && RowsOk(s.db)
      modifies this, engine.store
      ensures var a := ScanJob(cronNext, RunningPage(s.db, s.scan.due[0].jobId), createdAt, committed);
              Enabled(s, a) && Is(Apply(s, a))
      ensures var page := RunningPage(s.db, s.scan.due[0].jobId);
              (forall k :: !faults(k)) && DueResult(s, cronNext, page, createdAt).Some? ==> committed
    {
      var e, now := scan.due[0], scan.now;
      RunningPageLists(s.db, e.jobId);
      committed := engine.ProcessDueJob(e.jobId, e.job, now, cronNext, createdAt, faults);
      scan := if |scan.due| == 1 then NoScan else Scan(now, scan.due[1..]);
    }
  }

  /** A CancelRun with others between its read and its write. */
  class CancelRequest {
    const engine: Engine
    var call: Option<CancelCall>

    ghost predicate Is(s: System, c: int)
      reads this, engine.store
    {
      s.db == engine.store.Db() && match call
                                   case None => c !in s.cancels
                                   case Some(mine) => c in s.cancels && s.cancels[c] == mine
    }

    constructor (engine: Engine)
      ensures this.engine == engine && call == None
    {
      this.engine, call := engine, None;
    }

    /** A read that fails ends the call. */
    method Read(id: int, broken: bool, ghost s: System, ghost c: int)
      requires Is(s, c) && call.None?
      modifies this
      ensures broken ==> Is(s, c) && call.None?
      ensures !broken ==> Enabled(s, CancelRead(c, id)) && Is(Apply(s, CancelRead(c, id)), c)
    {
      var row := engine.store.GetRun(id, broken);
      if row.None? {
        return;
      }
      var run := row.value;
      match run.status {
        case Pending => call := Some(CancelCall(id, Cancelled, run));
        case Running => call := Some(CancelCall(id, Cancelling, run));
        case Cancelling => call := Some(CancelCall(id, Cancelling, run));
        case _ =>
      }
    }

    /** The write takes no look at what the row has become. */
    method Write(broken: bool, ghost s: System, ghost c: int)
      requires Is(s, c) && call.Some?
      modifies this, engine.store
      ensures Enabled(s, CancelCommit(c, !broken)) && Is(Apply(s, CancelCommit(c, !broken)), c)
    {
      var run := call.value.read;
      var ok := engine.store.UpdateStatus(call.value.runId, call.value.target, run.startedAt, run.finishedAt,
                                          run.exitCode, run.errorMessage, broken);
      call := None;
    }
  }

  /** An UpdateJob, with others between its read, its clock reading and its write. */
  class UpdateRequest {
    const engine: Engine
    var call: Option<UpdateCall>

    ghost predicate Is(s: System, u: int)
      reads this, engine.store
    {
      s.db == engine.store.Db() && match call
                                   case None => u !in s.updates
                                   case Some(mine) => u in s.updates && s.updates[u] == mine
    }

    constructor (engine: Engine)
      ensures this.engine == engine && call == None
    {
      this.engine, call := engine, None;
    }

    /** A job that is missing, or cannot be read, ends the call. */
    method Read(jobId: int, job: Job, broken: bool, ghost s: System, ghost u: int)
      requires Is(s, u) && call.None?
      modifies this
      ensures broken ==> Is(s, u) && call.None?
      ensures !broken ==> Enabled(s, UpdateRead(u, jobId, job)) && Is(Apply(s, UpdateRead(u, jobId, job)), u)
    {
      if broken || jobId !in engine.store.jobs {
        return;
      }
      var existing := engine.store.jobs[jobId];
      call := Some(UpdateCall(jobId, job.(lastScheduledAt := existing.lastScheduledAt), false));
    }

    /** The next run time is computed from now; without one the call ends. */
    method ReadClock(now: Time, cronNext: Option<Time>, ghost s: System, ghost u: int)
      requires Is(s, u) && call.Some? && !call.value.timed
      modifies this
      ensures Enabled(s, UpdateClock(u, now, cronNext)) && Is(Apply(s, UpdateClock(u, now, cronNext)), u)
      ensures call.None? <==> NeverRuns(old(call.value.job.schedule), cronNext)
      ensures call.Some? ==>
                && call.value.timed && call.value.job.nextRunAt.Some?
                && RunsNext(old(call.value.job.schedule), now, cronNext, call.value.job.nextRunAt.value)
                && call.value == old(call.value).(timed := true, job := old(call.value.job).(
                     nextRunAt := call.value.job.nextRunAt))
    {
      var mine := call.value;
      var next := ComputeNextRunAt(mine.job.schedule, now, cronNext);
      call := if next.None? then None else Some(UpdateCall(mine.jobId, mine.job.(nextRunAt := next), true));
    }

    /** The write takes no look at what the schedule has become. */
    method Write(broken: bool, ghost s: System, ghost u: int)
      requires Is(s, u) && call.Some? && call.value.timed
      modifies this, engine.store
      ensures var a := UpdateCommit(u, old(call.value.jobId), !broken); Enabled(s, a) && Is(Apply(s, a), u)
    {
      var ok := engine.store.UpdateJob(call.value.jobId, call.value.job, broken);
      call := None;
    }
  }
}
