/** The shape of the retry rows of a slot. */
module RetryChain {
  import opened Model
  import opened Tables
  import opened Transactions
  import opened Lifecycle
  import opened Invariant
  import opened RowSteps
  import opened ExecuteOnce
  import opened TerminalStability

  /** Step a is the committed last transaction of a worker whose failed or timed-out run gives retry row x. */
  ghost predicate Retries(s: System, a: Action, x: int, row: Run) {
    && a.Finalize? && a.commit && a.w in s.workers && s.workers[a.w].phase.Returned?
    && var me := s.workers[a.w];
       && me.runId in s.db.runs && Classify(me.phase.outcome).Retryable() && ShouldRetry(me.phase.job, me.phase.run)
       && x == s.db.runSeq + 1 && row == BuildRetryRun(me.phase.run, a.createdAt)
  }

  lemma DueNewRow(s: System, a: Action, x: int)
    requires Inv(s) && a.ScanJob? && Enabled(s, a) && x !in s.db.runs && x in Apply(s, a).db.runs
    ensures Apply(s, a).db.runs[x].attempt == 0
  {
    var e := s.scan.due[0];
    var next := ComputeNextRunAt(e.job.schedule, s.scan.now, a.cronNext).value;
    DueTakesSlot(s.cfg, s.db, e.jobId, e.job, s.scan.now, next, a.listed, a.createdAt);
  }

  lemma FinalizeNewRow(s: System, a: Action, x: int)
    requires Inv(s) && a.Finalize? && Enabled(s, a) && x !in s.db.runs && x in Apply(s, a).db.runs
    ensures Retries(s, a, x, Apply(s, a).db.runs[x])
  {
    var me := s.workers[a.w];
    FinalizeEffect(s.db, me.runId, me.phase.run, me.phase.job, me.phase.outcome, a.finishedAt, a.createdAt);
  }

  /** A new row is an attempt 0, or the retry of a run that its worker has just seen fail. */
  lemma NewRowStep(s: System, a: Action, x: int)
    requires Inv(s) && Enabled(s, a) && x !in s.db.runs && x in Apply(s, a).db.runs
    ensures Apply(s, a).db.runs[x].attempt == 0 || Retries(s, a, x, Apply(s, a).db.runs[x])
  {
    if Quiet(a) {
      QuietStep(s, a);
    } else if OneRow(a) {
      OneRowStep(s, a);
    } else if a.ScanJob? {
      DueNewRow(s, a, x);
    } else if a.Finalize? {
      FinalizeNewRow(s, a, x);
    } else {
      OtherNewRow(s, a, x);
    }
  }

  lemma OtherNewRow(s: System, a: Action, x: int)
    requires Inv(s) && Enabled(s, a) && x !in s.db.runs && x in Apply(s, a).db.runs
    requires !Quiet(a) && !OneRow(a) && !a.ScanJob? && !a.Finalize?
    ensures Apply(s, a).db.runs[x].attempt == 0
  {}

  lemma ExecLast(s: System, acts: seq<Action>)
    requires acts != [] && Exec(s, acts).Some?
    ensures var most, a := acts[..|acts| - 1], acts[|acts| - 1];
            && Exec(s, most).Some? && Enabled(Exec(s, most).value, a)
            && Exec(s, acts) == Some(Apply(Exec(s, most).value, a))
  {
    var most, a := acts[..|acts| - 1], acts[|acts| - 1];
    assert acts == most + [a];
    ExecSplit(s, most, [a]);
    if Exec(s, most).Some? && Enabled(Exec(s, most).value, a) {
      assert Exec(Apply(Exec(s, most).value, a), [a][1..]) == Some(Apply(Exec(s, most).value, a));
    }
  }

  /** Step a of state s gives retry row x with this key: its run has the same slot and the attempt before. */
  ghost predicate BirthOf(s: System, a: Action, x: int, key: RunKey) {
    && a.Finalize? && a.w in s.workers && Owns(s, a.w, s.workers[a.w].runId) && s.workers[a.w].phase.Returned?
    && var run := s.workers[a.w].phase.run;
       && Retries(s, a, x, BuildRetryRun(run, a.createdAt))
       && NextKey(run.Key()) == key && s.db.runs[s.workers[a.w].runId].Key() == run.Key()
  }

  /** The i-th action of a run gives retry row x with this key. */
  ghost predicate BornAt(s0: System, acts: seq<Action>, i: nat, x: int, key: RunKey) {
    i < |acts| && Exec(s0, acts[..i]).Some? && BirthOf(Exec(s0, acts[..i]).value, acts[i], x, key)
  }

  lemma NewRowBirth(s: System, a: Action, x: int)
    requires Inv(s) && Enabled(s, a) && x !in s.db.runs && x in Apply(s, a).db.runs
             && Apply(s, a).db.runs[x].attempt > 0
    ensures BirthOf(s, a, x, Apply(s, a).db.runs[x].Key())
  {
    NewRowStep(s, a, x);
    assert WorkerOk(s.db, s.workers[a.w]);
  }

  /**
   Every retry row goes back to one committed finalization: the run with the same job and slot and
   the attempt before it was claimed, executed, and ended failed or timed out.
   */
  lemma {:induction false} RetryHasParent(s0: System, acts: seq<Action>, x: int) returns (i: nat)
    requires Init(s0) && Exec(s0, acts).Some?
    requires x in Exec(s0, acts).value.db.runs && Exec(s0, acts).value.db.runs[x].attempt > 0
    ensures BornAt(s0, acts, i, x, Exec(s0, acts).value.db.runs[x].Key())
  {
    ExecLast(s0, acts);
    var most, a := acts[..|acts| - 1], acts[|acts| - 1];
    var s := Exec(s0, most).value;
    InvExec(s0, most);
    RowIsOldOrBorn(s, a, x);
    if x in s.db.runs {
      i := RetryHasParent(s0, most, x);
      BornEarlier(s0, acts, i, x, s.db.runs[x].Key());
    } else {
      i := |acts| - 1;
    }
  }

  lemma RowIsOldOrBorn(s: System, a: Action, x: int)
    requires Inv(s) && Enabled(s, a) && x in Apply(s, a).db.runs && Apply(s, a).db.runs[x].attempt > 0
    ensures if x in s.db.runs then
              Apply(s, a).db.runs[x].Key() == s.db.runs[x].Key()
                && Apply(s, a).db.runs[x].attempt == s.db.runs[x].attempt
            else BirthOf(s, a, x, Apply(s, a).db.runs[x].Key())
  {
    if x in s.db.runs {
      InvStep(s, a);
    } else {
      NewRowBirth(s, a, x);
    }
  }

  lemma BornEarlier(s0: System, acts: seq<Action>, i: nat, x: int, key: RunKey)
    requires acts != [] && BornAt(s0, acts[..|acts| - 1], i, x, key)
    ensures BornAt(s0, acts, i, x, key)
  {
    assert acts[..|acts| - 1][..i] == acts[..i];
  }

  // ---------- Contiguous attempts ----------

  /** Row y is past its one claim: not pending, and no worker owns it any more. */
  ghost predicate Spent(s: System, y: int) {
    y in s.db.runs && !s.db.runs[y].status.Pending? && !HasOwner(s, y)
  }

  ghost predicate ParentOf(s: System, y: int, x: int) {
    x in s.db.runs && Spent(s, y) && NextKey(s.db.runs[y].Key()) == s.db.runs[x].Key()
  }

  /** Each retry row has a spent parent. */
  ghost predicate Chained(s: System) {
    forall x <- s.db.runs | s.db.runs[x].attempt > 0 :: exists y :: ParentOf(s, y, x)
  }

  lemma ParentStays(s: System, a: Action, y: int, x: int)
    requires Inv(s) && Enabled(s, a) && !Deletes(a) && ParentOf(s, y, x)
    ensures ParentOf(Apply(s, a), y, x)
  {
    InvStep(s, a);
    NoNewOwner(s, a, y);
  }

  lemma NewParent(s: System, a: Action, x: int)
    requires Inv(s) && Enabled(s, a) && x in Apply(s, a).db.runs && Retries(s, a, x, Apply(s, a).db.runs[x])
    ensures ParentOf(Apply(s, a), s.workers[a.w].runId, x)
  {
    var s', y := Apply(s, a), s.workers[a.w].runId;
    InvStep(s, a);
    assert Owns(s, a.w, y) && WorkerOk(s.db, s.workers[a.w]);
    forall v | Owns(s', v, y) ensures false {
      OwnerStep(s, a, v, y);
    }
  }

  lemma ChainedStep(s: System, a: Action)
    requires Inv(s) && Chained(s) && Enabled(s, a) && !Deletes(a)
    ensures Chained(Apply(s, a))
  {
    var s' := Apply(s, a);
    InvStep(s, a);
    forall x <- s'.db.runs | s'.db.runs[x].attempt > 0 ensures exists y :: ParentOf(s', y, x) {
      if x in s.db.runs {
        var y :| ParentOf(s, y, x);
        ParentStays(s, a, y, x);
      } else {
        NewRowStep(s, a, x);
        NewParent(s, a, x);
      }
    }
  }

  lemma {:induction false} ChainedExec(s: System, acts: seq<Action>)
    requires Inv(s) && Chained(s) && RowsPresent(s) && Exec(s, acts).Some? && NothingDeleted(acts)
    ensures var s' := Exec(s, acts).value; Inv(s') && Chained(s') && RowsPresent(s')
    decreases |acts|
  {
    if acts != [] {
      InvStep(s, acts[0]);
      ChainedStep(s, acts[0]);
      RowsPresentStep(s, acts[0]);
      ChainedExec(Apply(s, acts[0]), acts[1..]);
    }
  }

  lemma {:induction false} AttemptsBelow(s: System, x: int, b: nat) returns (y: int)
    requires Inv(s) && Chained(s) && x in s.db.runs && b <= s.db.runs[x].attempt
    ensures y in s.db.runs && s.db.runs[y].Key() == s.db.runs[x].Key().(attempt := b)
    decreases s.db.runs[x].attempt
  {
    if s.db.runs[x].attempt == b {
      y := x;
    } else {
      var p :| ParentOf(s, p, x);
      assert Shape(s.db.runs[p]);
      y := AttemptsBelow(s, p, b);
    }
  }

  /** Where nothing is deleted, the attempts of a slot are 0, 1, ..., k without a gap. */
  lemma AttemptsAreContiguous(s0: System, acts: seq<Action>, x: int, b: nat)
    requires Init(s0) && Exec(s0, acts).Some? && NothingDeleted(acts)
    requires x in Exec(s0, acts).value.db.runs && b <= Exec(s0, acts).value.db.runs[x].attempt
    ensures KeyTaken(Exec(s0, acts).value.db, Exec(s0, acts).value.db.runs[x].Key().(attempt := b))
  {
    ChainedExec(s0, acts);
    var y := AttemptsBelow(Exec(s0, acts).value, x, b);
  }

  /** The key that a retry of row r would take is free. */
  lemma RetryKeyFree(s: System, r: int)
    requires Inv(s) && Chained(s) && HasOwner(s, r) && r in s.db.runs
    ensures !KeyTaken(s.db, NextKey(s.db.runs[r].Key()))
  {
    forall x <- s.db.runs ensures s.db.runs[x].Key() != NextKey(s.db.runs[r].Key()) {
      if s.db.runs[x].attempt > 0 {
        var y :| ParentOf(s, y, x);
        assert y != r;
      } else {
        assert Shape(s.db.runs[r]);
      }
    }
  }

  lemma NeverStuck(s: System, w: int)
    requires Inv(s) && Chained(s) && RowsPresent(s) && w in s.workers && s.workers[w].phase.Owning()
    ensures !KeyTaken(s.db, NextKey(s.workers[w].phase.run.Key())) && !Stuck(s.db, s.workers[w].phase)
  {
    assert WorkerOk(s.db, s.workers[w]) && Owns(s, w, s.workers[w].runId);
    RetryKeyFree(s, s.workers[w].runId);
  }

  /**
   Where nothing is deleted, the retry insert never meets UNIQUE:
   only the database itself can fail the transaction.
   */
  lemma RetryNeverCollides(s0: System, acts: seq<Action>, w: int)
    requires Init(s0) && Exec(s0, acts).Some? && NothingDeleted(acts)
    requires var s := Exec(s0, acts).value; w in s.workers && s.workers[w].phase.Returned?
    ensures var s := Exec(s0, acts).value; var p := s.workers[w].phase;
            && !KeyTaken(s.db, NextKey(p.run.Key()))
            && forall finishedAt, createdAt ::
                 FinalizeTx(s.db, s.workers[w].runId, p.run, p.job, p.outcome, finishedAt, createdAt).Some?
  {
    ChainedExec(s0, acts);
    var s := Exec(s0, acts).value;
    var me := s.workers[w];
    NeverStuck(s, w);
    assert WorkerOk(s.db, me);
    forall finishedAt, createdAt
      ensures FinalizeTx(s.db, me.runId, me.phase.run, me.phase.job, me.phase.outcome, finishedAt, createdAt).Some?
    {
      FinalizeCommits(s.db, me.runId, me.phase.run, me.phase.job, me.phase.outcome, finishedAt, createdAt);
    }
  }

  /**
   In every state reached without deletions, a finished row can get another
   status exactly when a writer that is left would change it.
   */
  lemma TerminalIsFinalWhereNothingIsDeleted(s0: System, acts: seq<Action>, r: int)
    requires Init(s0) && Exec(s0, acts).Some? && NothingDeleted(acts)
    requires var t := Exec(s0, acts).value.db; r in t.runs && t.runs[r].status.Terminal()
    ensures var s := Exec(s0, acts).value; CanChangeStatus(s, r) <==> StatusAtRisk(s, r, s.db.runs[r].status)
  {
    ChainedExec(s0, acts);
    var s := Exec(s0, acts).value;
    forall w | Owns(s, w, r) ensures !Stuck(s.db, s.workers[w].phase) {
      NeverStuck(s, w);
    }
    TerminalIsFinalIff(s, r);
  }

  // ---------- The retry limit ----------

  function Positive(n: int): nat {
    if n > 0 then n else 0
  }

  /** Attempts of job j are within its limit, and loaded workers know that limit; no run of an unborn job is loaded. */
  ghost predicate WithinLimits(s: System, j: int) {
    && (forall x <- s.db.runs | s.db.runs[x].jobId == j && j in s.db.jobs ::
        s.db.runs[x].attempt <= Positive(s.db.jobs[j].retryLimit))
    && (forall w <- s.workers | s.workers[w].phase.HasRun() && s.workers[w].phase.run.jobId == j :: j <= s.db.jobSeq)
    && (forall w <- s.workers | s.workers[w].phase.HasJob() && s.workers[w].phase.run.jobId == j && j in s.db.jobs ::
          s.workers[w].phase.job.retryLimit == s.db.jobs[j].retryLimit)
  }

  /** A job that is not replaced keeps its limit, and a new job has a new id. */
  lemma LimitsStay(s: System, a: Action, j: int)
    requires Inv(s) && Enabled(s, a) && !Replaces(a, j) && j in Apply(s, a).db.jobs
    ensures j in s.db.jobs ==> Apply(s, a).db.jobs[j].retryLimit == s.db.jobs[j].retryLimit
    ensures j !in s.db.jobs ==> j == s.db.jobSeq + 1
  {
    if Quiet(a) {
      QuietStep(s, a);
    } else if OneRow(a) {
      OneRowStep(s, a);
    } else if a.ScanJob? {
      var u := Apply(s, a).db;
      if u != s.db {
        var e := s.scan.due[0];
        var next := ComputeNextRunAt(e.job.schedule, s.scan.now, a.cronNext).value;
        DueTakesSlot(s.cfg, s.db, e.jobId, e.job, s.scan.now, next, a.listed, a.createdAt);
      }
    } else if a.Finalize? {
      var me := s.workers[a.w];
      FinalizeEffect(s.db, me.runId, me.phase.run, me.phase.job, me.phase.outcome, a.finishedAt, a.createdAt);
    } else {
      OtherLimits(s, a, j);
    }
  }

  lemma OtherLimits(s: System, a: Action, j: int)
    requires Schema(s.db) && Enabled(s, a) && !Replaces(a, j) && j in Apply(s, a).db.jobs
    requires !Quiet(a) && !OneRow(a) && !a.ScanJob? && !a.Finalize?
    ensures j in s.db.jobs ==> Apply(s, a).db.jobs[j].retryLimit == s.db.jobs[j].retryLimit
    ensures j !in s.db.jobs ==> j == s.db.jobSeq + 1
  {}

  /** What a loaded worker knows about its job: read by LoadJob, or known before. */
  lemma KnownLimit(s: System, a: Action, w: int)
    requires Enabled(s, a) && w in Apply(s, a).workers && Apply(s, a).workers[w].phase.HasJob()
    ensures var p := Apply(s, a).workers[w].phase;
            w in s.workers && s.workers[w].runId == Apply(s, a).workers[w].runId && s.workers[w].phase.HasRun()
            && p.run.Key() == s.workers[w].phase.run.Key()
            && if s.workers[w].phase.HasJob() then p.job.retryLimit == s.workers[w].phase.job.retryLimit
               else p.run.jobId in s.db.jobs && p.job == s.db.jobs[p.run.jobId] && Apply(s, a).db == s.db
  {
    if !StepOf(a, w) {
      OtherWorkersKeep(s, a, w);
    } else {
      OwnStepKnows(s, a, w);
    }
  }

  lemma OwnStepKnows(s: System, a: Action, w: int)
    requires Enabled(s, a) && StepOf(a, w) && w in Apply(s, a).workers && Apply(s, a).workers[w].phase.HasJob()
    ensures var p := Apply(s, a).workers[w].phase;
            w in s.workers && s.workers[w].runId == Apply(s, a).workers[w].runId && s.workers[w].phase.HasRun()
            && p.run.Key() == s.workers[w].phase.run.Key()
            && if s.workers[w].phase.HasJob() then p.job.retryLimit == s.workers[w].phase.job.retryLimit
               else p.run.jobId in s.db.jobs && p.job == s.db.jobs[p.run.jobId] && Apply(s, a).db == s.db
  {}

  lemma LoadedJobStep(s: System, a: Action, w: int, j: int)
    requires Inv(s) && WithinLimits(s, j) && Enabled(s, a)
    requires w in Apply(s, a).workers && Apply(s, a).workers[w].phase.HasRun()
             && Apply(s, a).workers[w].phase.run.jobId == j
    ensures j <= s.db.jobSeq
  {
    LoadedStep(s, a, w);
    assert Apply(s, a).workers[w].phase.run.Key().jobId == j;
  }

  lemma WorkerLimitStep(s: System, a: Action, w: int, j: int)
    requires Inv(s) && WithinLimits(s, j) && Enabled(s, a) && !Replaces(a, j)
    requires var s' := Apply(s, a);
             && w in s'.workers && s'.workers[w].phase.HasJob()
             && s'.workers[w].phase.run.jobId == j && j in s'.db.jobs
    ensures var s' := Apply(s, a); s'.workers[w].phase.job.retryLimit == s'.db.jobs[j].retryLimit
  {
    var p := Apply(s, a).workers[w].phase;
    KnownLimit(s, a, w);
    LoadedJobStep(s, a, w, j);
    LimitsStay(s, a, j);
    KnownBefore(s, w, j, p.run, p.job);
  }

  lemma KnownBefore(s: System, w: int, j: int, run: Run, job: Job)
    requires WithinLimits(s, j) && j in s.db.jobs && run.jobId == j && w in s.workers && s.workers[w].phase.HasRun()
    requires run.Key() == s.workers[w].phase.run.Key()
    requires if s.workers[w].phase.HasJob() then job.retryLimit == s.workers[w].phase.job.retryLimit
             else job == s.db.jobs[j]
    ensures job.retryLimit == s.db.jobs[j].retryLimit
  {}

  lemma RowLimitStep(s: System, a: Action, x: int, j: int)
    requires Inv(s) && WithinLimits(s, j) && Enabled(s, a) && !Replaces(a, j)
    requires x in Apply(s, a).db.runs && Apply(s, a).db.runs[x].jobId == j && j in Apply(s, a).db.jobs
    ensures var u := Apply(s, a).db; u.runs[x].attempt <= Positive(u.jobs[j].retryLimit)
  {
    InvStep(s, a);
    LimitsStay(s, a, j);
    if x in s.db.runs {
      SameKeyJob(s, a, x);
    } else {
      NewRowStep(s, a, x);
      NewRowKey(s, a, x);
    }
  }

  lemma SameKeyJob(s: System, a: Action, x: int)
    requires Inv(s) && Enabled(s, a) && x in s.db.runs && x in Apply(s, a).db.runs
    ensures Apply(s, a).db.runs[x].Key() == s.db.runs[x].Key() && s.db.runs[x].jobId in s.db.jobs
  {
    InvStep(s, a);
  }

  lemma WithinLimitsStep(s: System, a: Action, j: int)
    requires Inv(s) && WithinLimits(s, j) && Enabled(s, a) && !Replaces(a, j)
    ensures WithinLimits(Apply(s, a), j)
  {
    var s' := Apply(s, a);
    JobIdsStep(s, a);
    forall x <- s'.db.runs | s'.db.runs[x].jobId == j && j in s'.db.jobs
      ensures s'.db.runs[x].attempt <= Positive(s'.db.jobs[j].retryLimit)
    {
      RowLimitStep(s, a, x, j);
    }
    forall w <- s'.workers | s'.workers[w].phase.HasRun() && s'.workers[w].phase.run.jobId == j
      ensures j <= s'.db.jobSeq {
      LoadedJobStep(s, a, w, j);
    }
    forall w <- s'.workers | s'.workers[w].phase.HasJob() && s'.workers[w].phase.run.jobId == j && j in s'.db.jobs
      ensures s'.workers[w].phase.job.retryLimit == s'.db.jobs[j].retryLimit
    {
      WorkerLimitStep(s, a, w, j);
    }
  }

  lemma {:induction false} LimitsExec(s: System, acts: seq<Action>, j: int)
    requires Inv(s) && WithinLimits(s, j) && Exec(s, acts).Some?
    requires forall i | 0 <= i < |acts| :: !Replaces(acts[i], j)
    ensures Inv(Exec(s, acts).value) && WithinLimits(Exec(s, acts).value, j)
    decreases |acts|
  {
    if acts != [] {
      InvStep(s, acts[0]);
      WithinLimitsStep(s, acts[0], j);
      LimitsExec(Apply(s, acts[0]), acts[1..], j);
    }
  }

  /**
   No attempt of a job exceeds its retry limit while its definition is not replaced, whatever else is
   created, replaced or deleted.
   */
  lemma AttemptsWithinLimit(s0: System, acts: seq<Action>, x: int)
    requires Init(s0) && Exec(s0, acts).Some? && x in Exec(s0, acts).value.db.runs
    requires var j := Exec(s0, acts).value.db.runs[x].jobId; forall i | 0 <= i < |acts| :: !Replaces(acts[i], j)
    ensures var t := Exec(s0, acts).value.db;
            t.runs[x].jobId in t.jobs && t.runs[x].attempt <= Positive(t.jobs[t.runs[x].jobId].retryLimit)
  {
    var j := Exec(s0, acts).value.db.runs[x].jobId;
    LimitsExec(s0, acts, j);
  }
}
