/** How many claims and executions a backlog can still cause, and what a slot adds to it. */
module WorkBound {
  import opened Tables
  import opened Transactions
  import opened Lifecycle
  import opened Invariant
  import opened RowSteps
  import opened RetryChain

  /** What is counted: successful claims, or calls of Execute. */
  datatype Counted = Claims | Executions

  /** The most retries that any definition of a job allows. */
  type Limits = int -> int

  function Left(limit: int, attempt: int): nat {
    Positive(limit - attempt)
  }

  /** A claimed worker has been counted as a claim, but not as an execution. */
  function ToCome(p: Phase, k: Counted): nat {
    if k.Executions? && p.Claimed? then 1 else 0
  }

  /** What row r and its retries can still cause. */
  ghost function Work(s: System, r: int, k: Counted, limits: Limits): nat {
    if r in s.db.runs && s.db.runs[r].status.Pending? then
      1 + Left(limits(s.db.runs[r].jobId), s.db.runs[r].attempt)
    else if HasOwner(s, r) then
      var w :| Owns(s, w, r);
      var p := s.workers[w].phase;
      ToCome(p, k) + Left(limits(p.run.jobId), p.run.attempt)
    else 0
  }

  ghost function Total(s: System, n: nat, k: Counted, limits: Limits): nat {
    if n == 0 then 0 else Total(s, n - 1, k, limits) + Work(s, n, k, limits)
  }

  /** The work of all rows. */
  ghost function Backlog(s: System, k: Counted, limits: Limits): nat {
    Total(s, s.db.runSeq, k, limits)
  }

  /** What a step adds to the count. */
  ghost function Adds(s: System, a: Action, k: Counted): nat
    requires Enabled(s, a)
  {
    match k
    case Claims => if a.Claim? && Apply(s, a).workers[a.w].phase.Claimed? then 1 else 0
    case Executions => if a.Execute? then 1 else 0
  }

  /**
   A step that takes a new slot brings its first attempt and the
   retries this may have, unless the slot is skipped.
   */
  ghost function Brings(s: System, a: Action, limits: Limits): nat
    requires Enabled(s, a)
  {
    var u, x := Apply(s, a).db, s.db.runSeq + 1;
    if (a.ScanJob? || a.Trigger?) && x in u.runs && u.runs[x].status.Pending?
      then 1 + Left(limits(u.runs[x].jobId), 0) else 0
  }

  ghost predicate JobsUnder(s: System, limits: Limits) {
    forall j <- s.db.jobs :: s.db.jobs[j].retryLimit <= limits(j)
  }

  ghost predicate WorkersUnder(s: System, limits: Limits) {
    forall w <- s.workers | s.workers[w].phase.HasJob() ::
      s.workers[w].phase.job.retryLimit <= limits(s.workers[w].phase.run.jobId)
  }

  /** A worker has read its limit from the jobs table. */
  lemma WorkersUnderStep(s: System, a: Action, limits: Limits)
    requires JobsUnder(s, limits) && WorkersUnder(s, limits) && Enabled(s, a)
    ensures WorkersUnder(Apply(s, a), limits)
  {
    var s' := Apply(s, a);
    forall w <- s'.workers | s'.workers[w].phase.HasJob()
      ensures s'.workers[w].phase.job.retryLimit <= limits(s'.workers[w].phase.run.jobId)
    {
      KnownLimit(s, a, w);
    }
  }

  lemma OwnedWork(s: System, w: int, r: int, k: Counted, limits: Limits)
    requires Inv(s) && Owns(s, w, r)
    ensures var p := s.workers[w].phase;
            Work(s, r, k, limits) == ToCome(p, k) + Left(limits(p.run.jobId), p.run.attempt)
  {
    assert WorkerOk(s.db, s.workers[w]);
    assert forall v | Owns(s, v, r) :: v == w;
  }

  /** The step that was counted, if any, was one of row r. */
  ghost function AddsTo(s: System, a: Action, k: Counted, r: int): nat
    requires Enabled(s, a)
  {
    if (a.Claim? || a.Execute?) && s.workers[a.w].runId == r then Adds(s, a, k) else 0
  }

  lemma PendingWorkStep(s: System, a: Action, r: int, k: Counted, limits: Limits)
    requires Inv(s) && Enabled(s, a) && r <= s.db.runSeq
    requires r in Apply(s, a).db.runs && Apply(s, a).db.runs[r].status.Pending?
    ensures Work(Apply(s, a), r, k, limits) == Work(s, r, k, limits)
  {
    InvStep(s, a);
  }

  lemma ClaimedWorkStep(s: System, a: Action, r: int, k: Counted, limits: Limits)
    requires Inv(s) && Enabled(s, a) && a.Claim? && s.workers[a.w].runId == r && Claimable(s.db, r)
    requires Owns(Apply(s, a), a.w, r) && Apply(s, a).workers[a.w].phase.Claimed?
    requires Apply(s, a).workers[a.w].phase.run.Key() == s.workers[a.w].phase.run.Key()
    ensures Work(Apply(s, a), r, k, limits) + AddsTo(s, a, k, r) == Work(s, r, k, limits)
  {
    InvStep(s, a);
    OwnedWork(Apply(s, a), a.w, r, k, limits);
    assert WorkerOk(s.db, s.workers[a.w]);
  }

  lemma OwnedWorkStep(s: System, a: Action, w: int, r: int, k: Counted, limits: Limits)
    requires Inv(s) && Enabled(s, a) && Owns(Apply(s, a), w, r)
    ensures Work(Apply(s, a), r, k, limits) + AddsTo(s, a, k, r) <= Work(s, r, k, limits)
  {
    OwnerStep(s, a, w, r);
    if Owns(s, w, r) {
      InvStep(s, a);
      OwnedWork(Apply(s, a), w, r, k, limits);
      OwnedWork(s, w, r, k, limits);
      OwnedAdds(s, a, w, r, k);
    } else {
      ClaimedWorkStep(s, a, r, k, limits);
    }
  }

  lemma OwnedAdds(s: System, a: Action, w: int, r: int, k: Counted)
    requires Inv(s) && Enabled(s, a) && Inv(Apply(s, a)) && Owns(s, w, r) && Owns(Apply(s, a), w, r)
    ensures ToCome(Apply(s, a).workers[w].phase, k) + AddsTo(s, a, k, r) <= ToCome(s.workers[w].phase, k)
  {
    if AddsTo(s, a, k, r) > 0 {
      CountedOwner(s, a, k, r);
      ExecutesOwned(s, a, w, r);
    } else {
      NotClaimedAgain(s, a, w, r);
    }
  }

  lemma NotClaimedAgain(s: System, a: Action, w: int, r: int)
    requires Enabled(s, a) && Owns(s, w, r) && Owns(Apply(s, a), w, r)
    ensures Apply(s, a).workers[w].phase.Claimed? ==> s.workers[w].phase.Claimed?
  {
    if StepOf(a, w) {
      OwnStepMoves(s, a, w);
    } else {
      OtherWorkersKeep(s, a, w);
    }
  }

  lemma OwnStepMoves(s: System, a: Action, w: int)
    requires Enabled(s, a) && StepOf(a, w) && w in s.workers && s.workers[w].phase.Owning() && w in Apply(s, a).workers
    ensures !Apply(s, a).workers[w].phase.Claimed?
  {}

  /** A row that is owned is counted only when its owner executes it. */
  lemma ExecutesOwned(s: System, a: Action, w: int, r: int)
    requires Inv(s) && Enabled(s, a) && Inv(Apply(s, a)) && Owns(s, w, r) && Owns(Apply(s, a), w, r)
    requires (a.Claim? || a.Execute?) && Owns(Apply(s, a), a.w, r)
    ensures a.w == w && a.Execute? && s.workers[w].phase.Claimed? && !Apply(s, a).workers[w].phase.Claimed?
  {}

  /** Whoever is counted owns the row afterwards. */
  lemma CountedOwner(s: System, a: Action, k: Counted, r: int)
    requires Enabled(s, a)
    ensures AddsTo(s, a, k, r) > 0 ==>
              (a.Claim? || a.Execute?) && Owns(Apply(s, a), a.w, r)
              && (a.Execute? ==> k.Executions?)
  {}

  /** The work of an existing row never rises, and drops by one when the row is counted. */
  lemma WorkStep(s: System, a: Action, r: int, k: Counted, limits: Limits)
    requires Inv(s) && Enabled(s, a) && r <= s.db.runSeq
    ensures Work(Apply(s, a), r, k, limits) + AddsTo(s, a, k, r) <= Work(s, r, k, limits)
  {
    var s' := Apply(s, a);
    CountedOwner(s, a, k, r);
    if w :| Owns(s', w, r) {
      OwnedWorkStep(s, a, w, r, k, limits);
    } else if r in s'.db.runs && s'.db.runs[r].status.Pending? {
      PendingWorkStep(s, a, r, k, limits);
    }
  }

  lemma {:induction false} TotalDrops(s: System, s': System, n: nat, at: int, drop: nat, k: Counted, limits: Limits)
    requires forall r | 1 <= r <= n :: Work(s', r, k, limits) + (if r == at then drop else 0) <= Work(s, r, k, limits)
    ensures Total(s', n, k, limits) + (if 1 <= at <= n then drop else 0) <= Total(s, n, k, limits)
  {
    if n > 0 {
      TotalDrops(s, s', n - 1, at, drop, k, limits);
    }
  }

  /** The work of the rows there were before the step. */
  lemma OldRowsStep(s: System, a: Action, k: Counted, limits: Limits)
    requires Inv(s) && Enabled(s, a)
    ensures Total(Apply(s, a), s.db.runSeq, k, limits) + Adds(s, a, k) <= Backlog(s, k, limits)
  {
    var at := if a.Claim? || a.Execute? then s.workers[a.w].runId else 0;
    if a.Claim? || a.Execute? {
      assert WorkerOk(s.db, s.workers[a.w]);
    }
    forall r | 1 <= r <= s.db.runSeq
      ensures Work(Apply(s, a), r, k, limits) + (if r == at then Adds(s, a, k) else 0) <= Work(s, r, k, limits)
    {
      WorkStep(s, a, r, k, limits);
    }
    TotalDrops(s, Apply(s, a), s.db.runSeq, at, Adds(s, a, k), k, limits);
  }

  /** A step inserts one row at most, and only the due-job loop, a trigger or a retry does. */
  lemma RunSeqStep(s: System, a: Action)
    requires Inv(s) && Enabled(s, a)
    ensures Apply(s, a).db.runSeq == s.db.runSeq
            || (Apply(s, a).db.runSeq == s.db.runSeq + 1 && (a.ScanJob? || a.Trigger? || a.Finalize?))
  {
    if Quiet(a) {
      QuietStep(s, a);
    } else if OneRow(a) {
      OneRowStep(s, a);
    } else if a.Finalize? {
      var me := s.workers[a.w];
      FinalizeEffect(s.db, me.runId, me.phase.run, me.phase.job, me.phase.outcome, a.finishedAt, a.createdAt);
    } else if a.ScanJob? {
      ScanSeqStep(s, a);
    }
  }

  lemma ScanSeqStep(s: System, a: Action)
    requires Inv(s) && Enabled(s, a) && a.ScanJob?
    ensures Apply(s, a).db.runSeq == s.db.runSeq || Apply(s, a).db.runSeq == s.db.runSeq + 1
  {
    if Apply(s, a).db != s.db {
      var e := s.scan.due[0];
      var next := ComputeNextRunAt(e.job.schedule, s.scan.now, a.cronNext).value;
      DueTakesSlot(s.cfg, s.db, e.jobId, e.job, s.scan.now, next, a.listed, a.createdAt);
    }
  }

  lemma NotOwned(s: System, w: int, r: int)
    requires Inv(s) && r > s.db.runSeq
    ensures !Owns(s, w, r)
  {
    assert w in s.workers ==> WorkerOk(s.db, s.workers[w]);
  }

  /** The row of a new slot is worth what its step brings. */
  lemma NewSlotWork(s: System, a: Action, k: Counted, limits: Limits)
    requires Inv(s) && Enabled(s, a) && (a.ScanJob? || a.Trigger?)
    ensures Work(Apply(s, a), s.db.runSeq + 1, k, limits) == Brings(s, a, limits)
  {
    var s', x := Apply(s, a), s.db.runSeq + 1;
    forall w ensures !Owns(s', w, x) {
      if Owns(s', w, x) {
        OwnerStep(s, a, w, x);
        NotOwned(s, w, x);
      }
    }
    if x in s'.db.runs && s'.db.runs[x].status.Pending? {
      NewRowStep(s, a, x);
    }
  }

  lemma RetryParts(s: System, a: Action)
    requires Inv(s) && Enabled(s, a) && a.Finalize? && Apply(s, a).db.runSeq > s.db.runSeq
    ensures var x := s.db.runSeq + 1;
            && Apply(s, a).db.runSeq == x && x in Apply(s, a).db.runs && x !in s.db.runs
            && Retries(s, a, x, Apply(s, a).db.runs[x])
  {
    var me := s.workers[a.w];
    FinalizeEffect(s.db, me.runId, me.phase.run, me.phase.job, me.phase.outcome, a.finishedAt, a.createdAt);
    FinalizeNewRow(s, a, s.db.runSeq + 1);
  }

  lemma FinalizedWork(s: System, a: Action, k: Counted, limits: Limits)
    requires Inv(s) && Enabled(s, a) && a.Finalize? && s.workers[a.w].runId in s.db.runs
    ensures Work(Apply(s, a), s.workers[a.w].runId, k, limits) == 0
  {
    var r, s' := s.workers[a.w].runId, Apply(s, a);
    InvStep(s, a);
    assert Owns(s, a.w, r) && WorkerOk(s.db, s.workers[a.w]);
    forall v ensures !Owns(s', v, r) {
      if Owns(s', v, r) {
        OwnerStep(s, a, v, r);
      }
    }
    assert r in s'.db.runs ==> !s'.db.runs[r].status.Pending?;
  }

  /** The retry row takes over exactly what its parent's owner gives up. */
  lemma RetryTakesOver(s: System, a: Action, k: Counted, limits: Limits)
    requires Inv(s) && WorkersUnder(s, limits) && Enabled(s, a) && a.Finalize? && Apply(s, a).db.runSeq > s.db.runSeq
    ensures var q := s.workers[a.w].runId;
            && 1 <= q <= s.db.runSeq && Apply(s, a).db.runSeq == s.db.runSeq + 1
            && Work(Apply(s, a), q, k, limits) == 0
            && Work(Apply(s, a), s.db.runSeq + 1, k, limits) == Work(s, q, k, limits)
  {
    RetryParts(s, a);
    var q := s.workers[a.w].runId;
    assert Owns(s, a.w, q) && WorkerOk(s.db, s.workers[a.w]);
    OwnedWork(s, a.w, q, k, limits);
    FinalizedWork(s, a, k, limits);
  }

  lemma TakenOver(s: System, s': System, q: int, k: Counted, limits: Limits)
    requires 1 <= q <= s.db.runSeq && s'.db.runSeq == s.db.runSeq + 1
    requires forall r | 1 <= r <= s.db.runSeq :: Work(s', r, k, limits) <= Work(s, r, k, limits)
    requires Work(s', q, k, limits) == 0 && Work(s', s.db.runSeq + 1, k, limits) == Work(s, q, k, limits)
    ensures Backlog(s', k, limits) <= Backlog(s, k, limits)
  {
    TotalDrops(s, s', s.db.runSeq, q, Work(s, q, k, limits), k, limits);
  }

  lemma OldWorkStep(s: System, a: Action, k: Counted, limits: Limits)
    requires Inv(s) && Enabled(s, a)
    ensures forall r | 1 <= r <= s.db.runSeq :: Work(Apply(s, a), r, k, limits) <= Work(s, r, k, limits)
  {
    forall r | 1 <= r <= s.db.runSeq ensures Work(Apply(s, a), r, k, limits) <= Work(s, r, k, limits) {
      WorkStep(s, a, r, k, limits);
    }
  }

  lemma RetryBacklog(s: System, a: Action, k: Counted, limits: Limits)
    requires Inv(s) && WorkersUnder(s, limits) && Enabled(s, a) && a.Finalize? && Apply(s, a).db.runSeq > s.db.runSeq
    ensures Backlog(Apply(s, a), k, limits) <= Backlog(s, k, limits)
  {
    RetryTakesOver(s, a, k, limits);
    OldWorkStep(s, a, k, limits);
    TakenOver(s, Apply(s, a), s.workers[a.w].runId, k, limits);
  }

  lemma OneRowMore(s: System, s': System, k: Counted, limits: Limits)
    requires s'.db.runSeq == s.db.runSeq + 1
    ensures Backlog(s', k, limits) == Total(s', s.db.runSeq, k, limits) + Work(s', s.db.runSeq + 1, k, limits)
  {}

  lemma SlotBacklog(s: System, a: Action, k: Counted, limits: Limits)
    requires Inv(s) && Enabled(s, a) && (a.ScanJob? || a.Trigger?) && Apply(s, a).db.runSeq == s.db.runSeq + 1
    ensures Backlog(Apply(s, a), k, limits) + Adds(s, a, k) <= Backlog(s, k, limits) + Brings(s, a, limits)
  {
    OldRowsStep(s, a, k, limits);
    NewSlotWork(s, a, k, limits);
    OneRowMore(s, Apply(s, a), k, limits);
  }

  /** The backlog falls with everything counted and rises only with what a new slot brings. */
  lemma BacklogStep(s: System, a: Action, k: Counted, limits: Limits)
    requires Inv(s) && WorkersUnder(s, limits) && Enabled(s, a)
    ensures Backlog(Apply(s, a), k, limits) + Adds(s, a, k) <= Backlog(s, k, limits) + Brings(s, a, limits)
  {
    RunSeqStep(s, a);
    if Apply(s, a).db.runSeq == s.db.runSeq {
      OldRowsStep(s, a, k, limits);
    } else if a.Finalize? {
      RetryBacklog(s, a, k, limits);
    } else {
      SlotBacklog(s, a, k, limits);
    }
  }

  ghost function All(s: System, acts: seq<Action>, k: Counted): nat
    requires Exec(s, acts).Some?
    decreases |acts|
  {
    if acts == [] then 0 else Adds(s, acts[0], k) + All(Apply(s, acts[0]), acts[1..], k)
  }

  ghost function AllBrought(s: System, acts: seq<Action>, limits: Limits): nat
    requires Exec(s, acts).Some?
    decreases |acts|
  {
    if acts == [] then 0 else Brings(s, acts[0], limits) + AllBrought(Apply(s, acts[0]), acts[1..], limits)
  }

  /** No definition in the jobs table ever allows a job more than its limit. */
  ghost predicate LimitsHold(s: System, acts: seq<Action>, limits: Limits)
    requires Exec(s, acts).Some?
    decreases |acts|
  {
    JobsUnder(s, limits) && (acts == [] || LimitsHold(Apply(s, acts[0]), acts[1..], limits))
  }

  /**
   However long the system runs, with jobs created, replaced and deleted, crashes and retries: the
   claims, and the containers it starts, are at most its backlog now and what the slots and
   triggers taken since have brought.
   */
  lemma {:induction false} BacklogBoundsWork(s: System, acts: seq<Action>, k: Counted, limits: Limits)
    requires Inv(s) && WorkersUnder(s, limits) && Exec(s, acts).Some? && LimitsHold(s, acts, limits)
    ensures All(s, acts, k) + Backlog(Exec(s, acts).value, k, limits)
            <= Backlog(s, k, limits) + AllBrought(s, acts, limits)
    decreases |acts|
  {
    if acts != [] {
      InvStep(s, acts[0]);
      WorkersUnderStep(s, acts[0], limits);
      BacklogStep(s, acts[0], k, limits);
      BacklogBoundsWork(Apply(s, acts[0]), acts[1..], k, limits);
    }
  }

  /**
   From the empty database on, every claim and every execution is paid for
   by a slot or a trigger: one each, and its retries.
   */
  lemma EveryExecutionIsPaidFor(s: System, acts: seq<Action>, k: Counted, limits: Limits)
    requires Init(s) && Exec(s, acts).Some? && LimitsHold(s, acts, limits)
    ensures All(s, acts, k) <= AllBrought(s, acts, limits)
  {
    BacklogBoundsWork(s, acts, k, limits);
  }
}
