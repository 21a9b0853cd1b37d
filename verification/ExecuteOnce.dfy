/** At most one execution per run row, in every interleaving of the actors. */
module ExecuteOnce {
  import opened Model
  import opened Tables
  import opened Transactions
  import opened Lifecycle
  import opened Invariant
  import opened RowSteps

  /** How often Execute is called for row r along a run of the system. */
  ghost function Executions(s: System, acts: seq<Action>, r: int): nat
    requires Exec(s, acts).Some?
    decreases |acts|
  {
    if acts == [] then 0
    else
      (if acts[0].Execute? && s.workers[acts[0].w].runId == r then 1 else 0) +
      Executions(Apply(s, acts[0]), acts[1..], r)
  }

  /** How often Execute is called with a run of this job, slot and attempt. */
  ghost function ExecutionsOfKey(s: System, acts: seq<Action>, key: RunKey): nat
    requires Exec(s, acts).Some?
    decreases |acts|
  {
    if acts == [] then 0
    else
      (if acts[0].Execute? && s.workers[acts[0].w].phase.run.Key() == key then 1 else 0) +
      ExecutionsOfKey(Apply(s, acts[0]), acts[1..], key)
  }

  /** Row r may still be executed: it does not exist yet, is pending, or its owner has not begun. */
  ghost predicate MayExecute(s: System, r: int) {
    || r > s.db.runSeq
    || (r in s.db.runs && s.db.runs[r].status.Pending?)
    || (exists w :: Owns(s, w, r) && s.workers[w].phase.Claimed?)
  }

  lemma ExecuteUsesUp(s: System, w: int)
    requires Inv(s) && Enabled(s, Execute(w))
    ensures MayExecute(s, s.workers[w].runId) && !MayExecute(Apply(s, Execute(w)), s.workers[w].runId)
  {
    var r := s.workers[w].runId;
    assert Owns(s, w, r) && WorkerOk(s.db, s.workers[w]);
    forall v | Owns(Apply(s, Execute(w)), v, r) ensures v == w {
      OwnerStep(s, Execute(w), v, r);
    }
  }

  /** No step makes a row executable again, and executing it uses it up. */
  lemma MayExecuteStep(s: System, a: Action, r: int)
    requires Inv(s) && Enabled(s, a)
    ensures MayExecute(Apply(s, a), r) ==> MayExecute(s, r)
    ensures a.Execute? && s.workers[a.w].runId == r ==> MayExecute(s, r) && !MayExecute(Apply(s, a), r)
  {
    var s' := Apply(s, a);
    InvStep(s, a);
    if a.Execute? && s.workers[a.w].runId == r {
      ExecuteUsesUp(s, a.w);
    }
    forall w | Owns(s', w, r) && s'.workers[w].phase.Claimed? ensures MayExecute(s, r) {
      OwnerStep(s, a, w, r);
      if a.Claim? && a.w != w {
        OtherWorkersKeep(s, a, w);
      }
    }
  }

  /**
   Whatever the interleaving, with double dispatch, crashes, cancellations and deletions, a row is
   executed at most once, and not at all once it may not be.
   */
  lemma {:induction false} AtMostOncePerRow(s: System, acts: seq<Action>, r: int)
    requires Inv(s) && Exec(s, acts).Some?
    ensures Executions(s, acts, r) <= if MayExecute(s, r) then 1 else 0
    decreases |acts|
  {
    if acts != [] {
      InvStep(s, acts[0]);
      MayExecuteStep(s, acts[0], r);
      AtMostOncePerRow(Apply(s, acts[0]), acts[1..], r);
    }
  }

  /** Every row a worker or the dispatch loop refers to is still there. */
  ghost predicate RowsPresent(s: System) {
    && (forall w <- s.workers :: s.workers[w].runId in s.db.runs)
    && (s.dispatcher.Round? ==> forall i | 0 <= i < |s.dispatcher.left| :: s.dispatcher.left[i] in s.db.runs)
  }

  lemma RowsPresentStep(s: System, a: Action)
    requires Inv(s) && RowsPresent(s) && Enabled(s, a) && !Deletes(a)
    ensures RowsPresent(Apply(s, a))
  {
    InvStep(s, a);
    var s' := Apply(s, a);
    forall w <- s'.workers ensures s'.workers[w].runId in s'.db.runs {
      WorkerRowsStep(s, a, w);
    }
    if s'.dispatcher != s.dispatcher {
      DispatcherStep(s, a);
    }
  }

  lemma WorkerRowsStep(s: System, a: Action, w: int)
    requires Enabled(s, a) && w in Apply(s, a).workers
    ensures (w in s.workers && s.workers[w].runId == Apply(s, a).workers[w].runId)
            || (a.Spawn? && s.dispatcher.left[0] == Apply(s, a).workers[w].runId)
  {
    if StepOf(a, w) {
      OwnStepKeepsRun(s, a, w);
    } else {
      OtherWorkersKeep(s, a, w);
    }
  }

  lemma OwnStepKeepsRun(s: System, a: Action, w: int)
    requires Enabled(s, a) && StepOf(a, w) && w in Apply(s, a).workers
    ensures if a.Spawn? then s.dispatcher.left[0] == Apply(s, a).workers[w].runId
            else w in s.workers && s.workers[w].runId == Apply(s, a).workers[w].runId
  {}

  lemma DispatcherReadsOnly(s: System, a: Action)
    requires Enabled(s, a) && Apply(s, a).dispatcher != s.dispatcher
    ensures a.ListPending? || a.Spawn? || !Apply(s, a).dispatcher.Round?
    ensures Apply(s, a).db == s.db
  {}

  lemma DispatcherStep(s: System, a: Action)
    requires Enabled(s, a) && Apply(s, a).dispatcher != s.dispatcher
    ensures Apply(s, a).db == s.db
    ensures Apply(s, a).dispatcher.Round? ==>
              forall i | 0 <= i < |Apply(s, a).dispatcher.left| ::
                var r := Apply(s, a).dispatcher.left[i];
                  r in s.db.runs || (s.dispatcher.Round? && r in s.dispatcher.left)
  {
    DispatcherReadsOnly(s, a);
    if a.ListPending? {
      assert forall i | 0 <= i < |a.listed| :: Claimable(s.db, a.listed[i]);
    }
  }

  // ---------- One execution for each key ----------

  /** The job has been deleted, and its id does not come back. */
  predicate JobGone(t: Tables, j: int) {
    j <= t.jobSeq && j !in t.jobs
  }

  /** A retention delete, if this is one, takes no row with this key. */
  predicate Spares(s: System, a: Action, key: RunKey) {
    a.Prune? ==> forall r <- PrunableRuns(s.db, a.before) :: s.db.runs[r].Key() != key
  }

  ghost predicate NeverPruned(s: System, acts: seq<Action>, key: RunKey)
    requires Exec(s, acts).Some?
    decreases |acts|
  {
    acts == [] || (Spares(s, acts[0], key) && NeverPruned(Apply(s, acts[0]), acts[1..], key))
  }

  /** Whoever has loaded a run with this key, its row is there or its job is not; and its owners have one row. */
  ghost predicate KeyHeld(s: System, key: RunKey) {
    && (forall w <- s.workers | s.workers[w].phase.HasRun() && s.workers[w].phase.run.Key() == key ::
          s.workers[w].runId in s.db.runs || JobGone(s.db, key.jobId))
    && (forall w, v | OwnsKey(s, w, key) && OwnsKey(s, v, key) :: s.workers[w].runId == s.workers[v].runId)
  }

  ghost predicate OwnsKey(s: System, w: int, key: RunKey) {
    w in s.workers && s.workers[w].phase.Owning() && s.workers[w].phase.run.Key() == key
  }

  /** A row with this key goes only with its job. */
  lemma RowGoesWithJob(s: System, a: Action, r: int, key: RunKey)
    requires Inv(s) && Enabled(s, a) && Spares(s, a, key) && r in s.db.runs && s.db.runs[r].Key() == key
    ensures r in Apply(s, a).db.runs || JobGone(Apply(s, a).db, key.jobId)
  {
    if a.Prune? {
      assert r !in PrunableRuns(s.db, a.before);
    } else if !a.RemoveJob? {
      InvStep(s, a);
    }
  }

  lemma JobStaysGone(s: System, a: Action, j: int)
    requires Inv(s) && Enabled(s, a) && JobGone(s.db, j)
    ensures JobGone(Apply(s, a).db, j)
  {
    JobIdsStep(s, a);
  }

  /** A loaded run was loaded before, or is the row just read. */
  lemma LoadedStep(s: System, a: Action, w: int)
    requires Inv(s) && Enabled(s, a) && w in Apply(s, a).workers && Apply(s, a).workers[w].phase.HasRun()
    ensures w in s.workers && s.workers[w].runId == Apply(s, a).workers[w].runId
    ensures if s.workers[w].phase.HasRun() then Apply(s, a).workers[w].phase.run.Key() == s.workers[w].phase.run.Key()
            else s.workers[w].runId in s.db.runs && Apply(s, a).db == s.db
                 && Apply(s, a).workers[w].phase.run == s.db.runs[s.workers[w].runId]
  {
    if StepOf(a, w) {
      OwnLoadedStep(s, a, w);
    } else {
      OtherWorkersKeep(s, a, w);
    }
  }

  lemma OwnLoadedStep(s: System, a: Action, w: int)
    requires Enabled(s, a) && StepOf(a, w) && w in Apply(s, a).workers && Apply(s, a).workers[w].phase.HasRun()
    ensures w in s.workers && s.workers[w].runId == Apply(s, a).workers[w].runId
    ensures if s.workers[w].phase.HasRun() then Apply(s, a).workers[w].phase.run.Key() == s.workers[w].phase.run.Key()
            else s.workers[w].runId in s.db.runs && Apply(s, a).db == s.db
                 && Apply(s, a).workers[w].phase.run == s.db.runs[s.workers[w].runId]
  {}

  lemma LoadedKeyStep(s: System, a: Action, w: int, key: RunKey)
    requires Inv(s) && KeyHeld(s, key) && Enabled(s, a) && Spares(s, a, key) && w in Apply(s, a).workers
    requires Apply(s, a).workers[w].phase.HasRun() && Apply(s, a).workers[w].phase.run.Key() == key
    ensures Apply(s, a).workers[w].runId in Apply(s, a).db.runs || JobGone(Apply(s, a).db, key.jobId)
  {
    LoadedStep(s, a, w);
    assert WorkerOk(s.db, s.workers[w]);
    if s.workers[w].runId in s.db.runs {
      RowGoesWithJob(s, a, s.workers[w].runId, key);
    } else {
      JobStaysGone(s, a, key.jobId);
    }
  }

  lemma OwnsKeyStep(s: System, a: Action, w: int, key: RunKey)
    requires Inv(s) && Enabled(s, a) && OwnsKey(Apply(s, a), w, key)
    ensures w in s.workers && s.workers[w].runId == Apply(s, a).workers[w].runId
    ensures OwnsKey(s, w, key) || (s.workers[w].runId in s.db.runs && s.db.runs[s.workers[w].runId].Key() == key)
  {
    OwnerStep(s, a, w, Apply(s, a).workers[w].runId);
    assert WorkerOk(s.db, s.workers[w]);
  }

  /** An owner with this key has the row that holds it, where one does. */
  lemma OwnerHasRow(s: System, w: int, r: int, key: RunKey)
    requires Inv(s) && KeyHeld(s, key) && OwnsKey(s, w, key) && r in s.db.runs && s.db.runs[r].Key() == key
    ensures s.workers[w].runId == r
  {
    assert WorkerOk(s.db, s.workers[w]);
    assert r in s.db.runs && s.db.runs[r].jobId in s.db.jobs;
  }

  lemma KeyHeldStep(s: System, a: Action, key: RunKey)
    requires Inv(s) && KeyHeld(s, key) && Enabled(s, a) && Spares(s, a, key)
    ensures KeyHeld(Apply(s, a), key)
  {
    var s' := Apply(s, a);
    forall w <- s'.workers | s'.workers[w].phase.HasRun() && s'.workers[w].phase.run.Key() == key
      ensures s'.workers[w].runId in s'.db.runs || JobGone(s'.db, key.jobId)
    {
      LoadedKeyStep(s, a, w, key);
    }
    forall w, v | OwnsKey(s', w, key) && OwnsKey(s', v, key) ensures s'.workers[w].runId == s'.workers[v].runId {
      OwnsKeyStep(s, a, w, key);
      OwnsKeyStep(s, a, v, key);
      SameRow(s, w, v, key);
    }
  }

  lemma SameRow(s: System, w: int, v: int, key: RunKey)
    requires Inv(s) && KeyHeld(s, key) && w in s.workers && v in s.workers
    requires OwnsKey(s, w, key) || (s.workers[w].runId in s.db.runs && s.db.runs[s.workers[w].runId].Key() == key)
    requires OwnsKey(s, v, key) || (s.workers[v].runId in s.db.runs && s.db.runs[s.workers[v].runId].Key() == key)
    ensures s.workers[w].runId == s.workers[v].runId
  {
    if !OwnsKey(s, w, key) && OwnsKey(s, v, key) {
      OwnerHasRow(s, v, s.workers[w].runId, key);
    } else if OwnsKey(s, w, key) && !OwnsKey(s, v, key) {
      OwnerHasRow(s, w, s.workers[v].runId, key);
    }
  }

  /**
   A run with this key may still be executed: a row may still take the
   key, is pending with it, or its owner has not begun.
   */
  ghost predicate MayExecuteKey(s: System, key: RunKey) {
    || (!KeyTaken(s.db, key) && !JobGone(s.db, key.jobId))
    || (exists r <- s.db.runs :: s.db.runs[r].Key() == key && s.db.runs[r].status.Pending?)
    || (exists w :: OwnsKey(s, w, key) && s.workers[w].phase.Claimed?)
  }

  /** A free key of a job that is there was free before, or its job is new. */
  lemma FreeKeyStep(s: System, a: Action, key: RunKey)
    requires Inv(s) && Enabled(s, a) && Spares(s, a, key)
    requires !KeyTaken(Apply(s, a).db, key) && !JobGone(Apply(s, a).db, key.jobId)
    ensures !KeyTaken(s.db, key) && !JobGone(s.db, key.jobId)
  {
    if JobGone(s.db, key.jobId) {
      JobStaysGone(s, a, key.jobId);
    }
    forall r <- s.db.runs ensures s.db.runs[r].Key() != key {
      if s.db.runs[r].Key() == key {
        RowGoesWithJob(s, a, r, key);
        InvStep(s, a);
      }
    }
  }

  /** A pending row with this key was pending before, or has just taken it. */
  lemma PendingKeyStep(s: System, a: Action, r: int, key: RunKey)
    requires Inv(s) && Enabled(s, a)
    requires r in Apply(s, a).db.runs && Apply(s, a).db.runs[r].Key() == key && Apply(s, a).db.runs[r].status.Pending?
    ensures MayExecuteKey(s, key)
  {
    InvStep(s, a);
    if r !in s.db.runs {
      NewRowKey(s, a, r);
    }
  }

  /** The key of a new row was free, and its job there. */
  lemma NewRowKey(s: System, a: Action, r: int)
    requires Inv(s) && Enabled(s, a) && r !in s.db.runs && r in Apply(s, a).db.runs
    ensures !KeyTaken(s.db, Apply(s, a).db.runs[r].Key()) && Apply(s, a).db.runs[r].jobId in s.db.jobs
  {
    var u, key := Apply(s, a).db, Apply(s, a).db.runs[r].Key();
    InvStep(s, a);
    NewRowKeepsOthers(s, a, r);
    forall q <- s.db.runs ensures s.db.runs[q].Key() != key {
      assert u.runs[q].Key() == s.db.runs[q].Key();
    }
    JobIdsStep(s, a);
    NewRowJobs(s, a, r);
  }

  lemma NewRowKeepsOthers(s: System, a: Action, r: int)
    requires Inv(s) && Enabled(s, a) && r !in s.db.runs && r in Apply(s, a).db.runs
    ensures !Deletes(a) && Grows(s.db, Apply(s, a).db)
  {
    InvStep(s, a);
  }

  lemma NewRowJobs(s: System, a: Action, r: int)
    requires Inv(s) && Enabled(s, a) && r !in s.db.runs && r in Apply(s, a).db.runs
    ensures Apply(s, a).db.jobSeq == s.db.jobSeq
  {
    if a.ScanJob? {
      ScanJobIds(s, a);
    } else if !a.CreateJob? {
      JobSeqStays(s, a);
    }
  }

  lemma ClaimedKeyStep(s: System, a: Action, w: int, key: RunKey)
    requires Inv(s) && Enabled(s, a) && OwnsKey(Apply(s, a), w, key) && Apply(s, a).workers[w].phase.Claimed?
    ensures MayExecuteKey(s, key)
  {
    OwnerStep(s, a, w, Apply(s, a).workers[w].runId);
    assert WorkerOk(s.db, s.workers[w]);
  }

  lemma MayExecuteKeyStep(s: System, a: Action, key: RunKey)
    requires Inv(s) && Enabled(s, a) && Spares(s, a, key)
    ensures MayExecuteKey(Apply(s, a), key) ==> MayExecuteKey(s, key)
  {
    var s' := Apply(s, a);
    if !KeyTaken(s'.db, key) && !JobGone(s'.db, key.jobId) {
      FreeKeyStep(s, a, key);
    } else if r :| r in s'.db.runs && s'.db.runs[r].Key() == key && s'.db.runs[r].status.Pending? {
      PendingKeyStep(s, a, r, key);
    } else if w :| OwnsKey(s', w, key) && s'.workers[w].phase.Claimed? {
      ClaimedKeyStep(s, a, w, key);
    }
  }

  lemma ExecuteUsesKey(s: System, w: int, key: RunKey)
    requires Inv(s) && KeyHeld(s, key) && Enabled(s, Execute(w)) && s.workers[w].phase.run.Key() == key
    ensures MayExecuteKey(s, key) && !MayExecuteKey(Apply(s, Execute(w)), key)
  {
    var s' := Apply(s, Execute(w));
    assert OwnsKey(s, w, key) && WorkerOk(s.db, s.workers[w]);
    if r :| r in s'.db.runs && s'.db.runs[r].Key() == key && s'.db.runs[r].status.Pending? {
      OwnerHasRow(s, w, r, key);
      assert false;
    }
    forall v | OwnsKey(s', v, key) ensures v == w {
      OwnsKeyStep(s, Execute(w), v, key);
      assert OwnsKey(s, v, key) && Owns(s, v, s.workers[v].runId) && Owns(s, w, s.workers[w].runId);
    }
  }

  lemma {:induction false} AtMostOnce(s: System, acts: seq<Action>, key: RunKey)
    requires Inv(s) && KeyHeld(s, key) && Exec(s, acts).Some? && NeverPruned(s, acts, key)
    ensures ExecutionsOfKey(s, acts, key) <= if MayExecuteKey(s, key) then 1 else 0
    decreases |acts|
  {
    if acts != [] {
      InvStep(s, acts[0]);
      KeyHeldStep(s, acts[0], key);
      MayExecuteKeyStep(s, acts[0], key);
      if acts[0].Execute? && s.workers[acts[0].w].phase.run.Key() == key {
        ExecuteUsesKey(s, acts[0].w, key);
      }
      AtMostOnce(Apply(s, acts[0]), acts[1..], key);
    }
  }

  /**
   From the empty database on, a job's slot is executed at most once per attempt, with jobs removed
   and retention running as they may, as long as no retention delete takes a row of that very
   (job, slot, attempt).
   */
  lemma AtMostOncePerKey(s: System, acts: seq<Action>, key: RunKey)
    requires Init(s) && Exec(s, acts).Some? && NeverPruned(s, acts, key)
    ensures ExecutionsOfKey(s, acts, key) <= 1
  {
    AtMostOnce(s, acts, key);
  }

  /** Tokens held are the live workers; no round blocks on a token; a release always finds one. */
  lemma TokenConservation(s0: System, acts: seq<Action>)
    requires Init(s0) && Exec(s0, acts).Some?
    ensures var s := Exec(s0, acts).value;
            && s.tokens == |s.workers| <= s.capacity
            && (forall w | s.dispatcher.Round? && w !in s.workers :: Enabled(s, Spawn(w)))
            && (forall w | Enabled(s, Release(w)) :: s.tokens > 0)
            && (forall w, v | w in s.workers && v in s.workers && w != v
                  && s.workers[w].phase.Executing? && s.workers[v].phase.Executing? ::
                  s.workers[w].runId != s.workers[v].runId)
  {
    InvExec(s0, acts);
    var s := Exec(s0, acts).value;
    forall w | Enabled(s, Release(w)) ensures s.tokens > 0 {
      assert w in s.workers.Keys;
      CardinalityOfKeys(s.workers);
    }
    forall w, v | w in s.workers && v in s.workers && s.workers[w].phase.Executing? && s.workers[v].phase.Executing?
                  && s.workers[w].runId == s.workers[v].runId
      ensures w == v
    {
      assert Owns(s, w, s.workers[w].runId) && Owns(s, v, s.workers[w].runId);
    }
  }
}
