/** When a finished run row is really final. */
module TerminalStability {
  import opened Model
  import opened Tables
  import opened Transactions
  import opened Lifecycle
  import opened Invariant
  import opened RowSteps

  /** Nobody is left who could still write row r. */
  ghost predicate Settled(s: System, r: int) {
    !HasOwner(s, r) && !HasCancel(s, r)
  }

  lemma NoNewOwner(s: System, a: Action, r: int)
    requires Inv(s) && Enabled(s, a) && r <= s.db.runSeq && !HasOwner(s, r)
    requires r in s.db.runs ==> !s.db.runs[r].status.Pending?
    ensures !HasOwner(Apply(s, a), r)
  {
    forall w | Owns(Apply(s, a), w, r) ensures false {
      OwnerStep(s, a, w, r);
    }
  }

  lemma NoNewCancel(s: System, a: Action, r: int)
    requires Enabled(s, a) && (r in s.db.runs ==> s.db.runs[r].status.Terminal())
    ensures forall c <- Apply(s, a).cancels | Apply(s, a).cancels[c].runId == r ::
            c in s.cancels && s.cancels[c] == Apply(s, a).cancels[c]
  {
    forall c <- Apply(s, a).cancels | Apply(s, a).cancels[c].runId == r
      ensures c in s.cancels && s.cancels[c] == Apply(s, a).cancels[c]
    {
      CancelStepOf(s, a, c);
    }
  }

  lemma SettledStep(s: System, a: Action, r: int)
    requires Inv(s) && Enabled(s, a) && r in s.db.runs && s.db.runs[r].status.Terminal() && Settled(s, r)
    ensures Settled(Apply(s, a), r)
  {
    NoNewOwner(s, a, r);
    NoNewCancel(s, a, r);
  }

  lemma FrozenChange(s: System, a: Action, r: int, before: View, after: View)
    requires before.row.status.Terminal() && Settled(s, r) && RowChange(s, a, r, before, after)
    ensures after == before
  {}

  lemma FrozenStep(s: System, a: Action, r: int)
    requires Inv(s) && Enabled(s, a) && r in s.db.runs && s.db.runs[r].status.Terminal() && Settled(s, r)
    requires r in Apply(s, a).db.runs
    ensures Apply(s, a).db.runs[r] == s.db.runs[r]
  {
    RowStep(s, a, r);
    FrozenChange(s, a, r, ViewOf(s.db, r), ViewOf(Apply(s, a).db, r));
  }

  lemma {:induction false} GoneForever(s: System, acts: seq<Action>, r: int)
    requires Inv(s) && Exec(s, acts).Some? && r <= s.db.runSeq && r !in s.db.runs
    ensures r !in Exec(s, acts).value.db.runs
    decreases |acts|
  {
    if acts != [] {
      InvStep(s, acts[0]);
      GoneForever(Apply(s, acts[0]), acts[1..], r);
    }
  }

  /**
   Once its claiming worker has finalized and no CancelRun still holds an old read of it, a
   finished row keeps every column until it is deleted, whatever the system does.
   */
  lemma {:induction false} SettledIsFrozen(s: System, acts: seq<Action>, r: int)
    requires Inv(s) && Exec(s, acts).Some? && r in s.db.runs && s.db.runs[r].status.Terminal() && Settled(s, r)
    ensures var t := Exec(s, acts).value.db; r in t.runs ==> t.runs[r] == s.db.runs[r]
    decreases |acts|
  {
    if acts != [] {
      var s' := Apply(s, acts[0]);
      InvStep(s, acts[0]);
      SettledStep(s, acts[0], r);
      if r in s'.db.runs {
        FrozenStep(s, acts[0], r);
        SettledIsFrozen(s', acts[1..], r);
      } else {
        GoneForever(s', acts[1..], r);
      }
    }
  }

  /** A skipped row is settled from the start. */
  lemma SkippedIsFrozen(s: System, acts: seq<Action>, r: int)
    requires Inv(s) && Exec(s, acts).Some? && r in s.db.runs && s.db.runs[r].status.Skipped?
    ensures var t := Exec(s, acts).value.db; r in t.runs ==> t.runs[r] == s.db.runs[r]
  {
    assert forall w | w in s.workers :: WorkerOk(s.db, s.workers[w]);
    assert forall c | c in s.cancels :: CancelOk(s.db, s.cancels[c]);
    SettledIsFrozen(s, acts, r);
  }

  // ---------- Exactly when the status of a finished row can still change ----------

  /** A writer that is left would give row r a status other than was. */
  ghost predicate StatusAtRisk(s: System, r: int, was: RunStatus) {
    || (exists w ::
        Owns(s, w, r) && (s.workers[w].phase.Returned? ==> Classify(s.workers[w].phase.outcome).Status() != was))
    || (exists c :: c in s.cancels && s.cancels[c].runId == r && s.cancels[c].target != was)
  }

  /** Some continuation leaves row r with another status. */
  ghost predicate CanChangeStatus(s: System, r: int)
    requires r in s.db.runs
  {
    exists acts :: Reaches(s, acts, r, s.db.runs[r].status)
  }

  ghost predicate Reaches(s: System, acts: seq<Action>, r: int, was: RunStatus) {
    Exec(s, acts).Some? && r in Exec(s, acts).value.db.runs && Exec(s, acts).value.db.runs[r].status != was
  }

  lemma SafeChange(s: System, a: Action, r: int, before: View, after: View)
    requires before.row.status.Terminal() && !StatusAtRisk(s, r, before.row.status) && RowChange(s, a, r, before, after)
    ensures after.row.status == before.row.status
  {}

  lemma SafeRowStep(s: System, a: Action, r: int, was: RunStatus)
    requires Inv(s) && Enabled(s, a) && r in s.db.runs && s.db.runs[r].status == was && was.Terminal()
    requires !StatusAtRisk(s, r, was) && r in Apply(s, a).db.runs
    ensures Apply(s, a).db.runs[r].status == was
  {
    RowStep(s, a, r);
    SafeChange(s, a, r, ViewOf(s.db, r), ViewOf(Apply(s, a).db, r));
  }

  lemma SafeOwnerStep(s: System, a: Action, r: int, was: RunStatus, w: int)
    requires Inv(s) && Enabled(s, a) && r in s.db.runs && s.db.runs[r].status == was && was.Terminal()
    requires !StatusAtRisk(s, r, was) && Owns(Apply(s, a), w, r)
    ensures Apply(s, a).workers[w].phase.Returned? && Classify(Apply(s, a).workers[w].phase.outcome).Status() == was
  {
    OwnerStep(s, a, w, r);
    assert Owns(s, w, r);
    if StepOf(a, w) {
      ReturnedStep(s, a, w);
    } else {
      OtherWorkersKeep(s, a, w);
    }
  }

  lemma SafeStep(s: System, a: Action, r: int, was: RunStatus)
    requires Inv(s) && Enabled(s, a) && r in s.db.runs && s.db.runs[r].status == was && was.Terminal()
    requires !StatusAtRisk(s, r, was)
    ensures !StatusAtRisk(Apply(s, a), r, was)
  {
    NoNewCancel(s, a, r);
    forall w | Owns(Apply(s, a), w, r)
      ensures Apply(s, a).workers[w].phase.Returned? && Classify(Apply(s, a).workers[w].phase.outcome).Status() == was
    {
      SafeOwnerStep(s, a, r, was, w);
    }
  }

  /** The next step of a worker whose execution has returned ends it. */
  lemma ReturnedStep(s: System, a: Action, w: int)
    requires Enabled(s, a) && StepOf(a, w) && w in s.workers && s.workers[w].phase.Returned?
    ensures !Apply(s, a).workers[w].phase.Owning()
  {}

  lemma {:induction false} SafeStays(s: System, acts: seq<Action>, r: int, was: RunStatus)
    requires Inv(s) && Exec(s, acts).Some? && r in s.db.runs && s.db.runs[r].status == was && was.Terminal()
    requires !StatusAtRisk(s, r, was)
    ensures !Reaches(s, acts, r, was)
    decreases |acts|
  {
    if acts != [] {
      var s' := Apply(s, acts[0]);
      InvStep(s, acts[0]);
      SafeStep(s, acts[0], r, was);
      if r in s'.db.runs {
        SafeRowStep(s, acts[0], r, was);
        SafeStays(s', acts[1..], r, was);
      } else {
        GoneForever(s', acts[1..], r);
      }
    }
  }

  function NextKey(key: RunKey): RunKey {
    key.(attempt := key.attempt + 1)
  }

  /** The last transaction of a worker cannot commit: it would insert a retry row whose key is taken. */
  ghost predicate Stuck(t: Tables, p: Phase) {
    p.Returned? && Classify(p.outcome).Retryable() && ShouldRetry(p.job, p.run) && KeyTaken(t, NextKey(p.run.Key()))
  }

  function OtherOutcome(status: RunStatus): Outcome {
    if status.Success? then Outcome(None, Some("stopped"), Some(Canceled)) else Outcome(None, None, None)
  }

  lemma FinalizeCommits(t: Tables, id: int, run: Run, job: Job, o: Outcome, finishedAt: Time, createdAt: Time)
    requires Schema(t) && id in t.runs && run.Key() == t.runs[id].Key() && !Stuck(t, Returned(run, job, o))
    ensures var u := FinalizeTx(t, id, run, job, o, finishedAt, createdAt);
            u.Some? && id in u.value.runs && u.value.runs[id].status == Classify(o).Status()
  {
    FinalizeEffect(t, id, run, job, o, finishedAt, createdAt);
    var m := Finalized(t, id, run, o, finishedAt);
    assert forall q <- m.runs :: m.runs[q].Key() == t.runs[q].Key();
    assert BuildRetryRun(run, createdAt).Key() == NextKey(run.Key());
  }

  lemma FinalizeReaches(s: System, w: int, r: int, was: RunStatus)
    requires Inv(s) && Owns(s, w, r) && s.workers[w].phase.Returned? && !Stuck(s.db, s.workers[w].phase)
             && r in s.db.runs
    requires Classify(s.workers[w].phase.outcome).Status() != was
    ensures Reaches(s, [Finalize(w, 0, 0, true)], r, was)
  {
    var a := Finalize(w, 0, 0, true);
    var p := s.workers[w].phase;
    assert WorkerOk(s.db, s.workers[w]);
    FinalizeCommits(s.db, r, p.run, p.job, p.outcome, 0, 0);
    assert Exec(Apply(s, a), [a][1..]) == Some(Apply(s, a));
  }

  lemma ReturnKeeps(s: System, w: int, r: int, o: Outcome)
    requires Inv(s) && Owns(s, w, r) && s.workers[w].phase.Executing? && o.ctxErr != Some(DeadlineExceeded)
    ensures Enabled(s, Return(w, o))
    ensures var s' := Apply(s, Return(w, o));
            Inv(s') && Owns(s', w, r) && s'.db == s.db && s'.workers[w].phase.Returned?
              && s'.workers[w].phase.outcome == o
  {
    InvStep(s, Return(w, o));
  }

  /** A worker that is still executing can end in another outcome, one that is not retried. */
  lemma ExecutingReaches(s: System, w: int, r: int, was: RunStatus)
    requires Inv(s) && Owns(s, w, r) && s.workers[w].phase.Executing? && r in s.db.runs
    ensures Reaches(s, [Return(w, OtherOutcome(was)), Finalize(w, 0, 0, true)], r, was)
  {
    var a := Return(w, OtherOutcome(was));
    ReturnKeeps(s, w, r, OtherOutcome(was));
    FinalizeReaches(Apply(s, a), w, r, was);
    assert [a, Finalize(w, 0, 0, true)][1..] == [Finalize(w, 0, 0, true)];
  }

  lemma ExecuteKeeps(s: System, w: int, r: int)
    requires Inv(s) && Owns(s, w, r) && s.workers[w].phase.Claimed?
    ensures var s' := Apply(s, Execute(w)); Inv(s') && Owns(s', w, r) && s'.workers[w].phase.Executing? && s'.db == s.db
  {
    InvStep(s, Execute(w));
  }

  ghost predicate NothingDeleted(acts: seq<Action>) {
    forall i | 0 <= i < |acts| :: !Deletes(acts[i])
  }

  lemma OwnedReaches(s: System, w: int, r: int, was: RunStatus) returns (acts: seq<Action>)
    requires Inv(s) && Owns(s, w, r) && r in s.db.runs && !Stuck(s.db, s.workers[w].phase)
    requires s.workers[w].phase.Returned? ==> Classify(s.workers[w].phase.outcome).Status() != was
    ensures Reaches(s, acts, r, was) && NothingDeleted(acts)
  {
    var last := Finalize(w, 0, 0, true);
    if s.workers[w].phase.Returned? {
      FinalizeReaches(s, w, r, was);
      acts := [last];
    } else if s.workers[w].phase.Executing? {
      ExecutingReaches(s, w, r, was);
      acts := [Return(w, OtherOutcome(was)), last];
    } else {
      ExecuteKeeps(s, w, r);
      ExecutingReaches(Apply(s, Execute(w)), w, r, was);
      acts := [Execute(w), Return(w, OtherOutcome(was)), last];
      assert acts[1..] == [Return(w, OtherOutcome(was)), last];
    }
  }

  lemma CancelReaches(s: System, c: int, r: int, was: RunStatus)
    requires r in s.db.runs && c in s.cancels && s.cancels[c].runId == r && s.cancels[c].target != was
    ensures Reaches(s, [CancelCommit(c, true)], r, was)
  {
    var a := CancelCommit(c, true);
    assert Exec(Apply(s, a), [a][1..]) == Some(Apply(s, a));
  }

  /**
   A finished row can get another status exactly when its owner has not finalized it (and will not
   repeat the status), or a CancelRun that read it as non-terminal is about to write another one.
   The one state that this leaves open is that of an owner whose last transaction cannot commit.
   */
  lemma TerminalIsFinalIff(s: System, r: int)
    requires Inv(s) && r in s.db.runs && s.db.runs[r].status.Terminal()
    requires forall w | Owns(s, w, r) :: !Stuck(s.db, s.workers[w].phase)
    ensures CanChangeStatus(s, r) <==> StatusAtRisk(s, r, s.db.runs[r].status)
  {
    var was := s.db.runs[r].status;
    if c :| c in s.cancels && s.cancels[c].runId == r && s.cancels[c].target != was {
      CancelReaches(s, c, r, was);
    } else if w :|
      Owns(s, w, r) && (s.workers[w].phase.Returned? ==> Classify(s.workers[w].phase.outcome).Status() != was) {
      var acts := OwnedReaches(s, w, r, was);
    } else {
      forall acts ensures !Reaches(s, acts, r, was) {
        if Exec(s, acts).Some? {
          SafeStays(s, acts, r, was);
        }
      }
    }
  }

  // ---------- As long as nothing is deleted ----------

  /** As StatusAtRisk, without the owners whose last transaction cannot commit. */
  ghost predicate StatusAtRiskNow(s: System, r: int, was: RunStatus) {
    || (exists w :: Owns(s, w, r) && !Stuck(s.db, s.workers[w].phase)
                    && (s.workers[w].phase.Returned? ==> Classify(s.workers[w].phase.outcome).Status() != was))
    || (exists c :: c in s.cancels && s.cancels[c].runId == r && s.cancels[c].target != was)
  }

  lemma StuckRollsBack(s: System, a: Action)
    requires Inv(s) && Enabled(s, a) && a.Finalize? && Stuck(s.db, s.workers[a.w].phase)
    ensures Apply(s, a).db == s.db
  {
    var me := s.workers[a.w];
    FinalizeEffect(s.db, me.runId, me.phase.run, me.phase.job, me.phase.outcome, a.finishedAt, a.createdAt);
    if me.runId in s.db.runs {
      var m := Finalized(s.db, me.runId, me.phase.run, me.phase.outcome, a.finishedAt);
      var q :| q in s.db.runs && s.db.runs[q].Key() == NextKey(me.phase.run.Key());
      assert m.runs[q].Key() == s.db.runs[q].Key() == BuildRetryRun(me.phase.run, a.createdAt).Key();
    }
  }

  lemma SafeChangeNow(s: System, a: Action, r: int, before: View, after: View)
    requires before.row.status.Terminal() && !StatusAtRiskNow(s, r, before.row.status)
             && RowChange(s, a, r, before, after)
    requires a.Finalize? && a.w in s.workers ==> !Stuck(s.db, s.workers[a.w].phase)
    ensures after.row.status == before.row.status
  {}

  lemma SafeRowStepNow(s: System, a: Action, r: int, was: RunStatus)
    requires Inv(s) && Enabled(s, a) && r in s.db.runs && s.db.runs[r].status == was && was.Terminal()
    requires !StatusAtRiskNow(s, r, was) && r in Apply(s, a).db.runs
    ensures Apply(s, a).db.runs[r].status == was
  {
    if a.Finalize? && Stuck(s.db, s.workers[a.w].phase) {
      StuckRollsBack(s, a);
    } else {
      RowStep(s, a, r);
      SafeChangeNow(s, a, r, ViewOf(s.db, r), ViewOf(Apply(s, a).db, r));
    }
  }

  /** An owner that has returned and is still there has not moved, and what stops it does not go away. */
  lemma SafeOwnerStepNow(s: System, a: Action, r: int, was: RunStatus, w: int)
    requires Inv(s) && Enabled(s, a) && !Deletes(a) && r in s.db.runs && s.db.runs[r].status == was && was.Terminal()
    requires !StatusAtRiskNow(s, r, was) && Owns(Apply(s, a), w, r)
    ensures var p := Apply(s, a).workers[w].phase;
            p.Returned? && (Stuck(Apply(s, a).db, p) || Classify(p.outcome).Status() == was)
  {
    OwnerStep(s, a, w, r);
    InvStep(s, a);
    assert Owns(s, w, r);
    if StepOf(a, w) {
      ReturnedStep(s, a, w);
    } else {
      OtherWorkersKeep(s, a, w);
      StuckStays(s.db, Apply(s, a).db, s.workers[w].phase);
    }
  }

  lemma StuckStays(t: Tables, u: Tables, p: Phase)
    requires Steady(t, u) && Grows(t, u)
    ensures Stuck(t, p) ==> Stuck(u, p)
  {
    if Stuck(t, p) {
      var q :| q in t.runs && t.runs[q].Key() == NextKey(p.run.Key());
      assert u.runs[q].Key() == t.runs[q].Key();
    }
  }

  lemma SafeStepNow(s: System, a: Action, r: int, was: RunStatus)
    requires Inv(s) && Enabled(s, a) && !Deletes(a) && r in s.db.runs && s.db.runs[r].status == was && was.Terminal()
    requires !StatusAtRiskNow(s, r, was)
    ensures !StatusAtRiskNow(Apply(s, a), r, was)
  {
    NoNewCancel(s, a, r);
    forall w | Owns(Apply(s, a), w, r)
      ensures var p := Apply(s, a).workers[w].phase;
              p.Returned? && (Stuck(Apply(s, a).db, p) || Classify(p.outcome).Status() == was)
    {
      SafeOwnerStepNow(s, a, r, was, w);
    }
  }

  lemma {:induction false} SafeStaysNow(s: System, acts: seq<Action>, r: int, was: RunStatus)
    requires Inv(s) && Exec(s, acts).Some? && r in s.db.runs && s.db.runs[r].status == was && was.Terminal()
    requires !StatusAtRiskNow(s, r, was) && NothingDeleted(acts)
    ensures !Reaches(s, acts, r, was)
    decreases |acts|
  {
    if acts != [] {
      InvStep(s, acts[0]);
      SafeStepNow(s, acts[0], r, was);
      SafeRowStepNow(s, acts[0], r, was);
      SafeStaysNow(Apply(s, acts[0]), acts[1..], r, was);
    }
  }

  /**
   In every state: before the next deletion, a finished row can get another
   status exactly when a writer that can commit would change it.
   */
  lemma TerminalIsFinalUntilDeletionIff(s: System, r: int)
    requires Inv(s) && r in s.db.runs && s.db.runs[r].status.Terminal()
    ensures (exists acts :: NothingDeleted(acts) && Reaches(s, acts, r, s.db.runs[r].status))
            <==> StatusAtRiskNow(s, r, s.db.runs[r].status)
  {
    var was := s.db.runs[r].status;
    if c :| c in s.cancels && s.cancels[c].runId == r && s.cancels[c].target != was {
      CancelReaches(s, c, r, was);
      assert NothingDeleted([CancelCommit(c, true)]);
    } else if w :| Owns(s, w, r) && !Stuck(s.db, s.workers[w].phase)
                   && (s.workers[w].phase.Returned? ==> Classify(s.workers[w].phase.outcome).Status() != was) {
      var acts := OwnedReaches(s, w, r, was);
    } else {
      forall acts | NothingDeleted(acts) ensures !Reaches(s, acts, r, was) {
        if Exec(s, acts).Some? {
          SafeStaysNow(s, acts, r, was);
        }
      }
    }
  }
}
