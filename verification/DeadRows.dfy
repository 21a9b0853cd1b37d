/** Rows that can never finish: as long as their job takes no slot, no step ends them and none deletes them. */
module DeadRows {
  import opened Tables
  import opened Lifecycle
  import opened Invariant
  import opened RowSteps
  import opened ExecuteOnce
  import opened TerminalStability
  import opened Paths
  import opened Holders

  ghost predicate Dead(s: System, h: int) {
    h in s.db.runs && !CanEnd(s, h)
  }

  /** The row cannot end while these workers wait with earlier attempts. */
  ghost predicate DeadBehind(s: System, h: int, frozen: set<int>) {
    h in s.db.runs && !Ends(s, h, |frozen|) && Wait(s, frozen, s.db.runs[h].attempt)
  }

  predicate RemovesJob(a: Action, j: int) {
    a.RemoveJob? && a.jobId == j
  }

  /** The step closes no row of this job: it is no scan that commits for it. */
  ghost predicate ClosesNone(s: System, a: Action, j: int)
    requires Enabled(s, a)
  {
    a.ScanJob? ==> Apply(s, a).db == s.db || s.scan.due[0].jobId != j
  }

  /** An entry of a round was one before, or is a pending row. */
  lemma RoundRows(s: System, a: Action, r: int)
    requires Enabled(s, a) && Apply(s, a).dispatcher.Round? && r in Apply(s, a).dispatcher.left
    ensures Claimable(s.db, r) || (s.dispatcher.Round? && r in s.dispatcher.left)
  {
    if Apply(s, a).dispatcher != s.dispatcher {
      DispatcherReadsOnly(s, a);
    }
  }

  /** Where the waiting workers take up all tokens, there is no other worker and no round. */
  lemma NoCapacity(s: System, frozen: set<int>, attempt: int)
    requires Inv(s) && Wait(s, frozen, attempt) && |frozen| >= s.capacity
    ensures forall h :: !Comes(s, h)
  {
    CardinalityOfKeys(s.workers);
    forall w | w in frozen ensures w in s.workers.Keys {}
    AllOfThem(frozen, s.workers.Keys);
    forall h, w ensures !Heads(s, w, h) {
      assert w in s.workers ==> w in s.workers.Keys;
    }
    assert !s.dispatcher.Round?;
  }

  lemma AllOfThem(some: set<int>, all: set<int>)
    requires some <= all
    ensures |some| <= |all|
    ensures |some| >= |all| ==> forall w | w in all :: w in some
  {
    assert |all| == |some| + |all - some|;
    forall w | w in all && w !in some ensures |all - some| > 0 {
      assert w in all - some;
    }
  }

  lemma DeadRowShape(s: System, h: int, frozen: set<int>)
    requires Inv(s) && DeadBehind(s, h, frozen)
    ensures var row := s.db.runs[h];
            && row.finishedAt.None?
            && (row.status.Running? || row.status.Cancelling? || row.status.Cancelled?
                || (row.status.Pending? && |frozen| >= s.capacity))
            && (forall w | Owns(s, w, h) :: s.workers[w].phase.Returned? && Stuck(s.db, s.workers[w].phase))
            && forall c <- s.cancels :: s.cancels[c].read.finishedAt.None? && !s.cancels[c].target.Running?
  {
    assert !EndsByItself(s, h, |frozen|);
    assert Shape(s.db.runs[h]);
    assert forall c <- s.cancels :: CancelOk(s.db, s.cancels[c]);
  }

  lemma DeadChange(s: System, a: Action, h: int, before: View, after: View)
    requires RowChange(s, a, h, before, after) && before.row.finishedAt.None?
    requires forall c <- s.cancels :: s.cancels[c].read.finishedAt.None? && !s.cancels[c].target.Running?
    requires a.Claim? && a.w in s.workers && s.workers[a.w].runId == h
             ==> !before.row.status.Pending? && !before.row.status.Cancelling?
    requires after == before || (!ByReclaim(s, a, h, before, after) && !ByOwner(s, a, h, before, after))
    ensures after.row.finishedAt.None? && (after.row.status.Running? ==> after == before)
    ensures after.row.status.Cancelling? ==>
              || before.row.status.Running? || before.row.status.Cancelling?
              || (exists c :: c in s.cancels && s.cancels[c].runId == h && s.cancels[c].target.Cancelling?)
  {}

  lemma DeadRowStep(s: System, a: Action, h: int, frozen: set<int>)
    requires Inv(s) && DeadBehind(s, h, frozen) && Enabled(s, a)
    requires ClosesNone(s, a, s.db.runs[h].jobId) && h in Apply(s, a).db.runs
    ensures var row := Apply(s, a).db.runs[h];
            && row.finishedAt.None? && row.Key() == s.db.runs[h].Key()
            && (row.status.Pending? ==> s.db.runs[h].status.Pending?)
            && (row.status.Running? || row.status.Cancelling? ==> CanBeCancelling(s, h))
  {
    DeadRowShape(s, h, frozen);
    InvStep(s, a);
    RowStep(s, a, h);
    if a.Claim? && s.workers[a.w].runId == h {
      NoClaimOfDead(s, a.w, h, frozen);
    }
    NotReclaimed(s, a, h, ViewOf(s.db, h), ViewOf(Apply(s, a).db, h));
    NotByOwner(s, a, h, ViewOf(s.db, h), ViewOf(Apply(s, a).db, h));
    DeadChange(s, a, h, ViewOf(s.db, h), ViewOf(Apply(s, a).db, h));
  }

  lemma NotReclaimed(s: System, a: Action, h: int, before: View, after: View)
    requires Enabled(s, a) && h in s.db.runs && ClosesNone(s, a, s.db.runs[h].jobId) && before == ViewOf(s.db, h)
    requires h in Apply(s, a).db.runs && after == ViewOf(Apply(s, a).db, h)
    ensures after == before || !ByReclaim(s, a, h, before, after)
  {}

  /** A stuck owner's transaction is rolled back. */
  lemma NotByOwner(s: System, a: Action, h: int, before: View, after: View)
    requires Inv(s) && Enabled(s, a) && h in s.db.runs && before == ViewOf(s.db, h)
    requires h in Apply(s, a).db.runs && after == ViewOf(Apply(s, a).db, h)
    requires forall w | Owns(s, w, h) :: s.workers[w].phase.Returned? && Stuck(s.db, s.workers[w].phase)
    ensures after == before || !ByOwner(s, a, h, before, after)
  {
    if a.Finalize? && Owns(s, a.w, h) {
      StuckRollsBack(s, a);
    }
  }

  lemma NoClaimOfDead(s: System, w: int, h: int, frozen: set<int>)
    requires Inv(s) && DeadBehind(s, h, frozen)
    requires w in s.workers && s.workers[w].phase.Loaded? && s.workers[w].runId == h
    ensures !s.db.runs[h].status.Pending? && !s.db.runs[h].status.Cancelling?
  {
    assert Heads(s, w, h) && Comes(s, h) && !EndsByItself(s, h, |frozen|);
    if |frozen| >= s.capacity {
      NoCapacity(s, frozen, s.db.runs[h].attempt);
    }
  }

  lemma DeadStays(s: System, a: Action, h: int, frozen: set<int>)
    requires Inv(s) && DeadBehind(s, h, frozen) && Enabled(s, a) && !RemovesJob(a, s.db.runs[h].jobId)
    ensures h in Apply(s, a).db.runs
  {
    DeadRowShape(s, h, frozen);
    if !Deletes(a) {
      InvStep(s, a);
    }
  }

  /** Whoever comes for the row came for it before, unless it is pending. */
  lemma ComesStep(s: System, a: Action, h: int)
    requires Inv(s) && Enabled(s, a) && h in s.db.runs && !s.db.runs[h].status.Pending? && Comes(Apply(s, a), h)
    ensures Comes(s, h)
  {
    var s' := Apply(s, a);
    if w :| Heads(s', w, h) {
      HeadsStep(s, a, w, h);
    } else {
      RoundRows(s, a, h);
    }
  }

  lemma HeadsStep(s: System, a: Action, w: int, h: int)
    requires Enabled(s, a) && Heads(Apply(s, a), w, h)
    ensures Heads(s, w, h) || (s.dispatcher.Round? && h in s.dispatcher.left)
  {
    if StepOf(a, w) {
      OwnHeadsStep(s, a, w, h);
    } else {
      OtherWorkersKeep(s, a, w);
    }
  }

  lemma OwnHeadsStep(s: System, a: Action, w: int, h: int)
    requires Enabled(s, a) && StepOf(a, w) && Heads(Apply(s, a), w, h)
    ensures Heads(s, w, h) || (s.dispatcher.Round? && h in s.dispatcher.left)
  {}

  lemma CanBeCancellingStep(s: System, a: Action, h: int, frozen: set<int>)
    requires Inv(s) && DeadBehind(s, h, frozen) && Enabled(s, a) && ClosesNone(s, a, s.db.runs[h].jobId)
    requires h in Apply(s, a).db.runs && CanBeCancelling(Apply(s, a), h)
    ensures CanBeCancelling(s, h)
  {
    DeadRowStep(s, a, h, frozen);
    if c :| c in Apply(s, a).cancels && Apply(s, a).cancels[c].runId == h && Apply(s, a).cancels[c].target.Cancelling? {
      CancelStepOf(s, a, c);
    }
  }

  /** No worker comes for a dead row that could stop it, or claim it. */
  lemma NobodyComes(s: System, a: Action, h: int, frozen: set<int>)
    requires Inv(s) && DeadBehind(s, h, frozen) && Enabled(s, a) && Wait(Apply(s, a), frozen, s.db.runs[h].attempt)
    requires ClosesNone(s, a, s.db.runs[h].jobId) && h in Apply(s, a).db.runs
    ensures !(Comes(Apply(s, a), h) && CanBeCancelling(Apply(s, a), h))
  {
    var s' := Apply(s, a);
    InvStep(s, a);
    ConfigStays(s, a);
    DeadRowShape(s, h, frozen);
    if s.db.runs[h].status.Pending? {
      NoCapacity(s', frozen, s.db.runs[h].attempt);
    } else if Comes(s', h) && CanBeCancelling(s', h) {
      ComesStep(s, a, h);
      CanBeCancellingStep(s, a, h, frozen);
    }
  }

  lemma OwnedBefore(s: System, a: Action, h: int, frozen: set<int>, w: int)
    requires Inv(s) && DeadBehind(s, h, frozen) && Enabled(s, a) && Owns(Apply(s, a), w, h)
    ensures Owns(s, w, h)
  {
    OwnerStep(s, a, w, h);
    if !Owns(s, w, h) {
      NoClaimOfDead(s, w, h, frozen);
    }
  }

  /** A dead row gets no new owner, and the one it has does not move. */
  lemma SameOwner(s: System, a: Action, h: int, frozen: set<int>, w: int)
    requires Inv(s) && DeadBehind(s, h, frozen) && Enabled(s, a) && Owns(Apply(s, a), w, h)
    ensures Owns(s, w, h) && s.workers[w].phase.Returned? && Stuck(s.db, s.workers[w].phase)
    ensures Apply(s, a).workers[w] == s.workers[w]
  {
    DeadRowShape(s, h, frozen);
    OwnedBefore(s, a, h, frozen, w);
    if StepOf(a, w) {
      ReturnedStep(s, a, w);
    } else {
      OtherWorkersKeep(s, a, w);
    }
  }

  /** The row that a dead row's owner waits for. */
  lemma WaitsFor(s: System, h: int, frozen: set<int>, w: int) returns (x: int)
    requires Inv(s) && DeadBehind(s, h, frozen)
    requires Owns(s, w, h) && s.workers[w].phase.Returned? && Stuck(s.db, s.workers[w].phase)
    ensures HoldsNext(s.db, h, x) && DeadBehind(s, x, frozen + {w})
  {
    assert WorkerOk(s.db, s.workers[w]);
    x :| x in s.db.runs && s.db.runs[x].Key() == NextKey(s.workers[w].phase.run.Key());
    OneMoreWaits(s, frozen, w, h, x);
    assert HasReturned(s, h) && HoldsNext(s.db, h, x);
  }

  /** Where its owner, if it has one, is stuck after the step as well, it does not end by itself. */
  lemma NotByItself(s: System, a: Action, h: int, frozen: set<int>)
    requires Inv(s) && DeadBehind(s, h, frozen) && Enabled(s, a) && Wait(Apply(s, a), frozen, s.db.runs[h].attempt)
    requires ClosesNone(s, a, s.db.runs[h].jobId) && h in Apply(s, a).db.runs
    requires forall w | Owns(Apply(s, a), w, h) :: Stuck(Apply(s, a).db, Apply(s, a).workers[w].phase)
    ensures !EndsByItself(Apply(s, a), h, |frozen|)
  {
    ConfigStays(s, a);
    DeadRowShape(s, h, frozen);
    DeadRowStep(s, a, h, frozen);
    NobodyComes(s, a, h, frozen);
  }

  lemma StillStuck(s: System, a: Action, h: int, w: int, x: int)
    requires Inv(s) && Enabled(s, a) && h in s.db.runs && h in Apply(s, a).db.runs
    requires Owns(s, w, h) && Owns(Apply(s, a), w, h) && Apply(s, a).workers[w] == s.workers[w]
    requires Stuck(s.db, s.workers[w].phase) && HoldsNext(s.db, h, x) && x in Apply(s, a).db.runs
    requires Apply(s, a).db.runs[x].Key() == s.db.runs[x].Key() && Apply(s, a).db.runs[h].Key() == s.db.runs[h].Key()
    ensures forall v | Owns(Apply(s, a), v, h) :: Stuck(Apply(s, a).db, Apply(s, a).workers[v].phase)
    ensures forall y | HoldsNext(Apply(s, a).db, h, y) :: y == x
  {
    InvStep(s, a);
    assert WorkerOk(s.db, s.workers[w]);
    StuckOn(s.db, Apply(s, a).db, s.workers[w].phase, h, x);
  }

  /** The key of the retry stays taken, by the same row. */
  lemma StuckOn(t: Tables, u: Tables, p: Phase, h: int, x: int)
    requires Schema(u) && Stuck(t, p) && h in t.runs && HoldsNext(t, h, x) && p.run.Key() == t.runs[h].Key()
    requires h in u.runs && x in u.runs && u.runs[h].Key() == t.runs[h].Key() && u.runs[x].Key() == t.runs[x].Key()
    ensures Stuck(u, p) && forall y | HoldsNext(u, h, y) :: y == x
  {}

  /** A dead row stays dead, under its key. */
  lemma {:induction false} DeadBehindStep(s: System, a: Action, h: int, frozen: set<int>)
    requires Inv(s) && DeadBehind(s, h, frozen) && Enabled(s, a) && Wait(Apply(s, a), frozen, s.db.runs[h].attempt)
    requires ClosesNone(s, a, s.db.runs[h].jobId) && !RemovesJob(a, s.db.runs[h].jobId)
    ensures DeadBehind(Apply(s, a), h, frozen) && Apply(s, a).db.runs[h].Key() == s.db.runs[h].Key()
    decreases Later(s.db, s.db.runs[h].attempt)
  {
    var s' := Apply(s, a);
    DeadStays(s, a, h, frozen);
    DeadRowStep(s, a, h, frozen);
    if w :| Owns(s', w, h) {
      SameOwner(s, a, h, frozen, w);
      var x := WaitsFor(s, h, frozen, w);
      LaterShrinks(s.db, h, x);
      OneMoreWaits(s, frozen, w, h, x);
      DeadBehindStep(s, a, x, frozen + {w});
      StillStuck(s, a, h, w, x);
    }
    NotByItself(s, a, h, frozen);
  }

  lemma DeadStep(s: System, a: Action, h: int)
    requires Inv(s) && Dead(s, h) && Enabled(s, a)
    requires ClosesNone(s, a, s.db.runs[h].jobId) && !RemovesJob(a, s.db.runs[h].jobId)
    ensures Dead(Apply(s, a), h) && Apply(s, a).db.runs[h].Key() == s.db.runs[h].Key()
  {
    DeadBehindStep(s, a, h, {});
  }

  // ---------- Over runs ----------

  /** The job is not removed, and no scan commits for it. */
  ghost predicate SparesJob(s: System, acts: seq<Action>, j: int)
    requires Exec(s, acts).Some?
    decreases |acts|
  {
    acts == [] ||
    (ClosesNone(s, acts[0], j) && !RemovesJob(acts[0], j) && SparesJob(Apply(s, acts[0]), acts[1..], j))
  }

  ghost predicate EndsIn(s: System, acts: seq<Action>, h: int)
    requires h in s.db.runs
  {
    Exec(s, acts).Some? && SparesJob(s, acts, s.db.runs[h].jobId) && Ended(Exec(s, acts).value.db, h)
  }

  lemma {:induction false} PlainSparesJob(s: System, acts: seq<Action>, j: int)
    requires AllPlain(acts) && Exec(s, acts).Some?
    ensures SparesJob(s, acts, j)
    decreases |acts|
  {
    if acts != [] {
      PlainSparesJob(Apply(s, acts[0]), acts[1..], j);
    }
  }

  lemma {:induction false} DeadForGood(s: System, acts: seq<Action>, h: int)
    requires Inv(s) && Dead(s, h) && Exec(s, acts).Some? && SparesJob(s, acts, s.db.runs[h].jobId)
    ensures Inv(Exec(s, acts).value) && Dead(Exec(s, acts).value, h)
    decreases |acts|
  {
    if acts != [] {
      InvStep(s, acts[0]);
      DeadStep(s, acts[0], h);
      assert Apply(s, acts[0]).db.runs[h].jobId == s.db.runs[h].Key().jobId;
      DeadForGood(Apply(s, acts[0]), acts[1..], h);
    }
  }

  /**
   In every state: without a scan of its job, a row comes to an end in some continuation exactly when
   CanEnd says so; otherwise it stays for as long as its job does.
   */
  lemma RowEndsIff(s: System, h: int)
    requires Inv(s) && h in s.db.runs
    ensures CanEnd(s, h) <==> exists acts :: EndsIn(s, acts, h)
  {
    if CanEnd(s, h) {
      var acts, u := EndRow(s, h, {}, 0);
      PlainSparesJob(s, acts, s.db.runs[h].jobId);
      assert EndsIn(s, acts, h);
    } else {
      forall acts ensures !EndsIn(s, acts, h) {
        if Exec(s, acts).Some? && SparesJob(s, acts, s.db.runs[h].jobId) {
          DeadForGood(s, acts, h);
        }
      }
    }
  }
}
