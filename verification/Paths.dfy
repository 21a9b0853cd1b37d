/**
 What the actors can do with one row from a given state, without the due-job loop and without
 touching a job: run it, finish it, stop it.
 */
module Paths {
  import opened Model
  import opened Tables
  import opened Transactions
  import opened Lifecycle
  import opened Invariant
  import opened RowSteps
  import opened TerminalStability
  import opened Listings

  /** Neither a scan, nor a change of a job, nor a read of CancelRun. */
  predicate Plain(a: Action) {
    !a.ScanStart? && !a.ScanJob? && !a.CreateJob? && !a.UpdateClock? && !a.UpdateCommit? && !a.RemoveJob?
      && !a.CancelRead?
  }

  predicate AllPlain(acts: seq<Action>) {
    forall i | 0 <= i < |acts| :: Plain(acts[i])
  }

  ghost predicate Brings(s: System, acts: seq<Action>, u: System) {
    AllPlain(acts) && Exec(s, acts) == Some(u)
  }

  lemma BringsOne(s: System, a: Action)
    requires Enabled(s, a) && Plain(a)
    ensures Brings(s, [a], Apply(s, a))
  {
    assert Exec(Apply(s, a), [a][1..]) == Some(Apply(s, a));
  }

  lemma BringsJoin(s: System, a: seq<Action>, m: System, b: seq<Action>, u: System)
    requires Brings(s, a, m) && Brings(m, b, u)
    ensures Brings(s, a + b, u)
  {
    ExecSplit(s, a, b);
  }

  lemma BringsThen(s: System, acts: seq<Action>, m: System, a: Action)
    requires Brings(s, acts, m) && Enabled(m, a) && Plain(a)
    ensures Brings(s, acts + [a], Apply(m, a))
  {
    BringsOne(m, a);
    BringsJoin(s, acts, m, [a], Apply(m, a));
  }

  lemma PlainJobs(s: System, a: Action)
    requires Inv(s) && Enabled(s, a) && Plain(a)
    ensures Apply(s, a).db.jobs == s.db.jobs && Apply(s, a).db.jobSeq == s.db.jobSeq
    ensures Apply(s, a).cfg == s.cfg && Apply(s, a).capacity == s.capacity
  {
    ConfigStays(s, a);
    if Quiet(a) {
      QuietStep(s, a);
    } else if OneRow(a) {
      OneRowStep(s, a);
    } else if a.Finalize? {
      var me := s.workers[a.w];
      FinalizeEffect(s.db, me.runId, me.phase.run, me.phase.job, me.phase.outcome, a.finishedAt, a.createdAt);
    }
  }

  lemma {:induction false} BringsKeeps(s: System, acts: seq<Action>, u: System)
    requires Inv(s) && Brings(s, acts, u)
    ensures Inv(u) && u.db.jobs == s.db.jobs && u.db.jobSeq == s.db.jobSeq && u.cfg == s.cfg && u.capacity == s.capacity
    decreases |acts|
  {
    if acts != [] {
      InvStep(s, acts[0]);
      PlainJobs(s, acts[0]);
      BringsKeeps(Apply(s, acts[0]), acts[1..], u);
    }
  }

  /** No scan begins, and no CancelRun. */
  lemma {:induction false} BringsNothingNew(s: System, acts: seq<Action>, u: System)
    requires Brings(s, acts, u)
    ensures s.scan.NoScan? ==> u.scan.NoScan?
    ensures s.cancels == map[] ==> u.cancels == map[]
    decreases |acts|
  {
    if acts != [] {
      NothingNew(s, acts[0]);
      BringsNothingNew(Apply(s, acts[0]), acts[1..], u);
    }
  }

  lemma NothingNew(s: System, a: Action)
    requires Enabled(s, a) && Plain(a)
    ensures s.scan.NoScan? ==> Apply(s, a).scan.NoScan?
    ensures s.cancels == map[] ==> Apply(s, a).cancels == map[]
  {
    if s.cancels == map[] {
      forall c ensures c !in Apply(s, a).cancels {
        if c in Apply(s, a).cancels {
          CancelStepOf(s, a, c);
        }
      }
    }
  }

  // ---------- What stays of the other rows ----------

  /** Neither pending nor finished with a finish time: only its own actors and CancelRun touch such a row. */
  predicate Lasting(row: Run) {
    !row.status.Pending? && !(row.status.Terminal() && row.finishedAt.Some?)
  }

  /** The lasting rows other than h are the same, and no other row has become running. */
  ghost predicate LastingSame(t: Tables, u: Tables, h: int) {
    && (forall q <- t.runs | q != h && Lasting(t.runs[q]) :: q in u.runs && u.runs[q] == t.runs[q])
    && (forall q <- u.runs | q != h && u.runs[q].status.Running? :: q in t.runs && u.runs[q] == t.runs[q])
  }

  lemma LastingSameJoins(t: Tables, u: Tables, v: Tables, h: int)
    requires LastingSame(t, u, h) && LastingSame(u, v, h)
    ensures LastingSame(t, v, h)
  {}

  /** The workers other than w are where they were. */
  ghost predicate WorkersSame(s: System, u: System, w: int) {
    forall v <- s.workers | v != w :: v in u.workers && u.workers[v] == s.workers[v]
  }

  /** The row is finished and has its finish time: retention can delete it. */
  predicate Ended(t: Tables, h: int) {
    h in t.runs && t.runs[h].status.Terminal() && t.runs[h].finishedAt.Some?
  }

  // ---------- From an owner on ----------

  lemma FinalizeEnds(s: System, w: int, h: int, f: Time)
    requires Inv(s) && Owns(s, w, h) && s.workers[w].phase.Returned? && h in s.db.runs
             && !Stuck(s.db, s.workers[w].phase)
    ensures Enabled(s, Finalize(w, f, f, true))
    ensures var u, p := Apply(s, Finalize(w, f, f, true)).db, s.workers[w].phase;
            && Ended(u, h) && LastingSame(s.db, u, h)
            && u.runs[h] == FinalRow(s.db.runs[h], p.run, p.outcome, f)
            && forall q <- s.db.runs | q != h :: q in u.runs && u.runs[q] == s.db.runs[q]
  {
    var p := s.workers[w].phase;
    assert WorkerOk(s.db, s.workers[w]);
    FinalizeCommits(s.db, h, p.run, p.job, p.outcome, f, f);
    FinalizeRows(s.db, h, p.run, p.job, p.outcome, f);
  }

  lemma FinalizeRows(t: Tables, h: int, run: Run, job: Job, o: Outcome, f: Time)
    requires Schema(t) && h in t.runs && FinalizeTx(t, h, run, job, o, f, f).Some?
    ensures var u := FinalizeTx(t, h, run, job, o, f, f).value;
            && Ended(u, h) && LastingSame(t, u, h) && u.runs[h] == FinalRow(t.runs[h], run, o, f)
            && forall q <- t.runs | q != h :: q in u.runs && u.runs[q] == t.runs[q]
  {
    FinalizeEffect(t, h, run, job, o, f, f);
  }

  lemma ReturnStays(s: System, w: int, h: int, o: Outcome)
    requires Inv(s) && Owns(s, w, h) && s.workers[w].phase.Executing? && o.ctxErr != Some(DeadlineExceeded)
    ensures Enabled(s, Return(w, o))
    ensures var s' := Apply(s, Return(w, o));
            && Inv(s') && Owns(s', w, h) && s'.db == s.db
            && s'.workers[w].phase == Returned(s.workers[w].phase.run, s.workers[w].phase.job, o)
  {
    InvStep(s, Return(w, o));
  }

  lemma NoRetryRow(s: System, w: int, h: int, f: Time)
    requires Inv(s) && Owns(s, w, h) && s.workers[w].phase.Returned? && h in s.db.runs
             && !Classify(s.workers[w].phase.outcome).Retryable()
    ensures Enabled(s, Finalize(w, f, f, true)) && Apply(s, Finalize(w, f, f, true)).db.runs.Keys == s.db.runs.Keys
  {
    var p := s.workers[w].phase;
    FinalizeEffect(s.db, h, p.run, p.job, p.outcome, f, f);
  }

  predicate NotRetried(o: Outcome) {
    o.ctxErr != Some(DeadlineExceeded) && !Classify(o).Retryable()
  }

  lemma EndReturned(s: System, w: int, h: int, f: Time)
    requires Inv(s) && Owns(s, w, h) && s.workers[w].phase.Returned? && h in s.db.runs
             && !Classify(s.workers[w].phase.outcome).Retryable()
    ensures Enabled(s, Finalize(w, f, f, true))
    ensures var u, p := Apply(s, Finalize(w, f, f, true)), s.workers[w].phase;
            && Ended(u.db, h) && LastingSame(s.db, u.db, h) && WorkersSame(s, u, w) && u.cancels == s.cancels
            && u.db.runs[h] == FinalRow(s.db.runs[h], p.run, p.outcome, f) && u.db.runs.Keys == s.db.runs.Keys
            && forall q <- s.db.runs | q != h :: u.db.runs[q] == s.db.runs[q]
  {
    FinalizeEnds(s, w, h, f);
    NoRetryRow(s, w, h, f);
    CancelsUntouched(s, Finalize(w, f, f, true));
  }

  /** An owner that is executing ends with this outcome, at this instant. */
  lemma EndExecuting(s: System, w: int, h: int, o: Outcome, f: Time) returns (acts: seq<Action>, u: System)
    requires Inv(s) && Owns(s, w, h) && s.workers[w].phase.Executing? && h in s.db.runs && NotRetried(o)
    ensures Brings(s, acts, u) && Ended(u.db, h) && LastingSame(s.db, u.db, h)
    ensures u.db.runs[h] == FinalRow(s.db.runs[h], s.workers[w].phase.run, o, f) && u.db.runs.Keys == s.db.runs.Keys
    ensures u.cancels == s.cancels && forall q <- s.db.runs | q != h :: u.db.runs[q] == s.db.runs[q]
    ensures WorkersSame(s, u, w)
  {
    var a := Return(w, o);
    ReturnStays(s, w, h, o);
    EndReturned(Apply(s, a), w, h, f);
    CancelsUntouched(s, a);
    BringsOne(s, a);
    acts, u := [a] + [Finalize(w, f, f, true)], Apply(Apply(s, a), Finalize(w, f, f, true));
    BringsThen(s, [a], Apply(s, a), Finalize(w, f, f, true));
  }

  lemma ExecuteStays(s: System, w: int, h: int)
    requires Inv(s) && Owns(s, w, h) && s.workers[w].phase.Claimed?
    ensures var s' := Apply(s, Execute(w));
            && Inv(s') && Owns(s', w, h) && s'.db == s.db && s'.workers[w].phase.Executing?
            && s'.workers[w].phase.run == s.workers[w].phase.run
  {
    InvStep(s, Execute(w));
  }

  const SUCCEEDED: Outcome := Outcome(None, None, None)

  /** An owner that can commit ends its row. */
  lemma EndOwned(s: System, w: int, h: int, f: Time) returns (acts: seq<Action>, u: System)
    requires Inv(s) && Owns(s, w, h) && h in s.db.runs && !Stuck(s.db, s.workers[w].phase)
    ensures Brings(s, acts, u) && Ended(u.db, h) && LastingSame(s.db, u.db, h) && WorkersSame(s, u, w)
  {
    if s.workers[w].phase.Returned? {
      FinalizeEnds(s, w, h, f);
      BringsOne(s, Finalize(w, f, f, true));
      acts, u := [Finalize(w, f, f, true)], Apply(s, Finalize(w, f, f, true));
    } else if s.workers[w].phase.Executing? {
      acts, u := EndExecuting(s, w, h, SUCCEEDED, f);
    } else {
      ExecuteStays(s, w, h);
      BringsOne(s, Execute(w));
      var more;
      more, u := EndExecuting(Apply(s, Execute(w)), w, h, SUCCEEDED, f);
      BringsJoin(s, [Execute(w)], Apply(s, Execute(w)), more, u);
      acts := [Execute(w)] + more;
    }
  }

  // ---------- From a worker that has not claimed yet ----------

  /** Worker w is about to claim row h. */
  ghost predicate Heads(s: System, w: int, h: int) {
    w in s.workers && s.workers[w].runId == h
      && (s.workers[w].phase.Spawned? || s.workers[w].phase.RunLoaded? || s.workers[w].phase.Loaded?)
  }

  lemma LoadRunStays(s: System, w: int, h: int)
    requires Inv(s) && w in s.workers && s.workers[w] == Worker(h, Spawned) && h in s.db.runs
    ensures Enabled(s, LoadRun(w, true))
    ensures var s' := Apply(s, LoadRun(w, true));
            Inv(s') && s'.db == s.db && w in s'.workers && s'.workers[w] == Worker(h, RunLoaded(s.db.runs[h]))
  {
    InvStep(s, LoadRun(w, true));
  }

  lemma LoadJobStays(s: System, w: int, h: int)
    requires Inv(s) && w in s.workers && s.workers[w].runId == h && s.workers[w].phase.RunLoaded? && h in s.db.runs
    ensures Enabled(s, LoadJob(w, true))
    ensures var s' := Apply(s, LoadJob(w, true));
            && Inv(s') && s'.db == s.db && w in s'.workers && s'.workers[w].runId == h
            && s'.workers[w].phase.Loaded? && s'.workers[w].phase.run == s.workers[w].phase.run
  {
    assert WorkerOk(s.db, s.workers[w]);
    assert s.workers[w].phase.run.jobId == s.workers[w].phase.run.Key().jobId == s.db.runs[h].Key().jobId;
    InvStep(s, LoadJob(w, true));
  }

  /** It loads what it has not loaded yet. */
  lemma Load(s: System, w: int, h: int) returns (acts: seq<Action>, u: System)
    requires Inv(s) && Heads(s, w, h) && h in s.db.runs
    ensures Brings(s, acts, u) && Inv(u) && u.db == s.db && Heads(u, w, h) && u.workers[w].phase.Loaded?
    ensures WorkersSame(s, u, w)
    ensures s.workers[w].phase.Spawned? ==> u.workers[w].phase.run == s.db.runs[h]
  {
    if s.workers[w].phase.Loaded? {
      acts, u := [], s;
    } else if s.workers[w].phase.RunLoaded? {
      LoadJobStays(s, w, h);
      BringsOne(s, LoadJob(w, true));
      acts, u := [LoadJob(w, true)], Apply(s, LoadJob(w, true));
    } else {
      LoadRunStays(s, w, h);
      BringsOne(s, LoadRun(w, true));
      var m := Apply(s, LoadRun(w, true));
      LoadJobStays(m, w, h);
      BringsThen(s, [LoadRun(w, true)], m, LoadJob(w, true));
      acts, u := [LoadRun(w, true)] + [LoadJob(w, true)], Apply(m, LoadJob(w, true));
    }
  }

  /** A worker that finds its row cancelling ends it. */
  lemma StopEnds(s: System, w: int, h: int, f: Time)
    requires Inv(s) && Heads(s, w, h) && s.workers[w].phase.Loaded? && h in s.db.runs && s.db.runs[h].status.Cancelling?
    ensures Enabled(s, Claim(w, f, f, true))
    ensures var u := Apply(s, Claim(w, f, f, true));
            Ended(u.db, h) && LastingSame(s.db, u.db, h) && WorkersSame(s, u, w)
  {}

  /** One that finds it pending owns it. */
  lemma ClaimOwns(s: System, w: int, h: int, at: Time)
    requires Inv(s) && Heads(s, w, h) && s.workers[w].phase.Loaded? && h in s.db.runs && s.db.runs[h].status.Pending?
    ensures Enabled(s, Claim(w, at, at, true))
    ensures var s' := Apply(s, Claim(w, at, at, true));
            && Inv(s') && Owns(s', w, h) && s'.workers[w].phase.Claimed? && WorkersSame(s, s', w)
            && s'.workers[w].phase.run == s.workers[w].phase.run.(startedAt := Some(at))
            && s'.db.runs == s.db.runs[h := s.db.runs[h].(status := Running, startedAt := Some(at))]
  {
    InvStep(s, Claim(w, at, at, true));
  }

  // ---------- From an entry of a round ----------

  lemma FreshId(ids: set<int>)
    ensures exists w :: w !in ids
  {
    var top := UpperBound(ids);
    assert top + 1 !in ids;
  }

  lemma {:induction false} UpperBound(ids: set<int>) returns (top: int)
    ensures forall w <- ids :: w <= top
    decreases |ids|
  {
    EmptyOrMember(ids);
    top := 0;
    if ids != {} {
      var x :| x in ids;
      var most := UpperBound(ids - {x});
      top := if most < x then x else most;
      forall w | w in ids ensures w <= top {
        assert w == x || w in ids - {x};
      }
    }
  }

  lemma SpawnStays(s: System, w: int)
    requires Inv(s) && s.dispatcher.Round? && w !in s.workers
    ensures s.dispatcher.left != [] && Enabled(s, Spawn(w))
    ensures var s', left := Apply(s, Spawn(w)), s.dispatcher.left;
            && Inv(s') && s'.db == s.db && Heads(s', w, left[0]) && WorkersSame(s, s', w)
            && s'.workers[w].phase.Spawned? && (|left| > 1 ==> s'.dispatcher == Round(left[1..]))
  {
    InvStep(s, Spawn(w));
  }

  /** The dispatch loop comes to an entry of its round. */
  lemma {:induction false} SpawnTo(s: System, h: int) returns (acts: seq<Action>, u: System, w: int)
    requires Inv(s) && s.dispatcher.Round? && h in s.dispatcher.left
    ensures Brings(s, acts, u) && Inv(u) && u.db == s.db && Heads(u, w, h) && u.workers[w].phase.Spawned?
    ensures w !in s.workers && WorkersSame(s, u, w)
    decreases if s.dispatcher.Round? then |s.dispatcher.left| else 0
  {
    FreshId(s.workers.Keys);
    w :| w !in s.workers.Keys;
    SpawnStays(s, w);
    BringsOne(s, Spawn(w));
    acts, u := [Spawn(w)], Apply(s, Spawn(w));
    if s.dispatcher.left[0] != h {
      var first := u;
      var more;
      more, u, w := SpawnTo(first, h);
      BringsJoin(s, acts, first, more, u);
      acts := acts + more;
    }
  }

  /** A worker that heads for the row, or will: in a round of the dispatch loop. */
  ghost predicate Comes(s: System, h: int) {
    (exists w :: Heads(s, w, h)) || (s.dispatcher.Round? && h in s.dispatcher.left)
  }

  lemma Arrive(s: System, h: int) returns (acts: seq<Action>, u: System, w: int)
    requires Inv(s) && Comes(s, h) && h in s.db.runs
    ensures Brings(s, acts, u) && Inv(u) && u.db == s.db && Heads(u, w, h) && u.workers[w].phase.Loaded?
    ensures WorkersSame(s, u, w) && (w in s.workers ==> Heads(s, w, h))
  {
    if v :| Heads(s, v, h) {
      w := v;
      acts, u := Load(s, w, h);
    } else {
      var more, m;
      acts, m, w := SpawnTo(s, h);
      more, u := Load(m, w, h);
      BringsJoin(s, acts, m, more, u);
      acts := acts + more;
    }
  }

  // ---------- A row that can be made cancelling ----------

  ghost predicate CanBeCancelling(s: System, h: int)
    requires h in s.db.runs
  {
    || s.db.runs[h].status.Running? || s.db.runs[h].status.Cancelling?
    || (exists c :: c in s.cancels && s.cancels[c].runId == h && s.cancels[c].target.Cancelling?)
  }

  /** The step that makes it so. */
  lemma CancelStays(s: System, a: Action, h: int)
    requires Inv(s) && Comes(s, h) && h in s.db.runs && Enabled(s, a)
    requires (a == CancelAtOnce(h) && s.db.runs[h].status.Running?)
             || (a.CancelCommit? && a.commit && s.cancels[a.c].runId == h && s.cancels[a.c].target.Cancelling?)
    ensures var s' := Apply(s, a);
            && Inv(s') && Comes(s', h) && h in s'.db.runs && s'.db.runs[h].status.Cancelling?
            && LastingSame(s.db, s'.db, h)
  {
    InvStep(s, a);
    CancelMovesNobody(s, a);
    if w :| Heads(s, w, h) {
      assert Heads(Apply(s, a), w, h);
    }
  }

  lemma CancelMovesNobody(s: System, a: Action)
    requires Enabled(s, a) && (a.CancelAtOnce? || a.CancelCommit?)
    ensures Apply(s, a).workers == s.workers && Apply(s, a).dispatcher == s.dispatcher
  {}

  lemma MakeCancelling(s: System, h: int) returns (acts: seq<Action>, u: System)
    requires Inv(s) && Comes(s, h) && h in s.db.runs && CanBeCancelling(s, h)
    ensures Brings(s, acts, u) && Inv(u) && Comes(u, h) && h in u.db.runs && u.db.runs[h].status.Cancelling?
    ensures LastingSame(s.db, u.db, h) && u.workers == s.workers
  {
    if s.db.runs[h].status.Cancelling? {
      acts, u := [], s;
    } else {
      var a := CancelAtOnce(h);
      if !s.db.runs[h].status.Running? {
        var c :| c in s.cancels && s.cancels[c].runId == h && s.cancels[c].target.Cancelling?;
        a := CancelCommit(c, true);
      }
      CancelStays(s, a, h);
      CancelMovesNobody(s, a);
      BringsOne(s, a);
      acts, u := [a], Apply(s, a);
    }
  }

  /** A worker that comes too late to claim the row ends it when it is cancelling. */
  lemma EndStopped(s: System, h: int, f: Time) returns (acts: seq<Action>, u: System)
    requires Inv(s) && Comes(s, h) && h in s.db.runs && CanBeCancelling(s, h)
    ensures Brings(s, acts, u) && Ended(u.db, h) && LastingSame(s.db, u.db, h)
    ensures forall v <- s.workers | s.workers[v].phase.Owning() :: v in u.workers && u.workers[v] == s.workers[v]
  {
    var first, m := MakeCancelling(s, h);
    var more, n, w := Arrive(m, h);
    BringsJoin(s, first, m, more, n);
    StopEnds(n, w, h, f);
    BringsThen(s, first + more, n, Claim(w, f, f, true));
    acts, u := first + more + [Claim(w, f, f, true)], Apply(n, Claim(w, f, f, true));
    LastingSameJoins(s.db, n.db, u.db, h);
  }

  // ---------- From a pending row on ----------

  /** CancelRun takes another pending row out of the way. */
  lemma DropOne(s: System, q: int, h: int)
    requires Inv(s) && q in PendingIds(s.db) && h in PendingIds(s.db) && q != h
    ensures var s' := Apply(s, CancelAtOnce(q));
            && Inv(s') && s' == s.(db := s'.db) && PendingIds(s'.db) == PendingIds(s.db) - {q}
            && h in s'.db.runs && s'.db.runs[h] == s.db.runs[h] && LastingSame(s.db, s'.db, h)
            && s'.db.runs.Keys == s.db.runs.Keys
            && forall p <- s.db.runs | !s.db.runs[p].status.Pending? :: p in s'.db.runs && s'.db.runs[p] == s.db.runs[p]
  {
    InvStep(s, CancelAtOnce(q));
  }

  /** No row comes or goes; those that are not pending, and h, are the same. */
  ghost predicate OthersSame(t: Tables, u: Tables, h: int) {
    u.runs.Keys == t.runs.Keys && forall p <- t.runs | p == h || !t.runs[p].status.Pending? ::
      p in u.runs && u.runs[p] == t.runs[p]
  }

  lemma {:induction false} DropOthers(s: System, h: int) returns (acts: seq<Action>, u: System)
    requires Inv(s) && h in PendingIds(s.db)
    ensures Brings(s, acts, u) && Inv(u) && u == s.(db := u.db) && PendingIds(u.db) == {h}
    ensures LastingSame(s.db, u.db, h) && OthersSame(s.db, u.db, h)
    decreases |PendingIds(s.db)|
  {
    var others := PendingIds(s.db) - {h};
    EmptyOrMember(others);
    if q :| q in others {
      DropOne(s, q, h);
      BringsOne(s, CancelAtOnce(q));
      var m := Apply(s, CancelAtOnce(q));
      var more;
      more, u := DropOthers(m, h);
      BringsJoin(s, [CancelAtOnce(q)], m, more, u);
      LastingSameJoins(s.db, m.db, u.db, h);
      acts := [CancelAtOnce(q)] + more;
    } else {
      OnlyOne(PendingIds(s.db), h);
      acts, u := [], s;
    }
  }

  lemma OnlyOne(ids: set<int>, h: int)
    requires h in ids && forall q :: q !in ids - {h}
    ensures ids == {h}
  {
    forall q ensures q in ids <==> q == h {
      assert q !in ids - {h};
    }
  }

  lemma CrashStays(s: System)
    requires Inv(s)
    ensures var s' := Apply(s, Crash);
            && Inv(s') && s'.db == s.db && s'.workers == map[] && s'.tokens == 0 && s'.dispatcher.Idle?
            && s'.capacity == s.capacity && s'.cfg == s.cfg && s'.scan.NoScan?
  {
    InvStep(s, Crash);
  }

  /** With one row pending and a token to be had, the dispatch loop starts a worker for it. */
  lemma Dispatched(s: System, h: int, w: int) returns (acts: seq<Action>, u: System)
    requires Inv(s) && s.dispatcher.Idle? && s.tokens < s.capacity && PendingIds(s.db) == {h} && w !in s.workers
    ensures Brings(s, acts, u) && Inv(u) && u.db == s.db && Heads(u, w, h) && u.workers[w].phase.Spawned?
    ensures WorkersSame(s, u, w)
  {
    var s1 := s.(dispatcher := Free(s.capacity - s.tokens));
    var s2 := s.(dispatcher := Round([h]));
    OnlyPending(s.db, h, s.capacity - s.tokens);
    BringsOne(s, ReadFree);
    BringsThen(s, [ReadFree], s1, ListPending([h]));
    InvStep(s, ReadFree);
    InvStep(s1, ListPending([h]));
    SpawnStays(s2, w);
    BringsThen(s, [ReadFree] + [ListPending([h])], s2, Spawn(w));
    acts, u := [ReadFree] + [ListPending([h])] + [Spawn(w)], Apply(s2, Spawn(w));
  }

  lemma OnlyPending(t: Tables, h: int, limit: nat)
    requires PendingIds(t) == {h} && limit > 0
    ensures PendingListing(t, limit, [h])
  {
    assert h in PendingIds(t);
    forall r | r in t.runs && t.runs[r].status.Pending? ensures r == h {
      assert r in PendingIds(t);
    }
  }

  /** With the other pending rows cancelled, worker w comes to claim the row. */
  lemma LoadPending(s: System, h: int, w: int) returns (acts: seq<Action>, u: System)
    requires Inv(s) && s.dispatcher.Idle? && s.tokens < s.capacity && h in PendingIds(s.db) && w !in s.workers
    ensures Brings(s, acts, u) && Inv(u) && Heads(u, w, h) && u.workers[w].phase.Loaded? && WorkersSame(s, u, w)
    ensures h in u.db.runs && u.workers[w].phase.run == s.db.runs[h]
    ensures LastingSame(s.db, u.db, h) && OthersSame(s.db, u.db, h)
  {
    var drop, s1 := DropOthers(s, h);
    var start, s2 := Dispatched(s1, h, w);
    BringsJoin(s, drop, s1, start, s2);
    var load;
    load, u := Load(s2, w, h);
    BringsJoin(s, drop + start, s2, load, u);
    acts := drop + start + load;
  }

  lemma ClaimedRows(t: Tables, m: Tables, u: Tables, h: int, row: Run)
    requires LastingSame(t, m, h) && OthersSame(t, m, h) && h in m.runs && u.runs == m.runs[h := row]
    ensures u.runs.Keys == t.runs.Keys && LastingSame(t, u, h)
    ensures forall p <- t.runs | !t.runs[p].status.Pending? && p != h :: u.runs[p] == t.runs[p]
  {}

  /** The row is claimed. */
  lemma TakeNext(s: System, h: int, w: int, at: Time) returns (acts: seq<Action>, u: System)
    requires Inv(s) && s.dispatcher.Idle? && s.tokens < s.capacity && h in PendingIds(s.db) && w !in s.workers
    ensures Brings(s, acts, u) && Inv(u) && Owns(u, w, h) && u.workers[w].phase.Claimed? && WorkersSame(s, u, w)
    ensures var row := s.db.runs[h].(status := Running, startedAt := Some(at));
            h in u.db.runs && u.db.runs[h] == row && u.workers[w].phase.run == row.(status := Pending)
    ensures u.db.runs.Keys == s.db.runs.Keys && LastingSame(s.db, u.db, h)
    ensures forall p <- s.db.runs | !s.db.runs[p].status.Pending? :: u.db.runs[p] == s.db.runs[p]
  {
    var m;
    acts, m := LoadPending(s, h, w);
    ClaimOwns(m, w, h, at);
    BringsThen(s, acts, m, Claim(w, at, at, true));
    u := Apply(m, Claim(w, at, at, true));
    ClaimedRows(s.db, m.db, u.db, h, u.db.runs[h]);
    acts := acts + [Claim(w, at, at, true)];
  }

  /** After a crash any pending row can be the next. */
  lemma TakePending(s: System, h: int, at: Time) returns (acts: seq<Action>, u: System)
    requires Inv(s) && s.capacity > 0 && h in PendingIds(s.db)
    ensures Brings(s, acts, u) && Inv(u) && Owns(u, 0, h) && u.workers[0].phase.Claimed? && LastingSame(s.db, u.db, h)
    ensures var row := s.db.runs[h].(status := Running, startedAt := Some(at));
            h in u.db.runs && u.db.runs[h] == row && u.workers[0].phase.run == row.(status := Pending)
    ensures u.db.runs.Keys == s.db.runs.Keys
    ensures forall p <- s.db.runs | !s.db.runs[p].status.Pending? :: u.db.runs[p] == s.db.runs[p]
  {
    CrashStays(s);
    BringsOne(s, Crash);
    var more;
    more, u := TakeNext(Apply(s, Crash), h, 0, at);
    BringsJoin(s, [Crash], Apply(s, Crash), more, u);
    acts := [Crash] + more;
  }
}
