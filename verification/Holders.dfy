/**
 Which rows can still end, and so be deleted by retention and free their key.  A row waits for
 another one when its owner is to insert a retry under a key that this one holds.
 */
module Holders {
  import opened Model
  import opened Tables
  import opened Instants
  import opened Transactions
  import opened Lifecycle
  import opened Invariant
  import opened TerminalStability
  import opened Listings
  import opened Paths

  // ---------- Sending workers away ----------

  /** The system without worker v. */
  function Without(s: System, v: int): System
    requires s.tokens > 0
  {
    s.(workers := s.workers - {v}, tokens := s.tokens - 1)
  }

  /** The step with which a worker gives up, when it fails; an executing one returns first. */
  function GivesUp(s: System, v: int): Action
    requires v in s.workers && !s.workers[v].phase.Finished?
  {
    match s.workers[v].phase
    case Spawned => LoadRun(v, false)
    case RunLoaded(_) => LoadJob(v, false)
    case Loaded(_, _) => Claim(v, 0, 0, false)
    case Claimed(_, _) => CancelBeforeExecute(v, 0, false)
    case Executing(_, _) => Return(v, SUCCEEDED)
    case Returned(_, _, _) => Finalize(v, 0, 0, false)
  }

  lemma GivesUpStep(s: System, v: int)
    requires v in s.workers && !s.workers[v].phase.Finished?
    ensures Enabled(s, GivesUp(s, v)) && Plain(GivesUp(s, v))
    ensures var s' := Apply(s, GivesUp(s, v));
            && v in s'.workers && s' == SetPhase(s, v, s'.workers[v].phase)
            && (if s.workers[v].phase.Executing? then s'.workers[v].phase.Returned? else s'.workers[v].phase.Finished?)
  {}

  lemma Gone(s: System, v: int)
    requires Inv(s) && v in s.workers && !s.workers[v].phase.Finished?
    ensures var s' := Apply(s, GivesUp(s, v));
            && Inv(s') && v in s'.workers && s.tokens > 0 && s'.tokens > 0 && Without(s', v) == Without(s, v)
            && (if s.workers[v].phase.Executing? then s'.workers[v].phase.Returned? else s'.workers[v].phase.Finished?)
  {
    HoldsToken(s, v);
    GivesUpStep(s, v);
    InvStep(s, GivesUp(s, v));
  }

  /** A worker can leave at any time, without changing a table. */
  lemma {:induction false} Dismiss(s: System, v: int) returns (acts: seq<Action>)
    requires Inv(s) && v in s.workers
    ensures s.tokens > 0 && Brings(s, acts, Without(s, v))
    decreases if s.workers[v].phase.Executing? then 2 else if s.workers[v].phase.Finished? then 0 else 1
  {
    if s.workers[v].phase.Finished? {
      HoldsToken(s, v);
      BringsOne(s, Release(v));
      acts := [Release(v)];
    } else {
      var a := GivesUp(s, v);
      var m := Apply(s, a);
      GivesUpStep(s, v);
      BringsOne(s, a);
      Gone(s, v);
      var more := Dismiss(m, v);
      BringsJoin(s, [a], m, more, Without(s, v));
      acts := [a] + more;
    }
  }

  lemma HoldsToken(s: System, v: int)
    requires Inv(s) && v in s.workers
    ensures s.tokens > 0
  {
    CardinalityOfKeys(s.workers);
    assert s.workers.Keys != {};
  }

  /** All workers but these leave. */
  lemma {:induction false} Drain(s: System, frozen: set<int>) returns (acts: seq<Action>, u: System)
    requires Inv(s) && frozen <= s.workers.Keys
    ensures Brings(s, acts, u) && Inv(u) && u == s.(workers := u.workers, tokens := |frozen|)
    ensures u.workers.Keys == frozen && forall w <- frozen :: u.workers[w] == s.workers[w]
    decreases s.workers.Keys - frozen
  {
    EmptyOrMember(s.workers.Keys - frozen);
    if v :| v in s.workers.Keys - frozen {
      var first := Dismiss(s, v);
      var m := Without(s, v);
      BringsKeeps(s, first, m);
      OneLess(s, frozen, v);
      var more;
      more, u := Drain(m, frozen);
      BringsJoin(s, first, m, more, u);
      acts := first + more;
    } else {
      NobodyElse(s, frozen);
      acts, u := [], s;
    }
  }

  lemma OneLess(s: System, frozen: set<int>, v: int)
    requires s.tokens > 0 && frozen <= s.workers.Keys && v in s.workers.Keys - frozen
    ensures var m := Without(s, v);
            && frozen <= m.workers.Keys && m.workers.Keys - frozen < s.workers.Keys - frozen
            && forall w <- frozen :: m.workers[w] == s.workers[w]
    ensures forall workers, tokens ::
            Without(s, v).(workers := workers, tokens := tokens) == s.(workers := workers, tokens := tokens)
  {}

  lemma NobodyElse(s: System, frozen: set<int>)
    requires Inv(s) && frozen <= s.workers.Keys && forall v :: v !in s.workers.Keys - frozen
    ensures s.workers.Keys == frozen && s == s.(tokens := |frozen|)
  {
    assert forall v <- s.workers.Keys :: v !in s.workers.Keys - frozen;
    CardinalityOfKeys(s.workers);
  }

  /** The dispatch loop can stop, when the context of its round ends or its listing fails. */
  lemma Rest(s: System) returns (acts: seq<Action>)
    requires Inv(s)
    ensures Brings(s, acts, s.(dispatcher := Idle)) && Inv(s.(dispatcher := Idle))
  {
    if s.dispatcher.Idle? {
      acts := [];
      assert s == s.(dispatcher := Idle);
    } else {
      InvStep(s, StopRound);
      BringsOne(s, StopRound);
      acts := [StopRound];
    }
  }

  // ---------- A pending row ----------

  /** Where the frozen workers leave a token, a pending row is executed to its end while they wait. */
  lemma EndPending(s: System, h: int, frozen: set<int>, f: Time) returns (acts: seq<Action>, u: System)
    requires Inv(s) && h in PendingIds(s.db) && (forall w <- frozen :: w in s.workers) && |frozen| < s.capacity
    ensures Brings(s, acts, u) && Ended(u.db, h) && LastingSame(s.db, u.db, h)
    ensures forall w <- frozen :: w in u.workers && u.workers[w] == s.workers[w]
  {
    forall w | w in frozen ensures w in s.workers.Keys {}
    var rest := Rest(s);
    var drain, s1 := Drain(s.(dispatcher := Idle), frozen);
    BringsJoin(s, rest, s.(dispatcher := Idle), drain, s1);
    FreshId(s1.workers.Keys);
    var w :| w !in s1.workers.Keys;
    var take, s2 := TakeNext(s1, h, w, f);
    BringsJoin(s, rest + drain, s1, take, s2);
    var end;
    end, u := EndOwned(s2, w, h, f);
    BringsJoin(s, rest + drain + take, s2, end, u);
    LastingSameJoins(s.db, s2.db, u.db, h);
    acts := rest + drain + take + end;
  }

  // ---------- A row that has ended ----------

  lemma SecondLater(t: Time)
    ensures TextBefore(t, t + SECOND)
  {
    assert Sec(t) < Sec(t + SECOND);
  }

  /** Retention deletes a row that has ended, with all that finished before it. */
  lemma PruneFrees(s: System, h: int)
    requires Inv(s) && Ended(s.db, h)
    ensures var s' := Apply(s, Prune(s.db.runs[h].finishedAt.value + SECOND));
            && Inv(s') && !KeyTaken(s'.db, s.db.runs[h].Key()) && h !in s'.db.runs && LastingSame(s.db, s'.db, h)
            && s'.workers == s.workers
  {
    var before := s.db.runs[h].finishedAt.value + SECOND;
    SecondLater(s.db.runs[h].finishedAt.value);
    assert h in PrunableRuns(s.db, before);
    InvStep(s, Prune(before));
  }

  lemma {:induction false} BringsSteady(s: System, acts: seq<Action>, u: System, h: int)
    requires Inv(s) && Brings(s, acts, u) && h in s.db.runs && h in u.db.runs
    ensures u.db.runs[h].Key() == s.db.runs[h].Key()
    decreases |acts|
  {
    if acts != [] {
      var s' := Apply(s, acts[0]);
      InvStep(s, acts[0]);
      if h in s'.db.runs {
        BringsSteady(s', acts[1..], u, h);
      } else {
        GoneForever(s', acts[1..], h);
      }
    }
  }

  /** A row that has ended is deleted. */
  lemma Delete(s: System, acts: seq<Action>, m: System, x: int) returns (all: seq<Action>, n: System)
    requires Inv(s) && Brings(s, acts, m) && x in s.db.runs && Ended(m.db, x)
    ensures Brings(s, all, n) && Inv(n) && x !in n.db.runs && !KeyTaken(n.db, s.db.runs[x].Key())
    ensures n.workers == m.workers && LastingSame(m.db, n.db, x)
  {
    BringsKeeps(s, acts, m);
    BringsSteady(s, acts, m, x);
    PruneFrees(m, x);
    var a := Prune(m.db.runs[x].finishedAt.value + SECOND);
    BringsThen(s, acts, m, a);
    all, n := acts + [a], Apply(m, a);
  }

  // ---------- Rows that can still end ----------

  /**
   Some continuation ends the row by itself while so many workers wait: it has ended; it is pending
   and they leave a token; a worker comes for it and it is or can be made cancelling; or it has an
   owner that can commit.
   */
  ghost predicate EndsByItself(s: System, h: int, waiting: nat)
    requires h in s.db.runs
  {
    || Ended(s.db, h)
    || (s.db.runs[h].status.Pending? && waiting < s.capacity)
    || (Comes(s, h) && CanBeCancelling(s, h))
    || exists w :: Owns(s, w, h) && !Stuck(s.db, s.workers[w].phase)
  }

  /** Row x has the key that a retry of h would take. */
  predicate HoldsNext(t: Tables, h: int, x: int)
    requires h in t.runs
  {
    x in t.runs && t.runs[x].Key() == NextKey(t.runs[h].Key())
  }

  ghost predicate HasReturned(s: System, h: int) {
    exists w :: Owns(s, w, h) && s.workers[w].phase.Returned?
  }

  /** The rows with a later attempt. */
  function Later(t: Tables, attempt: int): set<int> {
    set q | q in t.runs && t.runs[q].attempt > attempt
  }

  lemma LaterShrinks(t: Tables, h: int, x: int)
    requires h in t.runs && HoldsNext(t, h, x)
    ensures Later(t, t.runs[x].attempt) < Later(t, t.runs[h].attempt)
  {
    assert t.runs[x].Key().attempt == t.runs[h].Key().attempt + 1;
    assert x in Later(t, t.runs[h].attempt) && x !in Later(t, t.runs[x].attempt);
  }

  /**
   Some continuation ends the row: by itself, or after the row with the key of its retry has ended
   and been deleted, while its owner waits as well.
   */
  ghost predicate Ends(s: System, h: int, waiting: nat)
    requires h in s.db.runs
    decreases Later(s.db, s.db.runs[h].attempt)
  {
    || EndsByItself(s, h, waiting)
    || (HasReturned(s, h)
        && exists x :: HoldsNext(s.db, h, x) && (LaterShrinks(s.db, h, x); Ends(s, x, waiting + 1)))
  }

  ghost predicate CanEnd(s: System, h: int) {
    h in s.db.runs && Ends(s, h, 0)
  }

  /** These workers have returned from earlier attempts, and can wait with their outcome. */
  ghost predicate Wait(s: System, frozen: set<int>, attempt: int) {
    forall w <- frozen :: w in s.workers && s.workers[w].phase.Returned? && s.workers[w].phase.run.attempt < attempt
  }

  /** The owner of the row joins the waiting ones, while another row ends that has the key of its retry. */
  lemma OneMoreWaits(s: System, frozen: set<int>, w: int, h: int, x: int)
    requires Inv(s) && h in s.db.runs && Owns(s, w, h) && s.workers[w].phase.Returned?
    requires Wait(s, frozen, s.db.runs[h].attempt)
    requires HoldsNext(s.db, h, x)
    ensures Wait(s, frozen + {w}, s.db.runs[x].attempt) && |frozen + {w}| == |frozen| + 1
    ensures s.workers[w].phase.run.Key() == s.db.runs[h].Key() && s.db.runs[h].attempt < s.db.runs[x].attempt
  {
    assert WorkerOk(s.db, s.workers[w]);
    assert s.workers[w].phase.run.Key().attempt == s.db.runs[h].Key().attempt;
    assert w !in frozen;
  }

  /** Nobody owns the row or comes for it. */
  ghost predicate Alone(s: System, q: int) {
    !HasOwner(s, q) && !Comes(s, q)
  }

  /**
   Running rows that nobody attends to stay, earlier attempts stay unless
   they are pending or ended, and none begins to run.
   */
  ghost predicate Spared(s: System, u: System, attempt: int) {
    && (forall q <- s.db.runs | s.db.runs[q].status.Running? && Alone(s, q) ::
          q in u.db.runs && u.db.runs[q] == s.db.runs[q])
    && (forall q <- s.db.runs | Lasting(s.db.runs[q]) && s.db.runs[q].attempt < attempt ::
          q in u.db.runs && u.db.runs[q] == s.db.runs[q])
    && (forall q <- u.db.runs | u.db.runs[q].status.Running? :: q in s.db.runs && u.db.runs[q] == s.db.runs[q])
  }

  lemma SparedButOne(s: System, u: System, h: int)
    requires h in s.db.runs && LastingSame(s.db, u.db, h) && Ended(u.db, h)
    requires Alone(s, h) ==> !s.db.runs[h].status.Running?
    ensures Spared(s, u, s.db.runs[h].attempt)
  {}

  lemma EndByItself(s: System, h: int, frozen: set<int>, f: Time) returns (acts: seq<Action>, u: System)
    requires Inv(s) && h in s.db.runs && EndsByItself(s, h, |frozen|) && Wait(s, frozen, s.db.runs[h].attempt)
    ensures Brings(s, acts, u) && Ended(u.db, h) && Spared(s, u, s.db.runs[h].attempt)
    ensures forall w <- frozen :: w in u.workers && u.workers[w] == s.workers[w]
  {
    if Ended(s.db, h) {
      acts, u := [], s;
    } else {
      if Comes(s, h) && CanBeCancelling(s, h) {
        acts, u := EndStopped(s, h, f);
      } else if s.db.runs[h].status.Pending? && |frozen| < s.capacity {
        acts, u := EndPending(s, h, frozen, f);
      } else {
        var w :| Owns(s, w, h) && !Stuck(s.db, s.workers[w].phase);
        OwnerIsNotWaiting(s, frozen, w, h);
        acts, u := EndOwned(s, w, h, f);
      }
      SparedButOne(s, u, h);
    }
  }

  /** The row comes to its end, while these workers wait. */
  lemma {:induction false} EndRow(s: System, h: int, frozen: set<int>, f: Time) returns (acts: seq<Action>, u: System)
    requires Inv(s) && h in s.db.runs && Ends(s, h, |frozen|) && Wait(s, frozen, s.db.runs[h].attempt)
    ensures Brings(s, acts, u) && Ended(u.db, h) && Spared(s, u, s.db.runs[h].attempt)
    ensures forall w <- frozen :: w in u.workers && u.workers[w] == s.workers[w]
    decreases Later(s.db, s.db.runs[h].attempt)
  {
    if EndsByItself(s, h, |frozen|) {
      acts, u := EndByItself(s, h, frozen, f);
    } else {
      var w :| Owns(s, w, h) && s.workers[w].phase.Returned?;
      var x :| HoldsNext(s.db, h, x) && (LaterShrinks(s.db, h, x); Ends(s, x, |frozen| + 1));
      OneMoreWaits(s, frozen, w, h, x);
      LaterShrinks(s.db, h, x);
      var m, n, end;
      acts, m := EndRow(s, x, frozen + {w}, f);
      acts, n := Delete(s, acts, m, x);
      NoLongerStuck(s, m, n, w, h, x);
      end, u := EndOwned(n, w, h, f);
      BringsJoin(s, acts, n, end, u);
      acts := acts + end;
      SparedBoth(s, m, n, u, w, h, x);
    }
  }

  lemma OwnerIsNotWaiting(s: System, frozen: set<int>, w: int, h: int)
    requires Inv(s) && h in s.db.runs && Owns(s, w, h) && Wait(s, frozen, s.db.runs[h].attempt)
    ensures w !in frozen
  {
    assert WorkerOk(s.db, s.workers[w]);
    assert s.workers[w].phase.run.Key().attempt == s.db.runs[h].Key().attempt;
  }

  /** Once the row with the key of the retry has been deleted, the owner that has waited can commit. */
  lemma NoLongerStuck(s: System, m: System, n: System, w: int, h: int, x: int)
    requires Inv(s) && h in s.db.runs && Owns(s, w, h) && !Ended(s.db, h)
    requires HoldsNext(s.db, h, x)
    requires Spared(s, m, s.db.runs[x].attempt) && w in m.workers && m.workers[w] == s.workers[w]
    requires n.workers == m.workers && LastingSame(m.db, n.db, x) && !KeyTaken(n.db, s.db.runs[x].Key())
    ensures Owns(n, w, h) && h in n.db.runs && n.db.runs[h] == s.db.runs[h] && !Stuck(n.db, n.workers[w].phase)
  {
    assert WorkerOk(s.db, s.workers[w]);
    assert s.db.runs[x].Key().attempt == s.db.runs[h].Key().attempt + 1;
    assert Lasting(s.db.runs[h]);
  }

  lemma SparedBoth(s: System, m: System, n: System, u: System, w: int, h: int, x: int)
    requires h in s.db.runs && x in s.db.runs && s.db.runs[h].attempt < s.db.runs[x].attempt && Owns(s, w, h)
    requires Spared(s, m, s.db.runs[x].attempt) && Ended(m.db, x)
    requires LastingSame(m.db, n.db, x) && x !in n.db.runs
    requires LastingSame(n.db, u.db, h) && Ended(u.db, h)
    ensures Spared(s, u, s.db.runs[h].attempt)
  {}

  // ---------- Freeing a key ----------

  /** No row holds the key, or the one that does can end. */
  ghost predicate KeyFrees(s: System, key: RunKey) {
    forall h <- s.db.runs | s.db.runs[h].Key() == key :: CanEnd(s, h)
  }

  /** The key is freed: its holder ends and retention deletes it.  Running rows that nobody attends to stay. */
  lemma FreeKey(s: System, key: RunKey) returns (acts: seq<Action>, u: System)
    requires Inv(s) && KeyFrees(s, key)
    ensures Brings(s, acts, u) && !KeyTaken(u.db, key)
    ensures forall q <- s.db.runs | s.db.runs[q].status.Running? && Alone(s, q) ::
              q in u.db.runs && u.db.runs[q] == s.db.runs[q]
    ensures forall q <- u.db.runs | u.db.runs[q].status.Running? :: q in s.db.runs && u.db.runs[q] == s.db.runs[q]
  {
    if h :| h in s.db.runs && s.db.runs[h].Key() == key {
      var m;
      acts, m := EndRow(s, h, {}, 0);
      acts, u := Delete(s, acts, m, h);
    } else {
      acts, u := [], s;
    }
  }
}
