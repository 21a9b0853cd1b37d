/** What a claim, a cancellation and a deletion write, column by column. */
module RowWrites {
  import opened Model
  import opened Tables
  import opened Transactions
  import opened Lifecycle
  import opened Listings
  import opened RowSteps

  // ---------- A worker before Execute ----------

  /**
   The claim takes a row that is pending and ends one that is cancelling, each with its event. Only
   the first lets the worker go on; any other row, and a transaction that fails, is left as it is.
   */
  lemma ClaimTells(s: System, a: Action)
    requires a.Claim? && Enabled(s, a)
    ensures var me, t, u := s.workers[a.w], s.db, Apply(s, a).db;
            var r, claimed := me.runId, Apply(s, a).workers[a.w].phase;
            && (claimed.Claimed? <==> a.commit && r in t.runs && t.runs[r].status == Pending)
            && (claimed.Claimed? ==> claimed.run == me.phase.run.(startedAt := Some(a.startedAt))
                                     && claimed.job == me.phase.job)
            && (!claimed.Claimed? ==> claimed.Finished?)
            && if a.commit && r in t.runs && t.runs[r].status == Pending then
                 u == t.(runs := t.runs[r := t.runs[r].(status := Running, startedAt := Some(a.startedAt))],
                         events := t.events + [RunEvent(r, RunStarted)])
               else if a.commit && r in t.runs && t.runs[r].status == Cancelling then
                 u == t.(runs := t.runs[r := t.runs[r].(status := Cancelled, finishedAt := Some(a.finishedAt))],
                         events := t.events + [RunEvent(r, RunCancelled)])
               else u == t
  {}

  /** A worker that gives up its claimed row leaves it cancelled, if it is there, with the columns it had loaded. */
  lemma GiveUpTells(s: System, a: Action)
    requires a.CancelBeforeExecute? && Enabled(s, a)
    ensures var me, t, u := s.workers[a.w], s.db, Apply(s, a).db;
            var r, run := me.runId, me.phase.run;
            && Apply(s, a).workers[a.w].phase.Finished?
            && if a.commit && r in t.runs then
                 u == t.(runs := t.runs[r := t.runs[r].(
                           status := Cancelled, startedAt := run.startedAt, finishedAt := Some(a.finishedAt),
                           exitCode := run.exitCode, errorMessage := run.errorMessage)],
                         events := t.events + [RunEvent(r, RunCancelled)])
               else u == t
  {}

  // ---------- CancelRun ----------

  /** The statuses that CancelRun changes: a pending row ends at once, one with a worker waits for it. */
  predicate CancelsTo(status: RunStatus, target: RunStatus) {
    || (status == Pending && target == Cancelled)
    || ((status == Running || status == Cancelling) && target == Cancelling)
  }

  /** The steps of one CancelRun, and the crash that ends it. */
  predicate OfCancel(a: Action, c: int) {
    a.Crash? || ((a.CancelRead? || a.CancelCommit?) && a.c == c)
  }

  lemma {:induction false} CancelStays(s: System, acts: seq<Action>, c: int)
    requires Exec(s, acts).Some? && (forall i | 0 <= i < |acts| :: !OfCancel(acts[i], c)) && c in s.cancels
    ensures c in Exec(s, acts).value.cancels && Exec(s, acts).value.cancels[c] == s.cancels[c]
    decreases |acts|
  {
    if acts != [] {
      CancelKept(s, acts[0], c);
      CancelStays(Apply(s, acts[0]), acts[1..], c);
    }
  }

  lemma CancelKept(s: System, a: Action, c: int)
    requires Enabled(s, a) && !OfCancel(a, c) && c in s.cancels
    ensures c in Apply(s, a).cancels && Apply(s, a).cancels[c] == s.cancels[c]
  {
    if !a.CancelRead? && !a.CancelCommit? {
      CancelsUntouched(s, a);
    }
  }

  /** The row gets the status, and the columns of UpdateStatus as they had been read; nothing else changes. */
  predicate CancelWrites(t: Tables, u: Tables, r: int, read: Run) {
    if r !in t.runs then u == t
    else
      && r in u.runs && CancelsTo(read.status, u.runs[r].status)
      && u == t.(runs := t.runs[r := t.runs[r].(
                   status := u.runs[r].status, startedAt := read.startedAt, finishedAt := read.finishedAt,
                   exitCode := read.exitCode, errorMessage := read.errorMessage)])
  }

  /**
   A CancelRun over its two steps, with anything else between them: it writes exactly when it has read
   a row that is pending, running or cancelling, and then by what it has read, whatever the row is by now.
   */
  lemma CancelSetsStatus(s: System, c: int, r: int, between: seq<Action>)
    requires Enabled(s, CancelRead(c, r))
    requires (forall i | 0 <= i < |between| :: !OfCancel(between[i], c))
    requires Exec(Apply(s, CancelRead(c, r)), between).Some?
    ensures var s1 := Apply(s, CancelRead(c, r));
            && s1.db == s.db
            && (c in s1.cancels <==> r in s.db.runs && s.db.runs[r].status in {Pending, Running, Cancelling})
            && (c in s1.cancels ==>
                  var s2 := Exec(s1, between).value;
                  && Enabled(s2, CancelCommit(c, true))
                  && CancelWrites(s2.db, Apply(s2, CancelCommit(c, true)).db, r, s.db.runs[r]))
  {
    var s1 := Apply(s, CancelRead(c, r));
    if c in s1.cancels {
      CancelStays(s1, between, c);
    }
  }

  /** A CancelRun with nothing in between changes the status only. */
  lemma CancelAtOnceSetsStatus(s: System, r: int)
    ensures var t, u := s.db, Apply(s, CancelAtOnce(r)).db;
            if r in t.runs && t.runs[r].status in {Pending, Running, Cancelling} then
              r in u.runs && CancelsTo(t.runs[r].status, u.runs[r].status)
              && u == t.(runs := t.runs[r := t.runs[r].(status := u.runs[r].status)])
            else u == t
  {}

  // ---------- Deletions ----------

  /** Exactly these rows are gone, with their events; the others have theirs. */
  ghost predicate OnlyGone(t: Tables, u: Tables, gone: set<int>) {
    && (forall r :: r in u.runs <==> r in t.runs && r !in gone)
    && (forall r <- u.runs :: u.runs[r] == t.runs[r])
    && (forall r :: EventsOf(u.events, r) == if r in gone then [] else EventsOf(t.events, r))
    && u.runSeq == t.runSeq && u.jobSeq == t.jobSeq
  }

  /** Removing a job removes its runs and their events. */
  lemma RemoveJobTakes(s: System, j: int)
    ensures var t, u := s.db, Apply(s, RemoveJob(j)).db;
            && u.jobs == t.jobs - {j}
            && OnlyGone(t, u, set r | r in t.runs && t.runs[r].jobId == j)
  {
    var t, u := s.db, Apply(s, RemoveJob(j)).db;
    GoneEvents(t.events, RunsOfJob(t, j));
  }

  /** Retention removes the rows that ended before an instant, as text, and their events. */
  lemma PruneTakes(s: System, before: Time)
    ensures var t, u := s.db, Apply(s, Prune(before)).db;
            && u.jobs == t.jobs
            && OnlyGone(t, u, set r | r in t.runs && HasFinished(t, r, before))
  {
    Pruned(s.db, before);
  }

  lemma Pruned(t: Tables, before: Time)
    ensures OnlyGone(t, PruneTx(t, before), set r | r in t.runs && HasFinished(t, r, before))
  {
    GoneEvents(t.events, PrunableRuns(t, before));
    assert PrunableRuns(t, before) == set r | r in t.runs && HasFinished(t, r, before);
  }

  lemma GoneEvents(events: seq<RunEvent>, gone: set<int>)
    ensures forall r ::
              EventsOf(KeepEvents(events, gone), r) == if r in gone then [] else EventsOf(events, r)
  {
    forall r ensures EventsOf(KeepEvents(events, gone), r) == if r in gone then [] else EventsOf(events, r) {
      if r in gone {
        NoEventsOf(KeepEvents(events, gone), r);
      } else {
        EventsOfKept(events, gone, r);
      }
    }
  }
}
