/** How a forbid job gets past a run that hangs. */
module ForbidRecovery {
  import opened Model
  import opened Tables
  import opened Transactions
  import opened Lifecycle
  import opened Invariant
  import opened RowSteps
  import opened SlotProgress
  import opened Timing

  predicate IsRunning(t: Tables, r: int) {
    r in t.runs && t.runs[r].status.Running?
  }

  // ---------- Who is reclaimed, who is skipped ----------

  lemma ReclaimChange(s: System, a: Action, r: int, before: View, after: View)
    requires RowChange(s, a, r, before, after) && a.ScanJob? && after != before
    requires before.row.startedAt.Some? && before.row.startedAt.value != ZERO_TIME
    ensures s.scan.Scan? && s.scan.due != []
    ensures var timeout := EffectiveTimeout(s.cfg, s.scan.due[0].job.timeoutSec);
            timeout > 0 && timeout * SECOND <= s.scan.now - before.row.startedAt.value
  {}

  /**
   The due-job loop touches only running rows that have run for the whole time they may take, which
   is what the job asks for where that is within the maximum.
   */
  lemma NoYoungRowReclaimed(s: System, a: Action, r: int, seconds: int)
    requires Inv(s) && Enabled(s, a) && a.ScanJob? && r in s.db.runs && Apply(s, a).db.runs.Keys >= s.db.runs.Keys
    requires Apply(s, a).db.runs[r] != s.db.runs[r]
    requires s.db.runs[r].startedAt.Some? && s.db.runs[r].startedAt.value != ZERO_TIME
    requires MayTake(s.cfg, s.scan.due[0].job.timeoutSec, seconds)
    ensures seconds > 0 && seconds * SECOND <= s.scan.now - s.db.runs[r].startedAt.value
    ensures var timeoutSec := s.scan.due[0].job.timeoutSec;
            0 < timeoutSec <= s.cfg.maxTimeoutSec ==> timeoutSec * SECOND <= s.scan.now - s.db.runs[r].startedAt.value
  {
    RowStep(s, a, r);
    ReclaimChange(s, a, r, ViewOf(s.db, r), ViewOf(Apply(s, a).db, r));
  }

  lemma {:induction false} ActiveMembers(cfg: Config, t: Tables, listed: seq<int>, now: Time, timeoutSec: int, r: int)
    ensures r in Active(cfg, t, listed, now, timeoutSec)
            <==> r in listed && r in t.runs && !Stale(cfg, t.runs[r], now, timeoutSec)
  {
    if listed != [] {
      var most, id := listed[..|listed| - 1], listed[|listed| - 1];
      assert listed == most + [id];
      ActiveMembers(cfg, t, most, now, timeoutSec, r);
    }
  }

  /** A forbid slot is skipped exactly when some listed running row has not yet taken all the time it may. */
  lemma SkippedIff(cfg: Config, t: Tables, jobId: int, job: Job, now: Time, next: Time, listed: seq<int>,
                   createdAt: Time, seconds: int)
    requires job.policy.Forbid? && job.nextRunAt.Some? && RunningListing(t, jobId, listed)
    requires MayTake(cfg, job.timeoutSec, seconds)
    requires Schema(t) && RowsOk(t) && DueTx(cfg, t, jobId, job, now, next, listed, createdAt).Some?
    ensures var u := DueTx(cfg, t, jobId, job, now, next, listed, createdAt).value;
            && t.runSeq + 1 in u.runs
            && u.runs[t.runSeq + 1].status ==
               if exists r :: r in listed && !Overdue(t.runs[r], now, seconds) then Skipped else Pending
  {
    DueEffect(cfg, t, jobId, job, now, next, listed, createdAt);
    DueReclaimedKeeps(cfg, t, jobId, job, now, listed);
    var active := Active(cfg, t, listed, now, job.timeoutSec);
    assert forall i | 0 <= i < |listed| :: IsRunningOf(t, jobId, listed[i]);
    forall r ensures r in active <==> r in listed && !Overdue(t.runs[r], now, seconds) {
      ActiveMembers(cfg, t, listed, now, job.timeoutSec, r);
      if r in listed {
        OverdueIs(cfg, t.runs[r], now, job.timeoutSec, seconds);
      }
    }
    if active != [] {
      assert active[0] in active;
    }
  }

  // ---------- A run that stays running ----------

  lemma RunningChange(s: System, a: Action, r: int, before: View, after: View)
    requires RowChange(s, a, r, before, after)
    requires forall c <- s.cancels :: !s.cancels[c].target.Running?
    requires after.row.status.Running? && !before.row.status.Pending?
    ensures after == before
  {}

  lemma NoRunningTarget(s: System)
    requires Inv(s)
    ensures forall c <- s.cancels :: !s.cancels[c].target.Running?
  {
    assert forall c <- s.cancels :: CancelOk(s.db, s.cancels[c]);
  }

  lemma StillRunningStep(s: System, a: Action, r: int)
    requires Inv(s) && Enabled(s, a) && r <= s.db.runSeq && (r in s.db.runs ==> !s.db.runs[r].status.Pending?)
    requires IsRunning(Apply(s, a).db, r)
    ensures r in s.db.runs && Apply(s, a).db.runs[r] == s.db.runs[r]
  {
    InvStep(s, a);
    NoRunningTarget(s);
    RowStep(s, a, r);
    RunningChange(s, a, r, ViewOf(s.db, r), ViewOf(Apply(s, a).db, r));
  }

  /** A row that is running at the end was running, unchanged, all the time since it was claimed. */
  lemma {:induction false} RunningAllAlong(s: System, acts: seq<Action>, r: int)
    requires Inv(s) && Exec(s, acts).Some? && r <= s.db.runSeq && (r in s.db.runs ==> !s.db.runs[r].status.Pending?)
    requires IsRunning(Exec(s, acts).value.db, r)
    ensures IsRunning(s.db, r) && Exec(s, acts).value.db.runs[r] == s.db.runs[r]
    decreases |acts|
  {
    if acts != [] {
      InvStep(s, acts[0]);
      RunningAllAlong(Apply(s, acts[0]), acts[1..], r);
      StillRunningStep(s, acts[0], r);
    }
  }

  /** Job j is a forbid job with this timeout, in its row and in a scan in flight. */
  ghost predicate Governs(s: System, j: int, policy: Policy, timeoutSec: int) {
    && 1 <= j <= s.db.jobSeq
    && (j in s.db.jobs ==> s.db.jobs[j].policy == policy && s.db.jobs[j].timeoutSec == timeoutSec)
    && (s.scan.Scan? ==> forall i | 0 <= i < |s.scan.due| && s.scan.due[i].jobId == j ::
                           s.scan.due[i].job.policy == policy && s.scan.due[i].job.timeoutSec == timeoutSec)
  }

  lemma ConsumeGoverns(s: System, a: Action, j: int, policy: Policy, timeoutSec: int)
    requires Inv(s) && Enabled(s, a) && Governs(s, j, policy, timeoutSec) && Consumes(s, a, j)
    ensures Governs(Apply(s, a), j, policy, timeoutSec)
  {
    ConsumedSlot(s, a, j);
  }

  lemma GovernsStep(s: System, a: Action, j: int, policy: Policy, timeoutSec: int)
    requires Inv(s) && Enabled(s, a) && Governs(s, j, policy, timeoutSec) && !Replaces(a, j)
    ensures Governs(Apply(s, a), j, policy, timeoutSec)
  {
    if a.ScanJob? {
      if Consumes(s, a, j) {
        ConsumeGoverns(s, a, j, policy, timeoutSec);
      } else {
        OtherScanJob(s, a, j);
      }
    } else if !a.ScanStart? && !a.CreateJob? && !a.UpdateCommit? {
      OtherGoverns(s, a, j, policy, timeoutSec);
    }
  }

  lemma OtherGoverns(s: System, a: Action, j: int, policy: Policy, timeoutSec: int)
    requires Inv(s) && Enabled(s, a) && Governs(s, j, policy, timeoutSec)
    requires !a.ScanJob? && !a.ScanStart? && !a.CreateJob? && !a.UpdateCommit?
    ensures Governs(Apply(s, a), j, policy, timeoutSec)
  {
    ScanUntouched(s, a);
    JobSeqStays(s, a);
    if j in Apply(s, a).db.jobs {
      JobsAfter(s, a, j);
    }
  }

  /** Every page of running rows that the loop reads for job j while row r is running holds r. */
  ghost predicate PagesHold(s: System, acts: seq<Action>, j: int, r: int)
    requires Exec(s, acts).Some?
    decreases |acts|
  {
    acts == [] ||
    ((Consumes(s, acts[0], j) && IsRunning(s.db, r) ==> r in acts[0].listed)
     && PagesHold(Apply(s, acts[0]), acts[1..], j, r))
  }

  function RunningRows(t: Tables, j: int): set<int> {
    set q | q in t.runs && IsRunningOf(t, j, q)
  }

  /** Whenever the loop comes to job j, no more than a page of its rows are running. */
  ghost predicate FewRunning(s: System, acts: seq<Action>, j: int)
    requires Exec(s, acts).Some?
    decreases |acts|
  {
    acts == [] ||
    ((Consumes(s, acts[0], j) ==> |RunningRows(s.db, j)| <= RUNNING_PAGE)
     && FewRunning(Apply(s, acts[0]), acts[1..], j))
  }

  /** A page holds every running row of the job when there are no more of them than fit. */
  lemma SmallPagesHold(t: Tables, j: int, listed: seq<int>, r: int)
    requires RunningListing(t, j, listed) && IsRunningOf(t, j, r) && |RunningRows(t, j)| <= RUNNING_PAGE
    ensures r in listed
  {
    if r !in listed {
      var members := set i | 0 <= i < |listed| :: listed[i];
      forall i, k | 0 <= i < k < |listed| ensures listed[i] != listed[k] {
        assert RunOrder(t, listed[k], listed[i]);
      }
      DistinctCount(listed, |listed|);
      assert forall i | 0 <= i < |listed| :: IsRunningOf(t, j, listed[i]);
      assert members < RunningRows(t, j) by { assert r in RunningRows(t, j) && r !in members; }
      SubsetSize(members, RunningRows(t, j));
      assert false;
    }
  }

  lemma {:induction false} FewRunningPagesHold(s: System, acts: seq<Action>, j: int, r: int)
    requires Inv(s) && Exec(s, acts).Some? && FewRunning(s, acts, j)
    requires r <= s.db.runSeq && (r in s.db.runs ==> !s.db.runs[r].status.Pending?)
    requires IsRunning(s.db, r) ==> s.db.runs[r].jobId == j
    ensures PagesHold(s, acts, j, r)
    decreases |acts|
  {
    if acts != [] {
      var a, s' := acts[0], Apply(s, acts[0]);
      InvStep(s, a);
      if IsRunning(s'.db, r) {
        StillRunningStep(s, a, r);
      }
      FewRunningPagesHold(s', acts[1..], j, r);
      if Consumes(s, a, j) && IsRunning(s.db, r) {
        SmallPagesHold(s.db, j, a.listed, r);
      }
    }
  }

  lemma SubsetSize<T>(a: set<T>, b: set<T>)
    requires a < b
    ensures |a| < |b|
  {
    assert b == a + (b - a);
  }

  lemma {:induction false} DistinctCount(ids: seq<int>, n: nat)
    requires n <= |ids| && forall i, k | 0 <= i < k < |ids| :: ids[i] != ids[k]
    ensures |set i | 0 <= i < n :: ids[i]| == n
  {
    var members := set i | 0 <= i < n :: ids[i];
    if n > 0 {
      var most := set i | 0 <= i < n - 1 :: ids[i];
      DistinctCount(ids, n - 1);
      assert members == most + {ids[n - 1]};
    } else {
      assert members == {};
    }
  }

  /** The slots that pass while row r stays running are passed before its timeout is over. */
  lemma BlockedSlot(s: System, a: Action, j: int, r: int, timeoutSec: int)
    requires Inv(s) && Enabled(s, a) && Governs(s, j, Forbid, timeoutSec) && Consumes(s, a, j) && r in a.listed
    requires IsRunning(s.db, r) && IsRunning(Apply(s, a).db, r)
    requires EffectiveTimeout(s.cfg, timeoutSec) > 0
    requires s.db.runs[r].startedAt.Some? && s.db.runs[r].startedAt.value != ZERO_TIME
    ensures s.scan.now - s.db.runs[r].startedAt.value < EffectiveTimeout(s.cfg, timeoutSec) * SECOND
  {
    ConsumedTx(s, a, j);
    var e := s.scan.due[0];
    var next := ComputeNextRunAt(e.job.schedule, s.scan.now, a.cronNext).value;
    DueKeeps(s.cfg, s.db, j, e.job, s.scan.now, next, a.listed, a.createdAt);
  }

  ghost predicate AllBefore(slots: seq<Slot>, limit: Time) {
    forall i | 0 <= i < |slots| :: slots[i].now < limit
  }

  lemma {:induction false} BlockedSlots(s: System, acts: seq<Action>, j: int, r: int, timeoutSec: int)
    requires Inv(s) && Exec(s, acts).Some? && Governs(s, j, Forbid, timeoutSec) && PagesHold(s, acts, j, r)
    requires forall i | 0 <= i < |acts| :: !Replaces(acts[i], j)
    requires IsRunning(s.db, r) && IsRunning(Exec(s, acts).value.db, r)
    requires EffectiveTimeout(s.cfg, timeoutSec) > 0
    requires s.db.runs[r].startedAt.Some? && s.db.runs[r].startedAt.value != ZERO_TIME
    ensures AllBefore(Slots(s, acts, j), s.db.runs[r].startedAt.value + EffectiveTimeout(s.cfg, timeoutSec) * SECOND)
    decreases |acts|
  {
    if acts != [] {
      var a, s' := acts[0], Apply(s, acts[0]);
      InvStep(s, a);
      RunningAllAlong(s', acts[1..], r);
      StillRunningStep(s, a, r);
      GovernsStep(s, a, j, Forbid, timeoutSec);
      ConfigStays(s, a);
      BlockedSlots(s', acts[1..], j, r, timeoutSec);
      SlotsUnfold(s, acts, j);
      BlockedFirst(s, a, j, r, timeoutSec, Slots(s', acts[1..], j));
    }
  }

  lemma BlockedFirst(s: System, a: Action, j: int, r: int, timeoutSec: int, rest: seq<Slot>)
    requires Inv(s) && Enabled(s, a) && Governs(s, j, Forbid, timeoutSec) && EffectiveTimeout(s.cfg, timeoutSec) > 0
    requires Consumes(s, a, j) ==> r in a.listed
    requires IsRunning(s.db, r) && IsRunning(Apply(s, a).db, r)
    requires s.db.runs[r].startedAt.Some? && s.db.runs[r].startedAt.value != ZERO_TIME
    requires AllBefore(rest, s.db.runs[r].startedAt.value + EffectiveTimeout(s.cfg, timeoutSec) * SECOND)
    ensures AllBefore(SlotsOf(s, a, j) + rest,
                      s.db.runs[r].startedAt.value + EffectiveTimeout(s.cfg, timeoutSec) * SECOND)
  {
    if Consumes(s, a, j) {
      BlockedSlot(s, a, j, r, timeoutSec);
    }
  }

  lemma {:induction false} ScansApart(t: Time, interval: Time, slots: seq<Slot>, k: nat)
    requires Spaced(t, interval, slots) && ExactlyDue(slots) && k < |slots|
    ensures k * interval <= slots[k].now - slots[0].now
    decreases |slots|
  {
    if k > 0 {
      ScansApart(slots[0].now + interval, interval, slots[1..], k - 1);
      assert slots[1].at == slots[0].now + interval <= slots[1].now;
      OneMore(k, interval);
    }
  }

  /**
   Recovery under forbid.  Take an interval job whose slots come due by the clock and of which at
   most 100 rows are running whenever the loop comes to it.  While one row stays running, the slots
   that pass after its start number at most ceil(timeout / interval): with one more, the row has been
   closed.
   */
  lemma HungRunIsClosed(s: System, acts: seq<Action>, j: int, r: int, sec: int, timeoutSec: int, seconds: int, t: Time)
    requires Inv(s) && Exec(s, acts).Some? && ScanOk(s)
    requires NextIs(s, j, sec, t) && Governs(s, j, Forbid, timeoutSec) && FewRunning(s, acts, j)
    requires forall i | 0 <= i < |acts| :: !Replaces(acts[i], j)
    requires IsRunningOf(s.db, j, r) && s.db.runs[r].startedAt.Some? && s.db.runs[r].startedAt.value != ZERO_TIME
    requires MayTake(s.cfg, timeoutSec, seconds) && seconds > 0
    requires var slots := Slots(s, acts, j);
             slots != [] && ExactlyDue(slots) && s.db.runs[r].startedAt.value <= slots[0].now
             && seconds <= (|slots| - 1) * sec
    ensures !IsRunning(Exec(s, acts).value.db, r)
  {
    TimeoutIs(s.cfg, timeoutSec);
    var slots := Slots(s, acts, j);
    SlotsAreSpaced(s, acts, j, sec, t);
    ScansApart(t, sec * SECOND, slots, |slots| - 1);
    Scale(|slots| - 1, sec);
    if IsRunning(Exec(s, acts).value.db, r) {
      FewRunningPagesHold(s, acts, j, r);
      BlockedSlots(s, acts, j, r, timeoutSec);
    }
  }

  lemma Scale(n: int, sec: int)
    ensures n * (sec * SECOND) == (n * sec) * SECOND
  {}
}
