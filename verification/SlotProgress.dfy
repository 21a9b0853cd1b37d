/** The slots that the due-job loop consumes for one job, over any run of the system. */
module SlotProgress {
  import opened Model
  import opened Tables
  import opened Instants
  import opened Transactions
  import opened Lifecycle
  import opened Invariant
  import opened RowSteps

  /** A slot and the clock reading of the scan that consumed it. */
  datatype Slot = Slot(at: Time, now: Time)

  /** Step a commits the due-job transaction of job j. */
  ghost predicate Consumes(s: System, a: Action, j: int)
    requires Enabled(s, a)
  {
    && a.ScanJob? && a.commit && s.scan.due[0].jobId == j
    && DueResult(s, a.cronNext, a.listed, a.createdAt).Some?
  }

  ghost function Slots(s: System, acts: seq<Action>, j: int): seq<Slot>
    requires Exec(s, acts).Some?
    decreases |acts|
  {
    if acts == [] then []
    else SlotsOf(s, acts[0], j) + Slots(Apply(s, acts[0]), acts[1..], j)
  }

  /** The slot that step a consumes for job j, if it does. */
  ghost function SlotsOf(s: System, a: Action, j: int): seq<Slot>
    requires Enabled(s, a)
  {
    if Consumes(s, a, j) then [SlotOf(s)] else []
  }

  // ---------- One consumed slot ----------

  lemma ConsumedTx(s: System, a: Action, j: int)
    requires Enabled(s, a) && Consumes(s, a, j)
    ensures var e, next := s.scan.due[0], ComputeNextRunAt(s.scan.due[0].job.schedule, s.scan.now, a.cronNext);
            && e.job.nextRunAt.Some? && next.Some?
            && DueTx(s.cfg, s.db, j, e.job, s.scan.now, next.value, a.listed, a.createdAt) == Some(Apply(s, a).db)
  {}

  /**
   A committed due-job transaction inserts exactly one row: attempt 0, at the old next run time;
   and it computes the next run time from the scan's clock reading.
   */
  lemma ConsumedSlot(s: System, a: Action, j: int)
    requires Inv(s) && Enabled(s, a) && Consumes(s, a, j)
    ensures s.scan.due[0].job.nextRunAt.Some?
            && ComputeNextRunAt(s.scan.due[0].job.schedule, s.scan.now, a.cronNext).Some?
    ensures TakesSlot(s.db, Apply(s, a).db, j, s.scan.due[0].job.nextRunAt.value,
                      ComputeNextRunAt(s.scan.due[0].job.schedule, s.scan.now, a.cronNext).value)
  {
    ConsumedTx(s, a, j);
    var e := s.scan.due[0];
    var next := ComputeNextRunAt(e.job.schedule, s.scan.now, a.cronNext).value;
    DueTakesSlot(s.cfg, s.db, j, e.job, s.scan.now, next, a.listed, a.createdAt);
  }

  function ScanRest(scan: Lifecycle.Scan): Lifecycle.Scan
    requires scan.Scan? && scan.due != []
  {
    if |scan.due| == 1 then NoScan else Scan(scan.now, scan.due[1..])
  }

  lemma ScanJobLeaves(s: System, a: Action)
    requires Enabled(s, a) && a.ScanJob?
    ensures Apply(s, a).scan == ScanRest(s.scan)
  {}

  /** The slot is consumed exactly when the job still exists and no row has its key yet. */
  lemma DueCommitsIff(cfg: Config, t: Tables, jobId: int, job: Job, now: Time, next: Time, listed: seq<int>,
                      createdAt: Time)
    requires Schema(t) && RowsOk(t) && job.nextRunAt.Some? && RunningListing(t, jobId, listed)
    ensures DueTx(cfg, t, jobId, job, now, next, listed, createdAt).Some? <==>
            jobId in t.jobs && !KeyTaken(t, RunKey(jobId, job.nextRunAt.value, 0))
  {
    DueReclaimedKeeps(cfg, t, jobId, job, now, listed);
    var t1 := DueReclaimed(cfg, t, job, now, listed);
    var row := DueRow(jobId, job.nextRunAt.value, DueActive(cfg, t, job, now, listed), now, next, createdAt);
    AddRunCommitsIff(t1, row, FirstEvent(row));
    assert forall r <- t.runs :: t1.runs[r].Key() == t.runs[r].Key();
  }

  // ---------- Clocks ----------

  /** What the cron library promises: a whole second after the one it was asked about. */
  predicate CronFollows(schedule: Schedule, from: Time, cronNext: Option<Time>) {
    schedule.Cron? && cronNext.Some? ==> Sec(from) < Sec(cronNext.value)
  }

  lemma NextFollows(schedule: Schedule, from: Time, cronNext: Option<Time>)
    requires CronFollows(schedule, from, cronNext) && ComputeNextRunAt(schedule, from, cronNext).Some?
    ensures Sec(from) < Sec(ComputeNextRunAt(schedule, from, cronNext).value)
  {}

  ghost predicate CronStep(s: System, a: Action) {
    a.ScanJob? && s.scan.Scan? && s.scan.due != [] ==> CronFollows(s.scan.due[0].job.schedule, s.scan.now, a.cronNext)
  }

  /**
   An UpdateJob reads a clock that has not gone back behind the readings of the scans so far.  A scan
   may list the due jobs long after it has read the clock.
   */
  ghost predicate TimedStep(s: System, a: Action, clock: Time) {
    && CronStep(s, a)
    && (a.UpdateClock? ==>
          clock <= a.now && (a.u in s.updates ==> CronFollows(s.updates[a.u].job.schedule, a.now, a.cronNext)))
  }

  function ClockAfter(a: Action, clock: Time): Time {
    if (a.ScanStart? || a.UpdateClock?) && clock < a.now then a.now else clock
  }

  ghost predicate WellTimed(s: System, acts: seq<Action>, clock: Time)
    requires Exec(s, acts).Some?
    decreases |acts|
  {
    acts == [] ||
    (TimedStep(s, acts[0], clock) && WellTimed(Apply(s, acts[0]), acts[1..], ClockAfter(acts[0], clock)))
  }

  // ---------- Slot progress ----------

  ghost predicate ScanOk(s: System) {
    s.scan.Scan? ==>
      && s.scan.due != []
      && (forall i | 0 <= i < |s.scan.due| ::
            s.scan.due[i].job.enabled && s.scan.due[i].job.nextRunAt.Some?
              && TextAtMost(s.scan.due[i].job.nextRunAt.value, s.scan.now))
      && (forall i, k | 0 <= i < k < |s.scan.due| :: s.scan.due[i].jobId != s.scan.due[k].jobId)
  }

  lemma ScanOkStep(s: System, a: Action)
    requires Enabled(s, a) && ScanOk(s)
    ensures ScanOk(Apply(s, a))
  {
    if !a.ScanJob? && !a.ScanStart? {
      ScanUntouched(s, a);
    }
  }

  /** Later than the last slot consumed, if there was one. */
  predicate After(next: Option<Time>, last: Option<Time>) {
    next.Some? && last.Some? ==> last.value < next.value
  }

  /** All that job j can still consume is later than its last slot; ids are not reused. */
  ghost predicate Ahead(s: System, j: int, last: Option<Time>) {
    && ScanOk(s) && (last.Some? ==> 1 <= j <= s.db.jobSeq)
    && (j in s.db.jobs ==> After(s.db.jobs[j].nextRunAt, last))
    && (s.scan.Scan? ==> forall i | 0 <= i < |s.scan.due| && s.scan.due[i].jobId == j ::
        After(s.scan.due[i].job.nextRunAt, last))
  }

  /** The last slot of job j after a step. */
  ghost function LastAfter(s: System, a: Action, j: int, last: Option<Time>): Option<Time>
    requires Enabled(s, a)
  {
    if Consumes(s, a, j) then s.scan.due[0].job.nextRunAt else last
  }

  lemma ConsumeAhead(s: System, a: Action, j: int, last: Option<Time>)
    requires Inv(s) && Enabled(s, a) && Consumes(s, a, j) && Ahead(s, j, last) && CronStep(s, a)
    ensures After(s.scan.due[0].job.nextRunAt, last) && Ahead(Apply(s, a), j, LastAfter(s, a, j, last))
  {
    ConsumedSlot(s, a, j);
    ScanJobLeaves(s, a);
    NextFollows(s.scan.due[0].job.schedule, s.scan.now, a.cronNext);
    TakenAhead(s, Apply(s, a), j, ComputeNextRunAt(s.scan.due[0].job.schedule, s.scan.now, a.cronNext).value, last);
  }

  /** The slot was due at the scan's clock reading, and the next one follows that reading. */
  lemma TakenAhead(s: System, s': System, j: int, next: Time, last: Option<Time>)
    requires Schema(s.db) && Ahead(s, j, last) && s.scan.Scan? && s.scan.due[0].jobId == j
             && Sec(s.scan.now) < Sec(next)
    requires TakesSlot(s.db, s'.db, j, s.scan.due[0].job.nextRunAt.value, next) && s'.scan == ScanRest(s.scan)
    ensures After(s.scan.due[0].job.nextRunAt, last) && Ahead(s', j, s.scan.due[0].job.nextRunAt)
  {}

  lemma OtherScanJob(s: System, a: Action, j: int)
    requires Inv(s) && Enabled(s, a) && a.ScanJob? && !Consumes(s, a, j)
    ensures j in Apply(s, a).db.jobs ==> j in s.db.jobs && Apply(s, a).db.jobs[j] == s.db.jobs[j]
    ensures Apply(s, a).db.jobSeq == s.db.jobSeq
  {
    var e := s.scan.due[0];
    if Consumes(s, a, e.jobId) {
      ConsumedSlot(s, a, e.jobId);
    }
  }

  lemma ScanJobAhead(s: System, a: Action, j: int, last: Option<Time>)
    requires Inv(s) && Enabled(s, a) && a.ScanJob? && !Consumes(s, a, j) && Ahead(s, j, last)
    ensures Ahead(Apply(s, a), j, last)
  {
    OtherScanJob(s, a, j);
  }

  lemma JobServiceAhead(s: System, a: Action, j: int, last: Option<Time>)
    requires Enabled(s, a) && (a.CreateJob? || a.UpdateCommit?) && Ahead(s, j, last)
    requires Replaces(a, j) ==> After(s.updates[a.u].job.nextRunAt, last)
    ensures Ahead(Apply(s, a), j, last)
  {}

  lemma OtherAhead(s: System, a: Action, j: int, last: Option<Time>)
    requires Inv(s) && Enabled(s, a) && !a.ScanJob? && !a.ScanStart? && !a.CreateJob? && !a.UpdateCommit?
             && Ahead(s, j, last)
    ensures Ahead(Apply(s, a), j, last)
  {
    ScanUntouched(s, a);
    JobSeqStays(s, a);
    if j in Apply(s, a).db.jobs {
      JobsAfter(s, a, j);
    }
  }

  lemma ScanUntouched(s: System, a: Action)
    requires Enabled(s, a) && !a.ScanJob? && !a.ScanStart?
    ensures Apply(s, a).scan == s.scan || Apply(s, a).scan == NoScan
  {}

  lemma AheadStep(s: System, a: Action, j: int, last: Option<Time>)
    requires Inv(s) && Enabled(s, a) && Ahead(s, j, last) && CronStep(s, a)
    requires Replaces(a, j) ==> After(s.updates[a.u].job.nextRunAt, last)
    ensures Ahead(Apply(s, a), j, LastAfter(s, a, j, last))
    ensures Consumes(s, a, j) ==> After(s.scan.due[0].job.nextRunAt, last)
  {
    if a.ScanJob? {
      if Consumes(s, a, j) {
        ConsumeAhead(s, a, j, last);
      } else {
        ScanJobAhead(s, a, j, last);
      }
    } else if a.ScanStart? {
    } else if a.CreateJob? || a.UpdateCommit? {
      JobServiceAhead(s, a, j, last);
    } else {
      OtherAhead(s, a, j, last);
    }
  }

  // ---------- Updates that race with a scan ----------

  /** The updates of job j that have read the clock since the last committed scan of j. */
  ghost function CleanAfter(s: System, a: Action, j: int, clean: set<int>): set<int>
    requires Enabled(s, a)
  {
    if Consumes(s, a, j) then {}
    else if a.UpdateClock? then clean + {a.u}
    else if a.UpdateRead? then clean - {a.u}
    else clean
  }

  /**
   The condition on the updates of job j: no scan of j commits between an update's clock reading and
   its write, or else the next run time it writes lies after the last consumed slot.
   */
  ghost predicate Sound(s: System, acts: seq<Action>, j: int, last: Option<Time>, clean: set<int>)
    requires Exec(s, acts).Some?
    decreases |acts|
  {
    acts == [] ||
    (var a := acts[0];
     && (Replaces(a, j) ==> a.u in clean || After(s.updates[a.u].job.nextRunAt, last))
     && Sound(Apply(s, a), acts[1..], j, LastAfter(s, a, j, last), CleanAfter(s, a, j, clean)))
  }

  /** What a clean update would write is later than the last slot, because its clock reading is no earlier. */
  ghost predicate CleanOk(s: System, j: int, last: Option<Time>, clean: set<int>, clock: Time) {
    && (last.Some? ==> Sec(last.value) <= Sec(clock))
    && (s.scan.Scan? ==> s.scan.now <= clock)
    && (forall u | u in clean && u in s.updates && s.updates[u].timed && s.updates[u].jobId == j ::
        After(s.updates[u].job.nextRunAt, last))
  }

  /** Only its own steps change an UpdateJob in flight. */
  lemma UpdatesKept(s: System, a: Action, u: int)
    requires Enabled(s, a) && u in Apply(s, a).updates
    ensures (u in s.updates && Apply(s, a).updates[u] == s.updates[u])
            || ((a.UpdateRead? || a.UpdateClock?) && a.u == u)
  {}

  lemma ClockedUpdate(s: System, a: Action, j: int, last: Option<Time>, clock: Time)
    requires Enabled(s, a) && a.UpdateClock? && TimedStep(s, a, clock) && (last.Some? ==> Sec(last.value) <= Sec(clock))
    ensures a.u in Apply(s, a).updates ==> After(Apply(s, a).updates[a.u].job.nextRunAt, last)
  {
    var call := s.updates[a.u];
    if ComputeNextRunAt(call.job.schedule, a.now, a.cronNext).Some? {
      NextFollows(call.job.schedule, a.now, a.cronNext);
    }
  }

  lemma CleanStep(s: System, a: Action, j: int, last: Option<Time>, clean: set<int>, clock: Time)
    requires Enabled(s, a) && ScanOk(s) && CleanOk(s, j, last, clean, clock) && TimedStep(s, a, clock)
    ensures CleanOk(Apply(s, a), j, LastAfter(s, a, j, last), CleanAfter(s, a, j, clean), ClockAfter(a, clock))
  {
    var s' := Apply(s, a);
    if !a.ScanJob? && !a.ScanStart? {
      ScanUntouched(s, a);
    }
    forall u | u in CleanAfter(s, a, j, clean) && u in s'.updates && s'.updates[u].timed && s'.updates[u].jobId == j
      ensures After(s'.updates[u].job.nextRunAt, last)
    {
      UpdatesKept(s, a, u);
      if a.UpdateClock? && a.u == u {
        ClockedUpdate(s, a, j, last, clock);
      }
    }
  }

  // ---------- Main result ----------

  /** The slot of the first due entry, when step a consumes it. */
  ghost function SlotOf(s: System): Slot
    requires s.scan.Scan? && s.scan.due != [] && s.scan.due[0].job.nextRunAt.Some?
  {
    Slot(s.scan.due[0].job.nextRunAt.value, s.scan.now)
  }

  lemma SlotsUnfold(s: System, acts: seq<Action>, j: int)
    requires acts != [] && Exec(s, acts).Some?
    ensures Slots(s, acts, j) ==
            SlotsOf(s, acts[0], j) + Slots(Apply(s, acts[0]), acts[1..], j)
  {}

  /** Ever later slots, the first after last. */
  ghost predicate Increasing(last: Option<Time>, slots: seq<Slot>)
    decreases |slots|
  {
    slots == [] || (After(Some(slots[0].at), last) && Increasing(Some(slots[0].at), slots[1..]))
  }

  lemma IncreasingCons(last: Option<Time>, slot: Slot, rest: seq<Slot>)
    requires After(Some(slot.at), last) && Increasing(Some(slot.at), rest)
    ensures Increasing(last, [slot] + rest)
  {
    assert ([slot] + rest)[1..] == rest;
  }

  lemma {:induction false} IncreasingPairs(last: Option<Time>, slots: seq<Slot>, i: nat, k: nat)
    requires Increasing(last, slots) && i < k < |slots|
    ensures slots[i].at < slots[k].at
    decreases |slots|
  {
    if i > 0 {
      IncreasingPairs(Some(slots[0].at), slots[1..], i - 1, k - 1);
    } else if k > 1 {
      IncreasingPairs(Some(slots[0].at), slots[1..], 0, k - 1);
    }
  }

  lemma IncreasingStep(s: System, a: Action, j: int, last: Option<Time>, slots: seq<Slot>, rest: seq<Slot>)
    requires Enabled(s, a) && slots == SlotsOf(s, a, j) + rest && Increasing(LastAfter(s, a, j, last), rest)
    requires Consumes(s, a, j) ==> After(s.scan.due[0].job.nextRunAt, last)
    ensures Increasing(last, slots)
  {
    if Consumes(s, a, j) {
      IncreasingCons(last, SlotOf(s), rest);
    } else {
      assert slots == rest;
    }
  }

  /**
   However scans, the steps of job updates and all other steps interleave, the slots of a job
   strictly increase, even though ListDue compares texts: as long as its updates are sound.
   */
  lemma {:induction false} SlotsIncrease(s: System, acts: seq<Action>, j: int, last: Option<Time>, clean: set<int>,
                                         clock: Time)
    requires Inv(s) && Exec(s, acts).Some? && WellTimed(s, acts, clock) && Sound(s, acts, j, last, clean)
    requires Ahead(s, j, last) && CleanOk(s, j, last, clean, clock)
    ensures Increasing(last, Slots(s, acts, j))
    decreases |acts|
  {
    if acts != [] {
      var a := acts[0];
      InvStep(s, a);
      AheadStep(s, a, j, last);
      CleanStep(s, a, j, last, clean, clock);
      SlotsIncrease(Apply(s, a), acts[1..], j, LastAfter(s, a, j, last), CleanAfter(s, a, j, clean),
                    ClockAfter(a, clock));
      SlotsUnfold(s, acts, j);
      IncreasingStep(s, a, j, last, Slots(s, acts, j), Slots(Apply(s, a), acts[1..], j));
    }
  }

  /** From the empty database, the slots of every job strictly increase while its updates are sound. */
  lemma SlotsIncreaseFromInit(s: System, acts: seq<Action>, j: int, clock: Time, i: nat, k: nat)
    requires Init(s) && Exec(s, acts).Some? && WellTimed(s, acts, clock) && Sound(s, acts, j, None, {})
    requires i < k < |Slots(s, acts, j)|
    ensures Slots(s, acts, j)[i].at < Slots(s, acts, j)[k].at
  {
    SlotsIncrease(s, acts, j, None, {}, clock);
    IncreasingPairs(None, Slots(s, acts, j), i, k);
  }

  // ---------- Spacing, for an interval job that is not replaced ----------

  /** The next slot of job j is t, for the table and for a scan in flight alike. */
  ghost predicate NextIs(s: System, j: int, sec: int, t: Time) {
    && 1 <= j <= s.db.jobSeq && sec > 0
    && (j in s.db.jobs ==> s.db.jobs[j].schedule == Interval(Some(sec)) && s.db.jobs[j].nextRunAt == Some(t))
    && (s.scan.Scan? ==> forall i | 0 <= i < |s.scan.due| && s.scan.due[i].jobId == j ::
                           s.scan.due[i].job.schedule == Interval(Some(sec)) && s.scan.due[i].job.nextRunAt == Some(t))
  }

  ghost function NextAfter(s: System, a: Action, j: int, sec: int, t: Time): Time
    requires Enabled(s, a)
  {
    if Consumes(s, a, j) then s.scan.now + sec * SECOND else t
  }

  lemma ConsumeNext(s: System, a: Action, j: int, sec: int, t: Time)
    requires Inv(s) && Enabled(s, a) && Consumes(s, a, j) && NextIs(s, j, sec, t) && ScanOk(s)
    ensures NextIs(Apply(s, a), j, sec, s.scan.now + sec * SECOND)
    ensures s.scan.due[0].job.nextRunAt == Some(t)
  {
    ConsumedSlot(s, a, j);
    ScanJobLeaves(s, a);
    TakenNext(s, Apply(s, a), j, sec, t);
  }

  lemma TakenNext(s: System, s': System, j: int, sec: int, t: Time)
    requires Schema(s.db) && NextIs(s, j, sec, t) && ScanOk(s) && s.scan.Scan? && s.scan.due[0].jobId == j
    requires TakesSlot(s.db, s'.db, j, t, s.scan.now + sec * SECOND) && s'.scan == ScanRest(s.scan)
    ensures NextIs(s', j, sec, s.scan.now + sec * SECOND)
  {}

  lemma NextStep(s: System, a: Action, j: int, sec: int, t: Time)
    requires Inv(s) && Enabled(s, a) && NextIs(s, j, sec, t) && ScanOk(s)
    requires !Replaces(a, j)
    ensures NextIs(Apply(s, a), j, sec, NextAfter(s, a, j, sec, t))
    ensures Consumes(s, a, j) ==> s.scan.due[0].job.nextRunAt == Some(t)
  {
    if Consumes(s, a, j) {
      ConsumeNext(s, a, j, sec, t);
    } else if a.ScanJob? {
      OtherScanNext(s, a, j, sec, t);
    } else if a.ScanStart? || a.CreateJob? || a.UpdateCommit? {
      ServiceNext(s, a, j, sec, t);
    } else {
      OtherNext(s, a, j, sec, t);
    }
  }

  lemma OtherScanNext(s: System, a: Action, j: int, sec: int, t: Time)
    requires Inv(s) && Enabled(s, a) && a.ScanJob? && !Consumes(s, a, j) && NextIs(s, j, sec, t)
    ensures NextIs(Apply(s, a), j, sec, t)
  {
    OtherScanJob(s, a, j);
    ScanJobLeaves(s, a);
  }

  lemma ServiceNext(s: System, a: Action, j: int, sec: int, t: Time)
    requires Inv(s) && Enabled(s, a) && NextIs(s, j, sec, t) && !Replaces(a, j)
    requires a.ScanStart? || a.CreateJob? || a.UpdateCommit?
    ensures NextIs(Apply(s, a), j, sec, t)
  {}

  lemma OtherNext(s: System, a: Action, j: int, sec: int, t: Time)
    requires Inv(s) && Enabled(s, a) && NextIs(s, j, sec, t)
    requires !a.ScanJob? && !a.ScanStart? && !a.CreateJob? && !a.UpdateCommit?
    ensures NextIs(Apply(s, a), j, sec, t)
  {
    ScanUntouched(s, a);
    JobSeqStays(s, a);
    if j in Apply(s, a).db.jobs {
      JobsAfter(s, a, j);
    }
  }

  /**
   Each slot is exactly one interval after the clock reading of the scan that consumed the slot before:
   no catch-up.
   */
  ghost predicate Spaced(t: Time, interval: Time, slots: seq<Slot>)
    decreases |slots|
  {
    slots == [] ||
    (slots[0].at == t && Sec(slots[0].at) <= Sec(slots[0].now) && Spaced(slots[0].now + interval, interval, slots[1..]))
  }

  lemma SpacedCons(t: Time, interval: Time, slot: Slot, rest: seq<Slot>)
    requires slot.at == t && Sec(slot.at) <= Sec(slot.now) && Spaced(slot.now + interval, interval, rest)
    ensures Spaced(t, interval, [slot] + rest)
  {
    assert ([slot] + rest)[1..] == rest;
  }

  lemma SpacedStep(s: System, a: Action, j: int, sec: int, t: Time, slots: seq<Slot>, rest: seq<Slot>)
    requires Inv(s) && Enabled(s, a) && NextIs(s, j, sec, t) && ScanOk(s) && !Replaces(a, j)
    requires slots == SlotsOf(s, a, j) + rest && Spaced(NextAfter(s, a, j, sec, t), sec * SECOND, rest)
    ensures Spaced(t, sec * SECOND, slots)
  {
    NextStep(s, a, j, sec, t);
    if Consumes(s, a, j) {
      SpacedCons(t, sec * SECOND, SlotOf(s), rest);
    } else {
      assert slots == rest;
    }
  }

  lemma {:induction false} SlotsAreSpaced(s: System, acts: seq<Action>, j: int, sec: int, t: Time)
    requires Inv(s) && Exec(s, acts).Some? && NextIs(s, j, sec, t) && ScanOk(s)
    requires forall i | 0 <= i < |acts| :: !Replaces(acts[i], j)
    ensures Spaced(t, sec * SECOND, Slots(s, acts, j))
    decreases |acts|
  {
    if acts != [] {
      var a := acts[0];
      InvStep(s, a);
      NextStep(s, a, j, sec, t);
      ScanOkStep(s, a);
      SlotsAreSpaced(Apply(s, a), acts[1..], j, sec, NextAfter(s, a, j, sec, t));
      SlotsUnfold(s, acts, j);
      SpacedStep(s, a, j, sec, t, Slots(s, acts, j), Slots(Apply(s, a), acts[1..], j));
    }
  }

  /** The due slots were due by the clock, not only by text. */
  ghost predicate ExactlyDue(slots: seq<Slot>) {
    forall i | 0 <= i < |slots| :: slots[i].at <= slots[i].now
  }

  /**
   Slots i and k of a job are at least k - i intervals apart, up to one
   second each where only the texts were in order.
   */
  lemma {:induction false} SpacedApart(t: Time, interval: Time, slots: seq<Slot>, i: nat, k: nat)
    requires Spaced(t, interval, slots) && i <= k < |slots|
    ensures ExactlyDue(slots) ==> (k - i) * interval <= slots[k].at - slots[i].at
    ensures (k - i) * (interval - SECOND) <= slots[k].at - slots[i].at
    decreases |slots|
  {
    assert ExactlyDue(slots) && slots != [] ==> ExactlyDue(slots[1..]);
    if i > 0 {
      SpacedApart(slots[0].now + interval, interval, slots[1..], i - 1, k - 1);
    } else if k > 0 {
      SpacedApart(slots[0].now + interval, interval, slots[1..], 0, k - 1);
      assert slots[1].at == slots[0].now + interval;
      OneMore(k, interval);
      OneMore(k, interval - SECOND);
    }
  }

  lemma OneMore(k: nat, d: int)
    ensures k * d == (k - 1) * d + d
  {}

  /** A window holds at most width / interval + 1 slots: missed slots are not caught up. */
  lemma NoCatchUp(s: System, acts: seq<Action>, j: int, sec: int, t: Time, i: nat, k: nat, width: int)
    requires Inv(s) && Exec(s, acts).Some? && NextIs(s, j, sec, t) && ScanOk(s)
    requires forall n | 0 <= n < |acts| :: !Replaces(acts[n], j)
    requires i <= k < |Slots(s, acts, j)| && ExactlyDue(Slots(s, acts, j))
    requires Slots(s, acts, j)[k].at - Slots(s, acts, j)[i].at <= width
    ensures (k - i) * (sec * SECOND) <= width
  {
    SlotsAreSpaced(s, acts, j, sec, t);
    SpacedApart(t, sec * SECOND, Slots(s, acts, j), i, k);
  }
}
