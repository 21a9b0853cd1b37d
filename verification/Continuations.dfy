/** Whether a job can still get a slot: what the due-job loop can do from a given state, and what it never will. */
module Continuations {
  import opened Model
  import opened Tables
  import opened Instants
  import opened Transactions
  import opened Lifecycle
  import opened Invariant
  import opened RowSteps
  import opened TerminalStability
  import opened SlotProgress
  import opened Listings
  import opened Paths
  import opened Holders
  import opened DeadRows

  // ---------- Joining runs ----------

  predicate ScanOnly(acts: seq<Action>) {
    forall i | 0 <= i < |acts| :: acts[i].ScanStart? || acts[i].ScanJob? || acts[i].Crash?
  }

  ghost predicate CronSteps(s: System, acts: seq<Action>)
    requires Exec(s, acts).Some?
    decreases |acts|
  {
    acts == [] || (CronStep(s, acts[0]) && CronSteps(Apply(s, acts[0]), acts[1..]))
  }

  /** The actions lead from s to u by scans and crashes, and job j consumes these slots on the way. */
  ghost predicate Leads(s: System, acts: seq<Action>, u: System, j: int, slots: seq<Slot>) {
    ScanOnly(acts) && Exec(s, acts) == Some(u) && CronSteps(s, acts) && Slots(s, acts, j) == slots
  }

  lemma LeadsOne(s: System, a: Action, j: int)
    requires Enabled(s, a) && ScanOnly([a]) && CronStep(s, a)
    ensures Leads(s, [a], Apply(s, a), j, SlotsOf(s, a, j))
  {
    var acts := [a];
    assert acts[1..] == [];
    assert Exec(Apply(s, a), []) == Some(Apply(s, a)) && Slots(Apply(s, a), [], j) == [];
    assert Exec(s, acts) == Exec(Apply(s, a), acts[1..]);
    assert SlotsOf(s, a, j) + [] == SlotsOf(s, a, j);
  }

  lemma {:induction false} SlotsSplit(s: System, a: seq<Action>, b: seq<Action>, j: int)
    requires Exec(s, a).Some? && Exec(Exec(s, a).value, b).Some? && Exec(s, a + b).Some?
    ensures Slots(s, a + b, j) == Slots(s, a, j) + Slots(Exec(s, a).value, b, j)
    decreases |a|
  {
    if a == [] {
      assert a + b == b;
    } else {
      var s' := Apply(s, a[0]);
      assert (a + b)[1..] == a[1..] + b && (a + b)[0] == a[0];
      SlotsSplit(s', a[1..], b, j);
      SlotsUnfold(s, a, j);
      SlotsUnfold(s, a + b, j);
      Regroup(SlotsOf(s, a[0], j), Slots(s', a[1..], j), Slots(Exec(s, a).value, b, j));
    }
  }

  lemma Regroup(x: seq<Slot>, y: seq<Slot>, z: seq<Slot>)
    ensures x + (y + z) == (x + y) + z
  {}

  lemma LeadsJoin(s: System, a: seq<Action>, m: System, x: seq<Slot>, b: seq<Action>, u: System, y: seq<Slot>, j: int)
    requires Leads(s, a, m, j, x) && Leads(m, b, u, j, y)
    ensures Leads(s, a + b, u, j, x + y)
  {
    ExecSplit(s, a, b);
    SlotsSplit(s, a, b, j);
    CronSplit(s, a, b);
  }

  lemma {:induction false} CronSplit(s: System, a: seq<Action>, b: seq<Action>)
    requires Exec(s, a).Some? && Exec(Exec(s, a).value, b).Some? && Exec(s, a + b).Some?
    requires CronSteps(s, a) && CronSteps(Exec(s, a).value, b)
    ensures CronSteps(s, a + b)
    decreases |a|
  {
    if a == [] {
      assert a + b == b;
    } else {
      assert (a + b)[1..] == a[1..] + b && (a + b)[0] == a[0];
      CronSplit(Apply(s, a[0]), a[1..], b);
    }
  }

  // ---------- A scan that reaches a job ----------

  /** The process has just started on these tables. */
  function Restarted(s: System, t: Tables): System {
    System(s.cfg, s.capacity, t, 0, map[], Idle, NoScan, map[], map[])
  }

  lemma FailOne(s: System, now: Time, due: seq<DueEntry>, j: int)
    requires |due| > 1
    ensures Leads(s.(scan := Scan(now, due)), [ScanJob(None, RunningPage(s.db, due[0].jobId), 0, false)],
                  s.(scan := Scan(now, due[1..])), j, [])
  {
    RunningPageLists(s.db, due[0].jobId);
    LeadsOne(s.(scan := Scan(now, due)), ScanJob(None, RunningPage(s.db, due[0].jobId), 0, false), j);
  }

  lemma LeadsNowhere(s: System, j: int)
    ensures Leads(s, [], s, j, [])
  {}

  /** The transactions of the due jobs before e all fail. */
  lemma {:induction false} SkipTo(s: System, now: Time, due: seq<DueEntry>, e: DueEntry, j: int)
    returns (acts: seq<Action>, rest: seq<DueEntry>)
    requires e in due
    ensures rest != [] && rest[0] == e
    ensures Leads(s.(scan := Scan(now, due)), acts, s.(scan := Scan(now, rest)), j, [])
    decreases |due|
  {
    if due[0] == e {
      acts, rest := [], due;
      LeadsNowhere(s.(scan := Scan(now, due)), j);
    } else {
      assert e in due[1..];
      FailOne(s, now, due, j);
      var more;
      more, rest := SkipTo(s, now, due[1..], e, j);
      acts := JoinQuiet(s.(scan := Scan(now, due)), [ScanJob(None, RunningPage(s.db, due[0].jobId), 0, false)],
                        s.(scan := Scan(now, due[1..])), more, s.(scan := Scan(now, rest)), j);
    }
  }

  lemma JoinQuiet(s: System, a: seq<Action>, m: System, b: seq<Action>, u: System, j: int) returns (acts: seq<Action>)
    requires Leads(s, a, m, j, []) && Leads(m, b, u, j, [])
    ensures Leads(s, acts, u, j, [])
  {
    acts := a + b;
    LeadsJoin(s, a, m, [], b, u, [], j);
  }

  /** What the due-job transaction leaves for the job as the tables have it now. */
  function Fired(cfg: Config, t: Tables, j: int, now: Time, next: Time): Option<Tables>
    requires j in t.jobs && t.jobs[j].nextRunAt.Some?
  {
    DueTx(cfg, t, j, t.jobs[j], now, next, RunningPage(t, j), now)
  }

  lemma FireFirst(s: System, now: Time, due: seq<DueEntry>, j: int, cronNext: Option<Time>)
    requires due != [] && j in s.db.jobs && due[0] == DueEntry(j, s.db.jobs[j]) && s.db.jobs[j].nextRunAt.Some?
    requires ComputeNextRunAt(s.db.jobs[j].schedule, now, cronNext).Some?
             && CronFollows(s.db.jobs[j].schedule, now, cronNext)
    requires Fired(s.cfg, s.db, j, now, ComputeNextRunAt(s.db.jobs[j].schedule, now, cronNext).value).Some?
    ensures var job := s.db.jobs[j];
            Leads(s.(scan := Scan(now, due)), [ScanJob(cronNext, RunningPage(s.db, j), now, true), Crash],
                  Restarted(s, Fired(s.cfg, s.db, j, now, ComputeNextRunAt(job.schedule, now, cronNext).value).value),
                  j, [Slot(job.nextRunAt.value, now)])
  {
    var start := s.(scan := Scan(now, due));
    var a := ScanJob(cronNext, RunningPage(s.db, j), now, true);
    RunningPageLists(s.db, j);
    LeadsOne(start, a, j);
    CrashAfter(start, a, j);
  }

  lemma CrashAfter(s: System, a: Action, j: int)
    requires Enabled(s, a) && Leads(s, [a], Apply(s, a), j, SlotsOf(s, a, j))
    ensures Leads(s, [a, Crash], Restarted(s, Apply(s, a).db), j, SlotsOf(s, a, j))
  {
    var m := Apply(s, a);
    ConfigStays(s, a);
    LeadsOne(m, Crash, j);
    LeadsJoin(s, [a], m, SlotsOf(s, a, j), [Crash], Apply(m, Crash), [], j);
    assert [a] + [Crash] == [a, Crash];
  }

  lemma StartScan(s: System, now: Time, due: seq<DueEntry>, j: int)
    requires DueListing(s.db, now, due) && due != []
    ensures Leads(s, [Crash, ScanStart(now, due)], Restarted(s, s.db).(scan := Scan(now, due)), j, [])
  {
    var s0 := Restarted(s, s.db);
    LeadsOne(s, Crash, j);
    LeadsOne(s0, ScanStart(now, due), j);
    LeadsJoin(s, [Crash], s0, [], [ScanStart(now, due)], s0.(scan := Scan(now, due)), [], j);
    assert [Crash] + [ScanStart(now, due)] == [Crash, ScanStart(now, due)];
  }

  /** A due job whose slot is free gets it: after a restart, a scan in which the jobs before it fail. */
  lemma FireNow(s: System, j: int, now: Time, cronNext: Option<Time>) returns (acts: seq<Action>)
    requires IsDue(s.db, now, j) && ComputeNextRunAt(s.db.jobs[j].schedule, now, cronNext).Some?
    requires CronFollows(s.db.jobs[j].schedule, now, cronNext)
    requires Fired(s.cfg, s.db, j, now, ComputeNextRunAt(s.db.jobs[j].schedule, now, cronNext).value).Some?
    ensures var job := s.db.jobs[j];
            var next := ComputeNextRunAt(job.schedule, now, cronNext).value;
            Leads(s, acts, Restarted(s, Fired(s.cfg, s.db, j, now, next).value), j, [Slot(job.nextRunAt.value, now)])
  {
    var due := DueList(s.db, now);
    DueListLists(s.db, now);
    var s0 := Restarted(s, s.db);
    var start := s0.(scan := Scan(now, due));
    assert DueEntry(j, s.db.jobs[j]) in due;
    StartScan(s, now, due, j);
    var skipped, rest := SkipTo(s0, now, due, DueEntry(j, s.db.jobs[j]), j);
    var before := JoinQuiet(s, [Crash, ScanStart(now, due)], start, skipped, s0.(scan := Scan(now, rest)), j);
    FireFirst(s0, now, rest, j, cronNext);
    var job := s.db.jobs[j];
    var last := [ScanJob(cronNext, RunningPage(s.db, j), now, true), Crash];
    LeadsJoin(s, before, s0.(scan := Scan(now, rest)), [], last,
              Restarted(s, Fired(s.cfg, s.db, j, now, ComputeNextRunAt(job.schedule, now, cronNext).value).value),
              [Slot(job.nextRunAt.value, now)], j);
    acts := before + last;
  }

  // ---------- Whether a job can fire ----------

  /** A schedule that a next run time can be computed from. */
  predicate Plannable(schedule: Schedule) {
    match schedule
    case Interval(sec) => sec.Some? && sec.value > 0
    case Cron(expr) => expr.Some? && expr.value != ""
  }

  /** The job would get its slot with this definition: it is there and enabled, and no row holds the slot's key. */
  predicate CanFire(t: Tables, j: int, job: Job) {
    j in t.jobs && job.enabled && job.nextRunAt.Some? && Plannable(job.schedule)
      && !KeyTaken(t, RunKey(j, job.nextRunAt.value, 0))
  }

  /** As CanFire, but the row that holds the slot's key, if there is one, may still have to end and be deleted. */
  ghost predicate CanFireYet(s: System, j: int, job: Job) {
    && j in s.db.jobs && job.enabled && job.nextRunAt.Some? && Plannable(job.schedule)
    && KeyFrees(s, RunKey(j, job.nextRunAt.value, 0))
  }

  /** The job is neither replaced nor removed; retention and other jobs do as they like. */
  predicate Keeps(acts: seq<Action>, j: int) {
    forall i | 0 <= i < |acts| :: !Replaces(acts[i], j) && !RemovesJob(acts[i], j)
  }

  /** A next run time after last; none is after no slot at all. */
  predicate Beyond(next: Option<Time>, last: Option<Time>) {
    next.Some? && last.Some? && last.value < next.value
  }

  /** With this definition the job gets no slot: it is not meant to, or a dead row holds the slot's key. */
  ghost predicate Blocked(s: System, j: int, w: Job) {
    || !w.enabled || w.nextRunAt.None? || !Plannable(w.schedule)
    || exists h <- s.db.runs :: s.db.runs[h].Key() == RunKey(j, w.nextRunAt.value, 0) && Dead(s, h)
  }

  lemma BlockedIff(s: System, j: int, w: Job)
    requires j in s.db.jobs
    ensures Blocked(s, j, w) <==> !CanFireYet(s, j, w)
  {}

  /** The job, or a scan in flight, has this definition. */
  ghost predicate Live(s: System, j: int, w: Job) {
    || (j in s.db.jobs && s.db.jobs[j] == w)
    || (s.scan.Scan? && DueEntry(j, w) in s.scan.due)
  }

  /** All that is known of job j has a next run time after last, or is the blocked definition w, whose time is not. */
  ghost predicate Barred(s: System, j: int, w: Job, last: Option<Time>) {
    && ScanOk(s) && 1 <= j <= s.db.jobSeq && (w.enabled ==> !Beyond(w.nextRunAt, last))
    && (Live(s, j, w) ==> Blocked(s, j, w))
    && (j in s.db.jobs ==> s.db.jobs[j] == w || Beyond(s.db.jobs[j].nextRunAt, last))
    && (s.scan.Scan? ==> forall i | 0 <= i < |s.scan.due| && s.scan.due[i].jobId == j ::
                           s.scan.due[i].job == w || Beyond(s.scan.due[i].job.nextRunAt, last))
  }

  /** A definition that gets its slot could fire. */
  lemma ConsumedCouldFire(s: System, a: Action, j: int)
    requires Inv(s) && ScanOk(s) && Enabled(s, a) && Consumes(s, a, j)
    ensures CanFire(s.db, j, s.scan.due[0].job)
  {
    ConsumedTx(s, a, j);
    var e := s.scan.due[0];
    var next := ComputeNextRunAt(e.job.schedule, s.scan.now, a.cronNext).value;
    DueCommitsIff(s.cfg, s.db, j, e.job, s.scan.now, next, a.listed, a.createdAt);
  }

  /** So a blocked definition is not the one that does. */
  lemma ConsumedIsBeyond(s: System, a: Action, j: int, w: Job, last: Option<Time>)
    requires Inv(s) && Barred(s, j, w, last) && Enabled(s, a) && Consumes(s, a, j)
    ensures s.scan.due[0].job != w && Beyond(s.scan.due[0].job.nextRunAt, last)
  {
    ConsumedCouldFire(s, a, j);
    assert DueEntry(j, s.scan.due[0].job) in s.scan.due;
    if Live(s, j, w) {
      BlockedCannotFire(s, j, w);
    }
  }

  lemma BlockedCannotFire(s: System, j: int, w: Job)
    requires Blocked(s, j, w)
    ensures !CanFire(s.db, j, w)
  {}

  lemma BarredConsume(s: System, a: Action, j: int, w: Job, last: Option<Time>)
    requires Inv(s) && Barred(s, j, w, last) && Enabled(s, a) && Consumes(s, a, j) && (last.Some? ==> CronStep(s, a))
    ensures Beyond(s.scan.due[0].job.nextRunAt, last)
    ensures j in Apply(s, a).db.jobs ==> Beyond(Apply(s, a).db.jobs[j].nextRunAt, last)
  {
    ConsumedIsBeyond(s, a, j, w, last);
    ConsumedSlot(s, a, j);
    NextFollows(s.scan.due[0].job.schedule, s.scan.now, a.cronNext);
  }

  /** After it, the definition is gone for good, unless it is not meant to fire. */
  lemma ConsumeLeavesNothing(s: System, a: Action, j: int, w: Job, last: Option<Time>)
    requires Inv(s) && Barred(s, j, w, last) && Enabled(s, a) && Consumes(s, a, j) && (last.Some? ==> CronStep(s, a))
    ensures Live(Apply(s, a), j, w) ==> !w.enabled
  {
    BarredConsume(s, a, j, w, last);
    ScanJobLeaves(s, a);
    RestHasNone(s.scan, j, w);
  }

  lemma RestHasNone(scan: Lifecycle.Scan, j: int, w: Job)
    requires scan.Scan? && scan.due != [] && scan.due[0].jobId == j
    requires forall i, k | 0 <= i < k < |scan.due| :: scan.due[i].jobId != scan.due[k].jobId
    ensures ScanRest(scan).Scan? ==> DueEntry(j, w) !in ScanRest(scan).due
  {}

  lemma BarredJob(s: System, a: Action, j: int)
    requires Inv(s) && Enabled(s, a) && 1 <= j <= s.db.jobSeq && !Replaces(a, j) && !Consumes(s, a, j)
    ensures j in Apply(s, a).db.jobs ==> j in s.db.jobs && Apply(s, a).db.jobs[j] == s.db.jobs[j]
  {
    if a.ScanJob? {
      OtherScanJob(s, a, j);
    } else if a.CreateJob? || a.UpdateCommit? {
    } else if j in Apply(s, a).db.jobs {
      JobsAfter(s, a, j);
    }
  }

  lemma BarredScan(s: System, a: Action, j: int, w: Job, last: Option<Time>)
    requires Barred(s, j, w, last) && Enabled(s, a)
    ensures Apply(s, a).scan.Scan? ==> forall i | 0 <= i < |Apply(s, a).scan.due|
            && Apply(s, a).scan.due[i].jobId == j ::
              Apply(s, a).scan.due[i].job == w || Beyond(Apply(s, a).scan.due[i].job.nextRunAt, last)
  {
    if !a.ScanJob? && !a.ScanStart? {
      ScanUntouched(s, a);
    }
  }

  lemma ScanWasLive(s: System, a: Action, j: int, w: Job)
    requires Enabled(s, a) && Apply(s, a).scan.Scan? && DueEntry(j, w) in Apply(s, a).scan.due
    ensures Live(s, j, w)
  {
    if a.ScanJob? {
      ScanJobLeaves(s, a);
    } else if a.ScanStart? {
      ListedIsThere(s.db, a.now, a.due, j, w);
    } else {
      ScanUntouched(s, a);
    }
  }

  lemma ListedIsThere(t: Tables, now: Time, due: seq<DueEntry>, j: int, w: Job)
    requires DueListing(t, now, due) && DueEntry(j, w) in due
    ensures j in t.jobs && t.jobs[j] == w
  {
    var i :| 0 <= i < |due| && due[i] == DueEntry(j, w);
    assert IsDue(t, now, due[i].jobId);
  }

  lemma NoScanCloses(s: System, a: Action, j: int)
    requires Enabled(s, a) && !Consumes(s, a, j)
    ensures ClosesNone(s, a, j)
  {}

  /** A step in which the job consumes no slot leaves the definition blocked. */
  lemma StaysBlocked(s: System, a: Action, j: int, w: Job)
    requires Inv(s) && Enabled(s, a) && !Consumes(s, a, j) && !RemovesJob(a, j) && Blocked(s, j, w)
    ensures Blocked(Apply(s, a), j, w)
  {
    if w.enabled && w.nextRunAt.Some? && Plannable(w.schedule) {
      var h :| h in s.db.runs && s.db.runs[h].Key() == RunKey(j, w.nextRunAt.value, 0) && Dead(s, h);
      assert s.db.runs[h].jobId == s.db.runs[h].Key().jobId == j;
      NoScanCloses(s, a, j);
      DeadStep(s, a, h);
    }
  }

  lemma BarredLive(s: System, a: Action, j: int, w: Job, last: Option<Time>)
    requires Inv(s) && Barred(s, j, w, last) && Enabled(s, a) && !Replaces(a, j) && !RemovesJob(a, j)
    requires last.Some? ==> CronStep(s, a)
    ensures Live(Apply(s, a), j, w) ==> Blocked(Apply(s, a), j, w)
  {
    if Consumes(s, a, j) {
      ConsumeLeavesNothing(s, a, j, w, last);
    } else if Live(Apply(s, a), j, w) {
      BarredJob(s, a, j);
      if Apply(s, a).scan.Scan? && DueEntry(j, w) in Apply(s, a).scan.due {
        ScanWasLive(s, a, j, w);
      }
      StaysBlocked(s, a, j, w);
    }
  }

  lemma BarredStep(s: System, a: Action, j: int, w: Job, last: Option<Time>)
    requires Inv(s) && Barred(s, j, w, last) && Enabled(s, a) && !Replaces(a, j) && !RemovesJob(a, j)
    requires last.Some? ==> CronStep(s, a)
    ensures Barred(Apply(s, a), j, w, last)
    ensures Consumes(s, a, j) ==> Beyond(s.scan.due[0].job.nextRunAt, last)
  {
    ScanOkStep(s, a);
    BarredScan(s, a, j, w, last);
    BarredLive(s, a, j, w, last);
    JobIdsStep(s, a);
    if Consumes(s, a, j) {
      BarredConsume(s, a, j, w, last);
    } else {
      BarredJob(s, a, j);
    }
  }

  ghost predicate AllBeyond(slots: seq<Slot>, last: Option<Time>) {
    forall k | 0 <= k < |slots| :: Beyond(Some(slots[k].at), last)
  }

  /** A barred job gets no slot up to last, and none at all where there is no last. */
  lemma {:induction false} BarredSlots(s: System, acts: seq<Action>, j: int, w: Job, last: Option<Time>)
    requires Inv(s) && Barred(s, j, w, last) && Exec(s, acts).Some? && Keeps(acts, j)
             && (last.Some? ==> CronSteps(s, acts))
    ensures AllBeyond(Slots(s, acts, j), last)
    decreases |acts|
  {
    if acts != [] {
      InvStep(s, acts[0]);
      BarredStep(s, acts[0], j, w, last);
      BarredSlots(Apply(s, acts[0]), acts[1..], j, w, last);
      SlotsUnfold(s, acts, j);
    }
  }

  // ---------- A slot that is taken ----------

  /** Job j has this definition, in its row and in a scan in flight. */
  ghost predicate IsAll(s: System, j: int, job: Job) {
    && ScanOk(s) && 1 <= j <= s.db.jobSeq && (j in s.db.jobs ==> s.db.jobs[j] == job)
    && (s.scan.Scan? ==> forall i | 0 <= i < |s.scan.due| && s.scan.due[i].jobId == j :: s.scan.due[i].job == job)
  }

  lemma TakenStep(s: System, a: Action, j: int, job: Job)
    requires Inv(s) && IsAll(s, j, job) && Enabled(s, a) && !Replaces(a, j)
    requires job.nextRunAt.Some? && KeyTaken(s.db, RunKey(j, job.nextRunAt.value, 0))
    ensures !Consumes(s, a, j) && IsAll(Apply(s, a), j, job)
  {
    if Consumes(s, a, j) {
      ConsumedCouldFire(s, a, j);
    }
    ScanOkStep(s, a);
    JobIdsStep(s, a);
    BarredJob(s, a, j);
    if !a.ScanJob? && !a.ScanStart? {
      ScanUntouched(s, a);
    }
  }

  /**
   While a row holds the key of its next slot, a job never fires and its next run time never moves:
   in every run in which the job is not replaced, for as long as that row is not deleted.
   */
  lemma {:induction false} TakenSlotBlocksForEver(s: System, acts: seq<Action>, j: int, job: Job, r: int)
    requires Inv(s) && IsAll(s, j, job) && job.nextRunAt.Some? && Exec(s, acts).Some?
    requires r in s.db.runs && s.db.runs[r].Key() == RunKey(j, job.nextRunAt.value, 0)
             && r in Exec(s, acts).value.db.runs
    requires forall i | 0 <= i < |acts| :: !Replaces(acts[i], j)
    ensures Slots(s, acts, j) == [] && IsAll(Exec(s, acts).value, j, job)
    decreases |acts|
  {
    if acts != [] {
      var s' := Apply(s, acts[0]);
      StillThere(s, acts[0], acts[1..], r);
      SameKey(s, acts[0], r);
      TakenStep(s, acts[0], j, job);
      TakenSlotBlocksForEver(s', acts[1..], j, job, r);
      SlotsUnfold(s, acts, j);
    }
  }

  /** A row that is still there at the end was there after the first step. */
  lemma StillThere(s: System, a: Action, rest: seq<Action>, r: int)
    requires Inv(s) && Enabled(s, a) && r in s.db.runs && Exec(Apply(s, a), rest).Some?
             && r in Exec(Apply(s, a), rest).value.db.runs
    ensures Inv(Apply(s, a)) && r in Apply(s, a).db.runs
  {
    InvStep(s, a);
    assert r <= s.db.runSeq;
    if r !in Apply(s, a).db.runs {
      GoneForever(Apply(s, a), rest, r);
    }
  }

  lemma SameKey(s: System, a: Action, r: int)
    requires Inv(s) && Enabled(s, a) && r in s.db.runs && r in Apply(s, a).db.runs
    ensures Apply(s, a).db.runs[r].Key() == s.db.runs[r].Key()
  {
    InvStep(s, a);
  }

  // ---------- Whether it gets another slot ----------

  ghost predicate CanGetSlot(s: System, j: int) {
    exists acts :: GetsSlot(s, acts, j)
  }

  ghost predicate GetsSlot(s: System, acts: seq<Action>, j: int) {
    Keeps(acts, j) && Exec(s, acts).Some? && CronSteps(s, acts) && Slots(s, acts, j) != []
  }

  lemma PlainKeeps(acts: seq<Action>, j: int)
    requires AllPlain(acts)
    ensures Keeps(acts, j)
  {}

  lemma {:induction false} PlainSlots(s: System, acts: seq<Action>, j: int)
    requires AllPlain(acts) && Exec(s, acts).Some?
    ensures Slots(s, acts, j) == [] && CronSteps(s, acts)
    decreases |acts|
  {
    if acts != [] {
      PlainSlots(Apply(s, acts[0]), acts[1..], j);
      SlotsUnfold(s, acts, j);
    }
  }

  lemma ScanOnlyKeeps(acts: seq<Action>, j: int)
    requires ScanOnly(acts)
    ensures Keeps(acts, j)
  {}

  /** A job that can fire does so at its next run time, or at any later reading of the clock. */
  lemma FireAt(s: System, j: int, now: Time) returns (acts: seq<Action>, u: System)
    requires Inv(s) && j in s.db.jobs && CanFire(s.db, j, s.db.jobs[j]) && TextAtMost(s.db.jobs[j].nextRunAt.value, now)
    ensures Leads(s, acts, u, j, [Slot(s.db.jobs[j].nextRunAt.value, now)])
    ensures var job := s.db.jobs[j];
            var next := ComputeNextRunAt(job.schedule, now, Some(now + SECOND));
            && next.Some? && now < next.value && Fired(s.cfg, s.db, j, now, next.value).Some?
            && u == Restarted(s, Fired(s.cfg, s.db, j, now, next.value).value)
  {
    var job := s.db.jobs[j];
    var next := ComputeNextRunAt(job.schedule, now, Some(now + SECOND)).value;
    RunningPageLists(s.db, j);
    DueCommitsIff(s.cfg, s.db, j, job, now, next, RunningPage(s.db, j), now);
    acts := FireNow(s, j, now, Some(now + SECOND));
    u := Restarted(s, Fired(s.cfg, s.db, j, now, next).value);
  }

  /** First the slot's key is freed, if a row holds it; then the job fires at its next run time. */
  lemma FreeAndFire(s: System, j: int) returns (acts: seq<Action>)
    requires Inv(s) && j in s.db.jobs && CanFireYet(s, j, s.db.jobs[j])
    ensures Keeps(acts, j) && Exec(s, acts).Some? && CronSteps(s, acts)
    ensures var at := s.db.jobs[j].nextRunAt.value; Slots(s, acts, j) == [Slot(at, at)]
  {
    var at := s.db.jobs[j].nextRunAt.value;
    var free, m := FreeKey(s, RunKey(j, at, 0));
    BringsKeeps(s, free, m);
    PlainSlots(s, free, j);
    var fire, u := FireAt(m, j, at);
    FreeThenFire(s, free, m, fire, u, j, at);
    acts := free + fire;
  }

  lemma FreeThenFire(s: System, free: seq<Action>, m: System, fire: seq<Action>, u: System, j: int, at: Time)
    requires Brings(s, free, m) && Slots(s, free, j) == [] && CronSteps(s, free) && Leads(m, fire, u, j, [Slot(at, at)])
    ensures Keeps(free + fire, j) && Exec(s, free + fire).Some? && CronSteps(s, free + fire)
    ensures Slots(s, free + fire, j) == [Slot(at, at)]
  {
    ExecSplit(s, free, fire);
    SlotsSplit(s, free, fire, j);
    CronSplit(s, free, fire);
    PlainKeeps(free, j);
    ScanOnlyKeeps(fire, j);
  }

  /**
   With no scan in flight, a job gets another slot in some continuation exactly when it is meant to
   fire and the row that holds its slot's key, if there is one, can still end, and so be deleted.
   */
  lemma FiresAgainIff(s: System, j: int)
    requires Inv(s) && s.scan.NoScan? && j in s.db.jobs
    ensures CanGetSlot(s, j) <==> CanFireYet(s, j, s.db.jobs[j])
  {
    if CanFireYet(s, j, s.db.jobs[j]) {
      var acts := FreeAndFire(s, j);
      assert GetsSlot(s, acts, j);
    } else {
      forall acts ensures !GetsSlot(s, acts, j) {
        if Keeps(acts, j) && Exec(s, acts).Some? {
          NeverFires(s, acts, j);
        }
      }
    }
  }

  lemma NeverFires(s: System, acts: seq<Action>, j: int)
    requires Inv(s) && s.scan.NoScan? && j in s.db.jobs && !CanFireYet(s, j, s.db.jobs[j])
    requires Keeps(acts, j) && Exec(s, acts).Some?
    ensures Slots(s, acts, j) == []
  {
    BlockedIff(s, j, s.db.jobs[j]);
    BarredSlots(s, acts, j, s.db.jobs[j], None);
    assert Slots(s, acts, j) != [] ==> Beyond(Some(Slots(s, acts, j)[0].at), None);
  }

  // ---------- An update that writes a slot of the past ----------

  ghost predicate GoesBack(s: System, acts: seq<Action>, j: int, last: Time) {
    && Keeps(acts, j) && Exec(s, acts).Some? && CronSteps(s, acts)
    && exists k :: 0 <= k < |Slots(s, acts, j)| && Slots(s, acts, j)[k].at <= last
  }

  ghost predicate CanGoBack(s: System, j: int, last: Time) {
    exists acts :: GoesBack(s, acts, j, last)
  }

  /**
   An UpdateJob is about to write, and job j has consumed its slots up to last.  In some continuation
   the job consumes a slot no later than that again, exactly when the next run time being written is
   no later, the job is meant to fire at it, and the row that holds the slot's key can still end.
   */
  lemma UpdateCanGoBackIff(s: System, u: int, j: int, last: Time)
    requires Inv(s) && Ahead(s, j, Some(last)) && Enabled(s, UpdateCommit(u, j, true)) && j in s.db.jobs
    requires s.updates[u].job.nextRunAt.Some?
    ensures var s' := Apply(s, UpdateCommit(u, j, true)); var job := s.updates[u].job;
            CanGoBack(s', j, last) <==> job.nextRunAt.value <= last && CanFireYet(s', j, job)
  {
    var s', job := Apply(s, UpdateCommit(u, j, true)), s.updates[u].job;
    InvStep(s, UpdateCommit(u, j, true));
    if job.nextRunAt.value <= last && CanFireYet(s', j, job) {
      var acts := FreeAndFire(s', j);
      assert Slots(s', acts, j)[0].at <= last;
      assert GoesBack(s', acts, j, last);
    } else {
      forall acts ensures !GoesBack(s', acts, j, last) {
        if Keeps(acts, j) && Exec(s', acts).Some? && CronSteps(s', acts) {
          NeverGoesBack(s', acts, j, last);
        }
      }
    }
  }

  lemma NeverGoesBack(s: System, acts: seq<Action>, j: int, last: Time)
    requires Inv(s) && ScanOk(s) && j in s.db.jobs && s.db.jobs[j].nextRunAt.Some?
    requires s.scan.Scan? ==> forall i | 0 <= i < |s.scan.due| && s.scan.due[i].jobId == j ::
             After(s.scan.due[i].job.nextRunAt, Some(last))
    requires s.db.jobs[j].nextRunAt.value <= last ==> !CanFireYet(s, j, s.db.jobs[j])
    requires Keeps(acts, j) && Exec(s, acts).Some? && CronSteps(s, acts)
    ensures AllBeyond(Slots(s, acts, j), Some(last))
  {
    var job := s.db.jobs[j];
    BlockedIff(s, j, job);
    var w := if job.nextRunAt.value <= last then job else job.(enabled := false);
    BarredSlots(s, acts, j, w, Some(last));
  }
}
