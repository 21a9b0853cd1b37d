/** A run in which an UpdateJob overtaken by a scan sends a job's slots back in time. */
module RacedUpdate {
  import opened Model
  import opened Tables
  import opened Instants
  import opened Transactions
  import opened Lifecycle
  import opened SlotProgress

  function At(sec: int): Time {
    sec * SECOND
  }

  function Every(sec: int, next: Option<Time>, last: Option<Time>): Job {
    Job(true, Interval(Some(sec)), Allow, 60, 0, next, last)
  }

  function State(cfg: Config, capacity: nat, job: Job, runs: map<int, Run>, scan: Scan,
                 updates: map<int, UpdateCall>): System {
    System(cfg, capacity, Tables(map[1 := job], runs, Log(|runs|), 1, |runs|), 0, map[], Idle, scan, map[], updates)
  }

  function Log(n: nat): seq<RunEvent> {
    if n == 0 then [] else Log(n - 1) + [RunEvent(n, RunCreated)]
  }

  const FIRST: map<int, Run> := map[1 := PendingRun(1, At(10), At(10))]
  const BOTH: map<int, Run> := map[1 := PendingRun(1, At(10), At(10)), 2 := PendingRun(1, At(6), At(11))]

  /** The job, created at second 0 to run every 10 seconds, is being changed to every second from second 5 on. */
  function Pending(timed: bool): map<int, UpdateCall> {
    map[0 := UpdateCall(1, Every(1, if timed then Some(At(6)) else None, None), timed)]
  }

  function Due(sec: int, job: Job): Scan {
    Scan(At(sec), [DueEntry(1, job)])
  }

  function Step(i: nat): Action
    requires i < 8
  {
    if i == 0 then CreateJob(Every(10, None, None), At(0), None)
    else if i == 1 then UpdateRead(0, 1, Every(1, None, None))
    else if i == 2 then UpdateClock(0, At(5), None)
    else if i == 3 then ScanStart(At(10), [DueEntry(1, Every(10, Some(At(10)), None))])
    else if i == 4 then ScanJob(None, [], At(10), true)
    else if i == 5 then UpdateCommit(0, 1, true)
    else if i == 6 then ScanStart(At(11), [DueEntry(1, Every(1, Some(At(6)), None))])
    else ScanJob(None, [], At(11), true)
  }

  function StateAt(cfg: Config, capacity: nat, i: nat): System
    requires i <= 8
  {
    if i == 0 then System(cfg, capacity, Tables(map[], map[], [], 0, 0), 0, map[], Idle, NoScan, map[], map[])
    else if i == 1 then State(cfg, capacity, Every(10, Some(At(10)), None), map[], NoScan, map[])
    else if i == 2 then State(cfg, capacity, Every(10, Some(At(10)), None), map[], NoScan, Pending(false))
    else if i == 3 then State(cfg, capacity, Every(10, Some(At(10)), None), map[], NoScan, Pending(true))
    else if i == 4
      then State(cfg, capacity, Every(10, Some(At(10)), None), map[], Due(10, Every(10, Some(At(10)), None)),
                 Pending(true))
    else if i == 5 then State(cfg, capacity, Every(10, Some(At(20)), Some(At(10))), FIRST, NoScan, Pending(true))
    else if i == 6 then State(cfg, capacity, Every(1, Some(At(6)), None), FIRST, NoScan, map[])
    else if i == 7
      then State(cfg, capacity, Every(1, Some(At(6)), None), FIRST, Due(11, Every(1, Some(At(6)), None)), map[])
    else State(cfg, capacity, Every(1, Some(At(12)), Some(At(6))), BOTH, NoScan, map[])
  }

  function StepSlots(i: nat): seq<Slot> {
    if i == 4 then [Slot(At(10), At(10))] else if i == 7 then [Slot(At(6), At(11))] else []
  }

  lemma EarlyStep(cfg: Config, capacity: nat, i: nat)
    requires i < 3
    ensures var s := StateAt(cfg, capacity, i);
            Enabled(s, Step(i)) && Apply(s, Step(i)) == StateAt(cfg, capacity, i + 1)
              && SlotsOf(s, Step(i), 1) == StepSlots(i)
  {
    if i == 0 {
      assert Step(0).CreateJob?;
    } else if i == 1 {
      assert Step(1).UpdateRead?;
    } else {
      assert Step(2).UpdateClock?;
    }
  }

  lemma NotYetDue(job: Job, runs: map<int, Run>, now: Time)
    requires job.enabled && job.nextRunAt.Some? && job.nextRunAt.value <= now && now % SECOND == 0
             && job.nextRunAt.value % SECOND == 0
    ensures DueListing(Tables(map[1 := job], runs, Log(|runs|), 1, |runs|), now, [DueEntry(1, job)])
  {
    assert FractionOf(now) == FractionOf(job.nextRunAt.value);
  }

  lemma ScanStartStep(cfg: Config, capacity: nat, i: nat)
    requires i == 3 || i == 6
    ensures var s := StateAt(cfg, capacity, i);
            Enabled(s, Step(i)) && Apply(s, Step(i)) == StateAt(cfg, capacity, i + 1)
              && SlotsOf(s, Step(i), 1) == StepSlots(i)
  {
    if i == 3 {
      NotYetDue(Every(10, Some(At(10)), None), map[], At(10));
    } else {
      NotYetDue(Every(1, Some(At(6)), None), FIRST, At(11));
    }
  }

  lemma CommitStep(cfg: Config, capacity: nat)
    ensures var s := StateAt(cfg, capacity, 5);
            Enabled(s, Step(5)) && Apply(s, Step(5)) == StateAt(cfg, capacity, 6) && SlotsOf(s, Step(5), 1) == []
  {}

  lemma FirstScan(cfg: Config, capacity: nat)
    ensures var s := StateAt(cfg, capacity, 4);
            Enabled(s, Step(4)) && Apply(s, Step(4)) == StateAt(cfg, capacity, 5)
              && SlotsOf(s, Step(4), 1) == StepSlots(4)
  {
    assert Log(1) == Log(0) + [RunEvent(1, RunCreated)];
  }

  lemma SecondScan(cfg: Config, capacity: nat)
    ensures var s := StateAt(cfg, capacity, 7);
            Enabled(s, Step(7)) && Apply(s, Step(7)) == StateAt(cfg, capacity, 8)
              && SlotsOf(s, Step(7), 1) == StepSlots(7)
  {
    assert |FIRST| == 1 && |BOTH| == 2;
    assert BOTH == FIRST[2 := PendingRun(1, At(6), At(11))];
    assert Log(2) == Log(1) + [RunEvent(2, RunCreated)];
  }

  lemma OneStep(cfg: Config, capacity: nat, i: nat)
    requires i < 8
    ensures var s := StateAt(cfg, capacity, i);
            Enabled(s, Step(i)) && Apply(s, Step(i)) == StateAt(cfg, capacity, i + 1)
              && SlotsOf(s, Step(i), 1) == StepSlots(i)
  {
    if i < 3 {
      EarlyStep(cfg, capacity, i);
    } else if i == 3 || i == 6 {
      ScanStartStep(cfg, capacity, i);
    } else if i == 4 {
      FirstScan(cfg, capacity);
    } else if i == 5 {
      CommitStep(cfg, capacity);
    } else {
      SecondScan(cfg, capacity);
    }
  }

  // ---------- The whole run ----------

  function Steps(from: nat): seq<Action>
    requires from <= 8
    decreases 8 - from
  {
    if from == 8 then [] else [Step(from)] + Steps(from + 1)
  }

  function SlotsFrom(from: nat): seq<Slot>
    requires from <= 8
    decreases 8 - from
  {
    if from == 8 then [] else StepSlots(from) + SlotsFrom(from + 1)
  }

  function ClockAt(i: nat): Time {
    if i <= 2 then At(0) else if i == 3 then At(5) else if i <= 6 then At(10) else At(11)
  }

  lemma {:induction false} RunFrom(cfg: Config, capacity: nat, from: nat)
    requires from <= 8
    ensures var s := StateAt(cfg, capacity, from);
            && Exec(s, Steps(from)) == Some(StateAt(cfg, capacity, 8))
            && Slots(s, Steps(from), 1) == SlotsFrom(from)
            && WellTimed(s, Steps(from), ClockAt(from))
    decreases 8 - from
  {
    if from < 8 {
      OneStep(cfg, capacity, from);
      RunFrom(cfg, capacity, from + 1);
      Front(StateAt(cfg, capacity, from), Step(from), StateAt(cfg, capacity, from + 1), Steps(from + 1), ClockAt(from));
      TimedAt(cfg, capacity, from);
    }
  }

  lemma TimedAt(cfg: Config, capacity: nat, i: nat)
    requires i < 8
    ensures TimedStep(StateAt(cfg, capacity, i), Step(i), ClockAt(i))
            && ClockAfter(Step(i), ClockAt(i)) == ClockAt(i + 1)
  {}

  lemma Front(s: System, a: Action, m: System, rest: seq<Action>, clock: Time)
    requires Enabled(s, a) && Apply(s, a) == m && Exec(m, rest).Some?
    ensures Exec(s, [a] + rest) == Exec(m, rest) && Slots(s, [a] + rest, 1) == SlotsOf(s, a, 1) + Slots(m, rest, 1)
    ensures WellTimed(s, [a] + rest, clock) <==> TimedStep(s, a, clock) && WellTimed(m, rest, ClockAfter(a, clock))
  {
    assert ([a] + rest)[1..] == rest;
    SlotsUnfold(s, [a] + rest, 1);
  }

  lemma AllSlots()
    ensures SlotsFrom(0) == [Slot(At(10), At(10)), Slot(At(6), At(11))]
  {
    assert SlotsFrom(8) == [] && SlotsFrom(7) == StepSlots(7) && SlotsFrom(5) == StepSlots(7);
    assert SlotsFrom(4) == StepSlots(4) + StepSlots(7) && SlotsFrom(2) == SlotsFrom(4) && SlotsFrom(0) == SlotsFrom(2);
  }

  /**
   Clocks never go back and every step is one the code takes, and yet the job, having consumed the
   slot of second 10, consumes the one of second 6 afterwards.
   */
  lemma SlotsCanGoBack(s: System)
    requires Init(s)
    ensures Exec(s, Steps(0)).Some? && WellTimed(s, Steps(0), At(0))
    ensures Slots(s, Steps(0), 1) == [Slot(At(10), At(10)), Slot(At(6), At(11))]
  {
    assert s == StateAt(s.cfg, s.capacity, 0);
    RunFrom(s.cfg, s.capacity, 0);
    AllSlots();
  }

  /** The update also undoes the record of the slot that the scan left: it writes the last slot it has read. */
  lemma LastSlotIsForgotten(cfg: Config, capacity: nat)
    ensures var before, after := StateAt(cfg, capacity, 5), StateAt(cfg, capacity, 6);
            && Enabled(before, UpdateCommit(0, 1, true)) && Apply(before, UpdateCommit(0, 1, true)) == after
            && before.db.jobs[1].lastScheduledAt == Some(At(10)) && after.db.jobs[1].lastScheduledAt == None
  {
    CommitStep(cfg, capacity);
  }
}
