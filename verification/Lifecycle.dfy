/**
 The run lifecycle as a step relation.  Each transaction, and each SQL statement outside one, is
 one atomic step, because the store has a single connection.  Every goroutine of the process is
 an actor with its own local state: the due-job loop, the dispatch loop, the workers and the
 CancelRun calls.  Clocks, outcomes and listings are chosen by the action, within what the code
 and SQL allow; every transaction may also fail and roll back, and the process may crash.
 */
module Lifecycle {
  import opened Model
  import opened Tables
  import opened Instants
  import opened Transactions

  // ---------- State ----------

  /** The local state of runWorker, between its steps. */
  datatype Phase =
    | Spawned                                            // holds a token, has read nothing
    | RunLoaded(run: Run)
    | Loaded(run: Run, job: Job)
    | Claimed(run: Run, job: Job)                        // its claim transaction set the row to running
    | Executing(run: Run, job: Job)
    | Returned(run: Run, job: Job, outcome: Outcome)
    | Finished                                           // about to release the token
  {
    /** The worker has claimed the row and has not finalized it. */
    predicate Owning() {
      Claimed? || Executing? || Returned?
    }

    predicate HasRun() {
      !Spawned? && !Finished?
    }

    predicate HasJob() {
      Loaded? || Owning()
    }
  }

  datatype Worker = Worker(runId: int, phase: Phase)

  datatype Dispatcher =
    | Idle
    | Free(available: nat)          // read the free tokens, about to list
    | Round(left: seq<int>)         // pending runs of this round still to be spawned

  datatype DueEntry = DueEntry(jobId: int, job: Job)

  datatype Scan = NoScan | Scan(now: Time, due: seq<DueEntry>)

  /** A CancelRun that has read its row and not yet written it. */
  datatype CancelCall = CancelCall(runId: int, target: RunStatus, read: Run)

  /**
   An UpdateJob that has read the job it replaces; timed once it has
   read the clock and computed the next run time.
   */
  datatype UpdateCall = UpdateCall(jobId: int, job: Job, timed: bool)

  datatype System = System(
    cfg: Config,
    capacity: nat,                  // cap(workerTokens)
    db: Tables,
    tokens: nat,                    // len(workerTokens)
    workers: map<int, Worker>,
    dispatcher: Dispatcher,
    scan: Scan,
    cancels: map<int, CancelCall>,
    updates: map<int, UpdateCall>)

  ghost predicate Init(s: System) {
    s == System(s.cfg, s.capacity, Tables(map[], map[], [], 0, 0), 0, map[], Idle, NoScan, map[], map[])
  }

  // ---------- Listings ----------

  /** ORDER BY scheduled_at ASC, id ASC. */
  predicate RunOrder(t: Tables, a: int, b: int)
    requires a in t.runs && b in t.runs
  {
    TextBefore(t.runs[a].scheduledAt, t.runs[b].scheduledAt) ||
    (t.runs[a].scheduledAt == t.runs[b].scheduledAt && a < b)
  }

  /** The result of ListPending with a positive limit. */
  ghost predicate PendingListing(t: Tables, limit: nat, listed: seq<int>) {
    && |listed| <= limit
    && (forall i | 0 <= i < |listed| :: Claimable(t, listed[i]))
    && (forall i, k | 0 <= i < k < |listed| :: RunOrder(t, listed[i], listed[k]))
    && (forall r <- t.runs | t.runs[r].status.Pending? && r !in listed ::
          |listed| == limit && forall i | 0 <= i < limit :: RunOrder(t, listed[i], r))
  }

  predicate IsRunningOf(t: Tables, jobId: int, r: int) {
    r in t.runs && t.runs[r].jobId == jobId && t.runs[r].status.Running?
  }

  const RUNNING_PAGE: nat := 100

  /** The first page of the running rows of a job, newest slot first. */
  ghost predicate RunningListing(t: Tables, jobId: int, listed: seq<int>) {
    && |listed| <= RUNNING_PAGE
    && (forall i | 0 <= i < |listed| :: IsRunningOf(t, jobId, listed[i]))
    && (forall i, k | 0 <= i < k < |listed| :: RunOrder(t, listed[k], listed[i]))
    && (forall r <- t.runs | IsRunningOf(t, jobId, r) && r !in listed ::
          |listed| == RUNNING_PAGE && forall i | 0 <= i < RUNNING_PAGE :: RunOrder(t, r, listed[i]))
  }

  predicate IsDue(t: Tables, now: Time, j: int) {
    j in t.jobs && t.jobs[j].enabled && t.jobs[j].nextRunAt.Some? && TextAtMost(t.jobs[j].nextRunAt.value, now)
  }

  /** The result of ListDue: next_run_at is compared as text. */
  ghost predicate DueListing(t: Tables, now: Time, due: seq<DueEntry>) {
    && (forall i | 0 <= i < |due| :: IsDue(t, now, due[i].jobId) && due[i].job == t.jobs[due[i].jobId])
    && (forall i, k | 0 <= i < k < |due| ::
          && due[i].jobId != due[k].jobId && TextAtMost(due[i].job.nextRunAt.value, due[k].job.nextRunAt.value)
          && (due[i].job.nextRunAt == due[k].job.nextRunAt ==> due[i].jobId < due[k].jobId))
    && (forall j <- t.jobs | IsDue(t, now, j) :: DueEntry(j, t.jobs[j]) in due)
  }

  // ---------- Actions ----------

  datatype Action =
    // the due-job loop
    | ScanStart(now: Time, due: seq<DueEntry>)
    | ScanJob(cronNext: Option<Time>, listed: seq<int>, createdAt: Time, commit: bool)
    // the dispatch loop
    | ReadFree
    | ListPending(listed: seq<int>)
    | Spawn(w: int)
    | StopRound
    // a worker; a read that fails ends it
    | LoadRun(w: int, ok: bool)
    | LoadJob(w: int, ok: bool)
    | Claim(w: int, startedAt: Time, finishedAt: Time, commit: bool)
    | CancelBeforeExecute(w: int, finishedAt: Time, commit: bool)
    | Execute(w: int)
    | Return(w: int, outcome: Outcome)
    | Finalize(w: int, finishedAt: Time, createdAt: Time, commit: bool)
    | Release(w: int)
    // the services
    | CancelRead(c: int, runId: int)
    | CancelCommit(c: int, commit: bool)
    | CancelAtOnce(runId: int)               // the read and the write of CancelRun with nothing in between
    | Trigger(jobId: int, now: Time, createdAt: Time, commit: bool)
    | CreateJob(job: Job, now: Time, cronNext: Option<Time>)
    | UpdateRead(u: int, jobId: int, job: Job)
    | UpdateClock(u: int, now: Time, cronNext: Option<Time>)
    | UpdateCommit(u: int, jobId: int, commit: bool)
    | RemoveJob(jobId: int)
    // retention and process death
    | Prune(before: Time)
    | Crash

  /** The steps that delete run rows. */
  predicate Deletes(a: Action) {
    a.Prune? || a.RemoveJob?
  }

  /** The steps that replace the definition of job j. */
  predicate Replaces(a: Action, j: int) {
    a.UpdateCommit? && a.commit && a.jobId == j
  }

  ghost predicate Enabled(s: System, a: Action) {
    match a
    case ScanStart(now, due) => s.scan.NoScan? && DueListing(s.db, now, due)
    case ScanJob(_, listed, _, _) => s.scan.Scan? && s.scan.due != []
      && RunningListing(s.db, s.scan.due[0].jobId, listed)
    case ReadFree => s.dispatcher.Idle?
    case ListPending(listed) => s.dispatcher.Free? && PendingListing(s.db, s.dispatcher.available, listed)
    case Spawn(w) => s.dispatcher.Round? && s.dispatcher.left != [] && s.tokens < s.capacity && w !in s.workers
    case StopRound => !s.dispatcher.Idle?
    case LoadRun(w, _) => w in s.workers && s.workers[w].phase.Spawned?
    case LoadJob(w, _) => w in s.workers && s.workers[w].phase.RunLoaded?
    case Claim(w, _, _, _) => w in s.workers && s.workers[w].phase.Loaded?
    case CancelBeforeExecute(w, _, _) => w in s.workers && s.workers[w].phase.Claimed?
    case Execute(w) => w in s.workers && s.workers[w].phase.Claimed?
    case Return(w, o) =>
      && w in s.workers && s.workers[w].phase.Executing?
      && (o.ctxErr == Some(DeadlineExceeded) ==> s.workers[w].phase.job.timeoutSec > 0)
    case Finalize(w, _, _, _) => w in s.workers && s.workers[w].phase.Returned?
    case Release(w) => w in s.workers && s.workers[w].phase.Finished?
    case CancelRead(c, _) => c !in s.cancels
    case CancelCommit(c, _) => c in s.cancels
    case CreateJob(job, now, cronNext) => ComputeNextRunAt(job.schedule, now, cronNext).Some?
    case UpdateRead(u, _, _) => u !in s.updates
    case UpdateClock(u, _, _) => u in s.updates && !s.updates[u].timed
    case UpdateCommit(u, jobId, _) => u in s.updates && s.updates[u].timed && s.updates[u].jobId == jobId
    case _ => true
  }

  function SetPhase(s: System, w: int, phase: Phase): System
    requires w in s.workers
  {
    s.(workers := s.workers[w := s.workers[w].(phase := phase)])
  }

  /** The tables after a transaction that committed, or the old ones after a rollback. */
  function Outcomes(t: Tables, after: Option<Tables>, commit: bool): Tables {
    if commit && after.Some? then after.value else t
  }

  function ApplyScanJob(s: System, cronNext: Option<Time>, listed: seq<int>, createdAt: Time, commit: bool): System
    requires s.scan.Scan? && s.scan.due != []
  {
    var e := s.scan.due[0];
    var rest := if |s.scan.due| == 1 then NoScan else Scan(s.scan.now, s.scan.due[1..]);
    s.(scan := rest, db := Outcomes(s.db, DueResult(s, cronNext, listed, createdAt), commit))
  }

  /** What the transaction for the first due entry would leave; None also when no next run time can be computed. */
  function DueResult(s: System, cronNext: Option<Time>, listed: seq<int>, createdAt: Time): Option<Tables>
    requires s.scan.Scan? && s.scan.due != []
  {
    var e := s.scan.due[0];
    if e.job.nextRunAt.None? then None
    else
      var next :- ComputeNextRunAt(e.job.schedule, s.scan.now, cronNext);
      DueTx(s.cfg, s.db, e.jobId, e.job, s.scan.now, next, listed, createdAt)
  }

  function ApplyClaim(s: System, w: int, startedAt: Time, finishedAt: Time, commit: bool): System
    requires w in s.workers && s.workers[w].phase.Loaded?
  {
    var me := s.workers[w];
    var res := ClaimTx(s.db, me.runId, startedAt, finishedAt);
    if !commit || res.None? then SetPhase(s, w, Finished)
    else
      var s1 := s.(db := res.value.tables);
      if res.value.verdict.Claimed? then
        SetPhase(s1, w, Phase.Claimed(me.phase.run.(startedAt := Some(startedAt)), me.phase.job))
      else SetPhase(s1, w, Finished)
  }

  function ApplyCancelRead(s: System, c: int, runId: int): System {
    if runId !in s.db.runs then s
    else
      var target := CancelTarget(s.db.runs[runId].status);
      if target.None? then s
      else s.(cancels := s.cancels[c := CancelCall(runId, target.value, s.db.runs[runId])])
  }

  function ApplyCancelAtOnce(s: System, runId: int): System {
    if runId !in s.db.runs then s
    else
      var target := CancelTarget(s.db.runs[runId].status);
      if target.None? then s else s.(db := CancelWrite(s.db, runId, target.value, s.db.runs[runId]))
  }

  function WithNext(job: Job, now: Time, cronNext: Option<Time>): Job {
    job.(nextRunAt := ComputeNextRunAt(job.schedule, now, cronNext))
  }

  /** UpdateJob keeps the last slot of the row it has read. */
  function AfterUpdateRead(s: System, u: int, jobId: int, job: Job): map<int, UpdateCall> {
    if jobId !in s.db.jobs then s.updates
    else s.updates[u := UpdateCall(jobId, job.(lastScheduledAt := s.db.jobs[jobId].lastScheduledAt), false)]
  }

  /** Its clock reading; an UpdateJob that cannot compute a next run time ends. */
  function AfterUpdateClock(s: System, u: int, now: Time, cronNext: Option<Time>): map<int, UpdateCall>
    requires u in s.updates
  {
    var call := s.updates[u];
    var job := WithNext(call.job, now, cronNext);
    if job.nextRunAt.None? then s.updates - {u} else s.updates[u := UpdateCall(call.jobId, job, true)]
  }

  ghost function Apply(s: System, a: Action): System
    requires Enabled(s, a)
  {
    match a
    case ScanStart(now, due) => s.(scan := if due == [] then NoScan else Scan(now, due))
    case ScanJob(cronNext, listed, createdAt, commit) => ApplyScanJob(s, cronNext, listed, createdAt, commit)
    case ReadFree =>
      if s.tokens >= s.capacity then s else s.(dispatcher := Free(s.capacity - s.tokens))
    case ListPending(listed) => s.(dispatcher := if listed == [] then Idle else Round(listed))
    case Spawn(w) =>
      var left := s.dispatcher.left;
      s.(tokens := s.tokens + 1, workers := s.workers[w := Worker(left[0], Spawned)],
         dispatcher := if |left| == 1 then Idle else Round(left[1..]))
    case StopRound => s.(dispatcher := Idle)
    case LoadRun(w, ok) =>
      var id := s.workers[w].runId;
      SetPhase(s, w, if ok && id in s.db.runs then RunLoaded(s.db.runs[id]) else Finished)
    case LoadJob(w, ok) =>
      var run := s.workers[w].phase.run;
      SetPhase(s, w, if ok && run.jobId in s.db.jobs then Loaded(run, s.db.jobs[run.jobId]) else Finished)
    case Claim(w, startedAt, finishedAt, commit) => ApplyClaim(s, w, startedAt, finishedAt, commit)
    case CancelBeforeExecute(w, finishedAt, commit) =>
      var me := s.workers[w];
      SetPhase(s, w, Finished).(db := Outcomes(s.db, CancelBeforeExecuteTx(s.db, me.runId, me.phase.run, finishedAt),
                                               commit))
    case Execute(w) =>
      var p := s.workers[w].phase;
      SetPhase(s, w, Executing(p.run, p.job.(timeoutSec := EffectiveTimeout(s.cfg, p.job.timeoutSec))))
    case Return(w, outcome) =>
      var p := s.workers[w].phase;
      SetPhase(s, w, Returned(p.run, p.job, outcome))
    case Finalize(w, finishedAt, createdAt, commit) =>
      var me := s.workers[w];
      SetPhase(s, w, Finished).(db := Outcomes(s.db,
        FinalizeTx(s.db, me.runId, me.phase.run, me.phase.job, me.phase.outcome, finishedAt, createdAt), commit))
    case Release(w) => s.(workers := s.workers - {w}, tokens := if s.tokens > 0 then s.tokens - 1 else 0)
    case CancelRead(c, runId) => ApplyCancelRead(s, c, runId)
    case CancelCommit(c, commit) =>
      var call := s.cancels[c];
      s.(cancels := s.cancels - {c},
         db := if commit then CancelWrite(s.db, call.runId, call.target, call.read) else s.db)
    case CancelAtOnce(runId) => ApplyCancelAtOnce(s, runId)
    case Trigger(jobId, now, createdAt, commit) =>
      s.(db := Outcomes(s.db, TriggerTx(s.db, jobId, now, createdAt), commit))
    case CreateJob(job, now, cronNext) => s.(db := InsertJob(s.db, WithNext(job, now, cronNext)))
    case UpdateRead(u, jobId, job) => s.(updates := AfterUpdateRead(s, u, jobId, job))
    case UpdateClock(u, now, cronNext) => s.(updates := AfterUpdateClock(s, u, now, cronNext))
    case UpdateCommit(u, jobId, commit) =>
      s.(updates := s.updates - {u}, db := if commit then UpdateJob(s.db, jobId, s.updates[u].job) else s.db)
    case RemoveJob(jobId) => s.(db := DeleteJob(s.db, jobId))
    case Prune(before) => s.(db := PruneTx(s.db, before))
    case Crash => s.(workers := map[], tokens := 0, dispatcher := Idle, scan := NoScan, cancels := map[],
                     updates := map[])
  }

  /** The state after a sequence of actions; None when one of them is not possible. */
  ghost function Exec(s: System, acts: seq<Action>): Option<System>
    decreases |acts|
  {
    if acts == [] then Some(s)
    else if !Enabled(s, acts[0]) then None
    else Exec(Apply(s, acts[0]), acts[1..])
  }

  lemma {:induction false} ExecSplit(s: System, a: seq<Action>, b: seq<Action>)
    ensures Exec(s, a + b) == (var mid := Exec(s, a); if mid.None? then None else Exec(mid.value, b))
    decreases |a|
  {
    if a == [] {
      assert a + b == b;
    } else if Enabled(s, a[0]) {
      assert (a + b)[1..] == a[1..] + b;
      ExecSplit(Apply(s, a[0]), a[1..], b);
    }
  }
}
