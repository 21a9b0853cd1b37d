/**
 The SQLite schema of internal/store as values: each SQL statement the scheduler uses is a
 function on the three tables.  None stands for a statement the schema rejects.
 */
module Tables {
  import opened Model

  datatype Tables = Tables(
    jobs: map<int, Job>,
    runs: map<int, Run>,
    events: seq<RunEvent>,
    jobSeq: nat,   // AUTOINCREMENT high-water marks: ids are never reused
    runSeq: nat)

  /** What the schema enforces: key ranges, foreign keys and UNIQUE(job_id, scheduled_at, attempt). */
  ghost predicate Schema(t: Tables) {
    && (forall r <- t.runs :: 1 <= r <= t.runSeq && t.runs[r].jobId in t.jobs)
    && (forall j <- t.jobs :: 1 <= j <= t.jobSeq)
    && (forall r <- t.runs, q <- t.runs :: t.runs[r].Key() == t.runs[q].Key() ==> r == q)
    && (forall i | 0 <= i < |t.events| :: t.events[i].runId in t.runs)
  }

  predicate KeyTaken(t: Tables, key: RunKey) {
    exists r <- t.runs :: t.runs[r].Key() == key
  }

  function InsertRun(t: Tables, run: Run): Option<Tables> {
    if run.jobId !in t.jobs || KeyTaken(t, run.Key()) then None
    else Some(t.(runs := t.runs[t.runSeq + 1 := run], runSeq := t.runSeq + 1))
  }

  function InsertEvent(t: Tables, runId: int, kind: EventType): Option<Tables> {
    if runId !in t.runs then None else Some(t.(events := t.events + [RunEvent(runId, kind)]))
  }

  /** An UPDATE of a missing row affects nothing and is no error. */
  function UpdateStatus(t: Tables, id: int, status: RunStatus, startedAt: Option<Time>, finishedAt: Option<Time>,
                        exitCode: Option<int>, errorMessage: Option<Message>): Tables
  {
    if id !in t.runs then t
    else t.(runs := t.runs[id := t.runs[id].(status := status, startedAt := startedAt, finishedAt := finishedAt,
                                             exitCode := exitCode, errorMessage := errorMessage)])
  }

  predicate Claimable(t: Tables, id: int) {
    id in t.runs && t.runs[id].status.Pending?
  }

  function ClaimPending(t: Tables, id: int, startedAt: Time): Tables {
    if !Claimable(t, id) then t
    else t.(runs := t.runs[id := t.runs[id].(status := Running, startedAt := Some(startedAt))])
  }

  function UpdateLogArtifacts(t: Tables, id: int, logPath: Option<string>, resultPath: Option<string>): Tables {
    if id !in t.runs then t
    else t.(runs := t.runs[id := t.runs[id].(logPath := logPath, resultPath := resultPath)])
  }

  function UpdateScheduling(t: Tables, id: int, next: Time, last: Time): Tables {
    if id !in t.jobs then t
    else t.(jobs := t.jobs[id := t.jobs[id].(nextRunAt := Some(next), lastScheduledAt := Some(last))])
  }

  function InsertJob(t: Tables, job: Job): Tables {
    t.(jobs := t.jobs[t.jobSeq + 1 := job], jobSeq := t.jobSeq + 1)
  }

  function UpdateJob(t: Tables, id: int, job: Job): Tables {
    if id !in t.jobs then t else t.(jobs := t.jobs[id := job])
  }

  /** Events of the other runs, in their order: the cascade of deleting the runs in gone. */
  function KeepEvents(events: seq<RunEvent>, gone: set<int>): (kept: seq<RunEvent>)
    ensures forall i | 0 <= i < |kept| :: kept[i] in events && kept[i].runId !in gone
  {
    if events == [] then []
    else
      var last := events[|events| - 1];
      KeepEvents(events[..|events| - 1], gone) + if last.runId in gone then [] else [last]
  }

  function DeleteRuns(t: Tables, gone: set<int>): Tables {
    t.(runs := t.runs - gone, events := KeepEvents(t.events, gone))
  }

  function RunsOfJob(t: Tables, id: int): set<int> {
    set r | r in t.runs && t.runs[r].jobId == id
  }

  /** Deleting a job deletes its runs and their events. */
  function DeleteJob(t: Tables, id: int): Tables {
    DeleteRuns(t, RunsOfJob(t, id)).(jobs := t.jobs - {id})
  }
}
