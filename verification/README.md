# Job runner: verified model

A Dafny model of a job scheduler that keeps jobs, runs and run events in SQLite, executes runs in
worker goroutines, and prunes, lists images and serves logs beside that. `dafny verify dfyconfig.toml`
checks everything.

## What is modelled

**The run lifecycle** (`Model`, `Tables`, `Transactions`, `Lifecycle`). The tables are values; each
SQL statement and each transaction is a function on them, with `None` for a statement that the schema
or the driver rejects. `Lifecycle` is a step relation over the tables, the worker tokens and the local
state of every actor: the due-job loop with the page it has read, the dispatch loop with its round,
each worker's phase, each CancelRun between its read and its write, and each UpdateJob between its
read, its clock reading and its write. One transaction, or one statement outside a transaction, is one
step, because the pool has a single connection. Every transaction may roll back, every read may fail,
and the process may crash at any point and lose everything but the tables. Clock readings and
execution outcomes are arbitrary. `Listings` gives the pages that the queries return, in the order and
with the limit of their SQL text.

On that relation: an invariant that every step keeps (`Invariant`), at most one execution per row
(`ExecuteOnce`), an exact account of who may change a row (`RowSteps`), when a finished row is final
(`TerminalStability`), the retry chain (`RetryChain`), a bound on claims and executions (`WorkBound`),
the event log against the status (`EventLog`), the slots of the due-job loop (`SlotProgress`), what an
update that races a scan does to them (`RacedUpdate`), which rows can still end and free their key and
which never can (`Paths`, `Holders`, `DeadRows`), whether a job can fire again at all (`Continuations`), recovery of
a forbid job from a hung run (`ForbidRecovery`), what a crash leaves behind (`Orphans`, `SkippedForEver`),
and runs from the empty database to the states in which properties fail (`Reached`, `SharedLog`).

What each step writes is also said without the functions that specify the transactions, in terms of the
columns, the settings and the readings of the clock alone: how an execution is recorded and when it is
retried (`Outcomes`, `FinishedRuns`), claims, cancellations and deletions (`RowWrites`), the next run
time, the slot's row and the rows that a scan closes (`JobChanges`), timeouts (`Timing`), and the files
that a retention pass takes (`FilePhases`). `Loops` says how the two loops go through the lists they
have read.

**The same operations in place** (`Store`, `Actors`, `Dispatch`). Classes with the tables as fields
and the statements as methods; transactions run statement by statement under any pattern of driver
failures and either commit exactly what the functions above say or leave the tables as they were. The
worker, the due-job loop, CancelRun and UpdateJob are objects whose methods are proved to take the steps
of `Lifecycle`, one each, so what is proved of the step relation holds of them.

**Stored instants** (`Instants`). SQL compares instants as RFC 3339 texts with trailing zeros of the
fraction removed. The encoder and decoder are modelled digit by digit, and the order of the texts is
related to the order of time.

**Retention** (`ManagedFiles`, `Retention`, `Pruning`). A pass over rows and files as functions, and
the pruner's loops in place over a file system whose calls may fail.

**Remote images** (`ImageRef`, `TagCache`, `TagFanout`). The reference splitter, the tag cache under
concurrent callers, and the fan-out of ListCandidates with its semaphore, channels and cancellation.

**Log reading** (`LogReader`, `Utf8`). Reading by offset while the file grows, the run page and its
polling script, and the text that JSON makes of bytes.

## Where the code is not what one would expect

- Text order is not time order within one second when one trimmed fraction continues the other
  (`Instants.TextOrder`); so a row can be deleted although it finished after the cutoff, and then its
  files stay, for good (`Retention.RowAndFilesAgreeIff`, `Retention.LaterRowsLeaveTheirFiles`,
  `Retention.OrphanedFileStays`).
- A finished row is not final while its worker has not finalized it or a CancelRun still holds an old
  read of it (`TerminalStability.TerminalIsFinalIff`, `TerminalStability.TerminalIsFinalUntilDeletionIff`;
  a run in which a row closed as timeout becomes success: `Reached.FinishedRowChanges`).
- A CancelRun that writes after its row has left the status it read contradicts the row's last event
  (`EventLog.AgreementBreaksIff`; a run in which it does: `Reached.CancelContradictsLog`).
- An UpdateJob writes a next run time computed before a scan that has come in between, so a job can
  consume a slot before its last one, and its last slot is forgotten (`RacedUpdate.SlotsCanGoBack`,
  `RacedUpdate.LastSlotIsForgotten`). `Continuations.UpdateCanGoBackIff` says exactly when, and
  `SlotProgress.SlotsIncrease` holds whenever no scan of the job comes between an update's clock reading
  and its write, or the time written is later than the last slot all the same.
- README.md of the repository says that run states are reconciled by normal recovery after a crash. The
  code reconciles only stale `running` rows of forbid jobs with an effective timeout, and only while the
  job can still fire: a `cancelling` row never finishes after a crash (`Orphans.CrashStrandsCancelling`),
  and a `running` row does in some continuation exactly under those conditions
  (`Orphans.RunningRowClosesIff`). With a forbid job and no timeout, every later slot is skipped, whatever
  retention does (`SkippedForEver.CrashSkipsForEver`; a run with such a slot: `Reached.SkipIsReached`).
- A due slot is not consumed when a manual trigger has taken its key (`SlotProgress.DueCommitsIff`), and
  then the job does not fire while that row is there, unless the job is replaced
  (`Continuations.TakenSlotBlocksForEver`; a run to such a state: `Reached.TriggerBlocksTheJob`). It can
  fire again exactly when that row can still end, so that retention may delete it
  (`Continuations.FiresAgainIff`); which rows can is said by `DeadRows.RowEndsIff`.
- A forbid slot is skipped because of `running` rows only; pending and cancelling rows do not count
  (`ForbidRecovery.SkippedIff`).
- A caller that cancels ListCandidates can get an empty list and no error, whatever there is to list
  (`TagFanout.CancelledListingCanBeIncomplete`); a list without an error is complete exactly when nobody
  with tags to bring left early (`TagFanout.ListingIsCompleteIff`).
- Later tag lookups can be older than earlier ones (`TagCache.LaterCallSeesOlderTags`,
  `TagCache.NextCallSeesOlderTagsIff`); they are not where calls for a repository do not overlap
  (`TagCache.CallsOneByOneSeeNewerTags`).
- Two rows that share a file make the storage cap count it twice (`Retention.ReportedBytesIff`; a run to
  two such rows, with twenty bytes reported for ten: `SharedLog.CapCountsTwice`).
- The files that the storage cap deletes are in the report's bytes but not in its file counts
  (`Pruning.Pruner.Run`).
- The run page shows the end of the log twice as soon as its first poll is answered
  (`LogReader.LogFile.RunPage`), and a character cut between two polls comes out as replacement
  characters (`LogReader.LogFile.Follow`, `Utf8.TextsJoinIff`).

## Model

| member | source | states |
|---|---|---|
| Store.Database.CreateRun | internal/store/run_repo.go:21-54 | a row is inserted under a new id exactly when its job exists, its (job, slot, attempt) is free and the driver does not fail; otherwise nothing changes |
| Store.Database.ClaimPending | internal/store/run_repo.go:189-206 | the compare-and-set: true exactly for a pending row, which becomes running with the start time; any other row is untouched |
| Store.Database.UpdateStatus | internal/store/run_repo.go:168-187 | the five status columns are overwritten whatever the row was; a missing id is no error |
| Store.Database.UpdateLogArtifacts | internal/store/run_repo.go:208-221 | only the two path columns change |
| Store.Database.DeleteTerminalBefore | internal/store/run_repo.go:293-306 | exactly the terminal rows finished before the cutoff as text go, with their events; the count is theirs |
| Store.Database.CreateEvent | internal/store/event_repo.go:20-45 | an event is appended exactly when its run exists |
| Store.Database.UpdateScheduling | internal/store/job_repo.go:211-222 | only the next and last times of one job change |
| Store.Database.DeleteJob | internal/store/job_repo.go:203-209 | a job goes with its runs and their events, and nothing else |
| Store.Database.End | internal/store/db.go:82-104 | the end of WithinTx: it commits exactly when its function returned no error and the commit did not fail; otherwise the tables are what they were at the beginning |
| Store.Engine.ClaimRun | internal/scheduler/worker.go:30-78 | under any statement failures: the verdict and tables of the claim transaction, or a rollback; without failures it commits |
| Store.Engine.CancelBeforeExecute | internal/scheduler/worker.go:89-107 | the claimed row becomes cancelled with its event, or nothing changes; without failures it commits |
| Store.Engine.CreateRetry | internal/scheduler/worker.go:240-263 | under any failures: where the retry limit is positive and above the run's attempt, a pending row for the next attempt of the slot and its created event; elsewhere nothing |
| Store.Engine.FinalizeRun | internal/scheduler/worker.go:127-215 | row, paths, event and retry row commit together or not at all, for every outcome and every failure; a commit leaves the status, exit code, message, paths and event that belong to what Execute returned and to the context's error, and a retry row exactly if the execution failed, was not cancelled and the limit is above the attempt |
| Store.Engine.CloseStale | internal/scheduler/due_job.go:184-215 | a stale row becomes timeout with its event, column by column: it began when it says, or when it was created |
| Store.ReclaimTurn | internal/scheduler/due_job.go:61-81 | each listed row is judged as the listing showed it: no earlier turn of the loop has touched it |
| Store.Engine.ReclaimStale | internal/scheduler/due_job.go:61-81 | the loop closes exactly the stale listed rows and returns the others in order |
| Store.Engine.ProcessDueJob | internal/scheduler/due_job.go:48-130 | with the running rows that the query lists in the transaction: reclaims, the slot's row, its event and the schedule commit together or not at all, and without failures they commit whenever they can; a commit moves the next run time to the reading plus the interval, or to the cron library's answer, and records the slot |
| Store.Engine.CreateJob | internal/service/job_service.go:106-127 | a job is stored with the next run time that is the reading plus the interval, or the cron library's answer; it is not stored exactly if the driver fails or there is no such time |
| Store.Engine.TriggerJob | internal/service/job_service.go:164-199 | a pending attempt-0 row at the trigger time with its event, or nothing; without failures it commits when the job exists and the key is free |
| Store.Engine.CancelRun | internal/service/run_service.go:29-49 | pending becomes cancelled, running and cancelling become cancelling, anything else is returned unchanged; no event, no finish time; an error only for a missing row or a failing statement |
| Store.WorkerTokens.Acquire | internal/scheduler/scheduler.go:150-160 | a context that has ended is refused; else a free token is taken unless the context ends meanwhile; it waits exactly when no token is free and the context goes on |
| Store.WorkerTokens.Release | internal/scheduler/scheduler.go:162-167 | a token is given back, or the default branch is taken exactly when none is held |
| Actors.RunWorker.ReadRun | internal/scheduler/worker.go:14-19 | the LoadRun step: a row that cannot be read ends the worker |
| Actors.RunWorker.ReadJob | internal/scheduler/worker.go:21-25 | the LoadJob step |
| Actors.RunWorker.ClaimOrStop | internal/scheduler/worker.go:27-87 | the Claim step, under any failures; the worker goes on if and only if it committed and the row was pending |
| Actors.RunWorker.GiveUp | internal/scheduler/worker.go:89-107 | the CancelBeforeExecute step |
| Actors.RunWorker.CallExecute | internal/scheduler/worker.go:109-117 | the Execute step, with the timeout in the configuration's terms: the job's own up to the maximum, or 86400 seconds without one; for 0 none where that is allowed, else the default, else 3600 seconds; a deadline exactly for a positive one |
| Actors.RunWorker.TakeOutcome | internal/scheduler/worker.go:117-125 | the Return step |
| Actors.RunWorker.FinalizeOutcome | internal/scheduler/worker.go:127-217 | the Finalize step, under any failures |
| Actors.DueJobLoop.List | internal/scheduler/due_job.go:33-39 | the ScanStart step with the jobs the query lists; nothing when the query fails |
| Actors.DueJobLoop.ProcessNext | internal/scheduler/due_job.go:41-57 | the ScanJob step with the running rows the query lists, under any failures, also when no next run time can be computed |
| Loops.ScanTakesEach | internal/scheduler/due_job.go:41-46 | over any interleaving without a crash, also when transactions fail: after k turns of the due-job loop the first k jobs of its list are gone from it, and its clock reading is still the list's |
| Loops.RoundTakesEach | internal/scheduler/dispatch.go:46-57 | over any interleaving in which a round is not ended: its k-th worker is started for the k-th run of its list |
| Actors.CancelRequest.Read | internal/service/run_service.go:29-41 | the CancelRead step; a failing read ends the call |
| Actors.CancelRequest.Write | internal/service/run_service.go:43-48 | the CancelCommit step: the columns read before are written over whatever the row has become |
| Actors.UpdateRequest.Read | internal/service/job_service.go:135-142 | the UpdateRead step: the last slot is the one of the row read; a missing job or a failing read ends the call |
| Actors.UpdateRequest.ReadClock | internal/service/job_service.go:144-151 | the UpdateClock step: the next run time is this reading of the clock plus the interval, or the cron library's answer; without one the call ends |
| Actors.UpdateRequest.Write | internal/service/job_service.go:153-155 | the UpdateCommit step: what was read and computed is written over whatever the schedule has become |
| Listings.PendingPageLists | internal/store/run_repo.go:223-252 | a listing that the dispatch loop can be given is this page and no other; a limit that is not positive stands for 100 |
| Listings.PendingPageIsOldest | internal/store/run_repo.go:223-252 | pending rows by slot text and then id, up to the limit; what the page misses comes after all of it |
| Listings.RunningPageLists | internal/store/run_repo.go:66-127 | a listing that the due-job loop can be given is this page and no other |
| Listings.RunningPageIsNewest | internal/scheduler/due_job.go:61-66 | the first 100 running rows of the job, the latest slot text and then the largest id first |
| Listings.DueListLists | internal/store/job_repo.go:224-251 | ListDue gives a listing of the jobs that are due |
| Listings.DueListIsWhole | internal/store/job_repo.go:224-251 | every enabled job whose next run time is at most now as text, once, in order of that text and then id, and no other job |
| Listings.TerminalPageLists | internal/store/run_repo.go:254-291 | a listing that the pruner can be given is this page and no other |
| Listings.TerminalPageIsOldest | internal/store/run_repo.go:254-291 | rows with one of the five terminal statuses that finished before now as text, by finish text and then id, the first 100000 |
| Dispatch.Scheduler.SpawnAll | internal/scheduler/dispatch.go:46-57 | with workers ending at any time, no token the page needs has to be waited for; the workers started are a prefix of the page, all of it unless the context ends |
| Dispatch.Scheduler.Round | internal/scheduler/dispatch.go:31-57 | one round starts a worker for each run of the page listed for the tokens free when it begins, capacity less tokens held, or ends the rounds because no token is free, the listing fails or is empty, or the context ends |
| Dispatch.Scheduler.ProcessDispatch | internal/scheduler/dispatch.go:30-59 | while others write between the rounds: page i is the oldest pending runs, as many as there are tokens free when round i begins, counted from the workers started and ended by then; the workers started are exactly the pages in order, but for the last one under an ended context; the rounds end for one of those four reasons and for no other; tokens held stay equal to the live workers |
| Dispatch.Scheduler.Finish | internal/scheduler/scheduler.go:162-167 | every worker that ends finds its token: the default branch of the release is never taken |
| Invariant.ClaimKeeps | internal/scheduler/worker.go:30-78 | the claim transaction keeps schema and row shapes and leaves no row less advanced |
| Invariant.FinalizeEffect | internal/scheduler/worker.go:127-215 | a committed finalization is one rewritten row, its event, and at most one retry row with its event |
| Invariant.FinalizeKeeps | internal/scheduler/worker.go:127-215 | the same transaction keeps schema, shapes, keys and the absence of new pending statuses |
| Outcomes.OutcomeIsRecorded | internal/scheduler/worker.go:127-215 | the last transaction commits exactly when the row is there and the key of the retry it wants, if any, is free; what it leaves is said in terms of the execution's error, the context's error and the result alone |
| FinishedRuns.RowTellsOutcome | internal/scheduler/worker.go:127-200 | after a committed finalization the row is success exactly without an error, else timeout exactly if the deadline was exceeded, else cancelled exactly if the context was cancelled, else failed, with the exit code, message, last event and both paths of its case; no other row changes |
| FinishedRuns.RetryIff | internal/scheduler/worker.go:240-263 | a committed finalization leaves a new pending row for the slot's next attempt, with a created event, if and only if the execution failed, was not cancelled, and the attempt is below the retry limit |
| Invariant.ReclaimKeeps | internal/scheduler/due_job.go:61-81 | the loop rewrites exactly the stale listed rows and leaves keys, jobs and ids alone |
| Invariant.DueKeeps | internal/scheduler/due_job.go:48-130 | a committed due-job transaction changes existing rows by reclaiming only, and keeps the schema |
| Invariant.AddRunCommitsIff | internal/store/db.go:155-164 | an insert commits exactly when the job exists and the key is free |
| Invariant.CancelWriteKeeps | internal/service/run_service.go:35-46 | the unconditional write of CancelRun keeps schema and shapes and never makes a row pending |
| Invariant.DeleteKeeps | internal/store/run_repo.go:293-306 | deletions cascade: no event is left without its run |
| Invariant.InvStep | internal/scheduler/worker.go:14-218 | every step of every actor keeps the invariant: keys never change, ids are not reused, no row returns to pending, none becomes or stops being skipped |
| Invariant.InvExec | internal/scheduler/scheduler.go:150-167 | the invariant holds after any interleaving |
| Invariant.OwnerStep | internal/scheduler/worker.go:53-69 | a worker comes to own a row only by claiming it while pending |
| ExecuteOnce.MayExecuteStep | internal/scheduler/worker.go:30-117 | no step makes a row executable again, and executing uses it up |
| ExecuteOnce.AtMostOncePerRow | internal/scheduler/worker.go:30-117 | in every run of the system Execute is called at most once per row, and never for a row that may not be executed |
| ExecuteOnce.KeyHeldStep | internal/store/db.go:119-165 | while no retention delete takes a row with the key: a worker that has loaded a run with the key has its row or has lost its job for good, and all owners of such runs have the same row |
| ExecuteOnce.MayExecuteKeyStep | internal/store/db.go:156 | no such step makes a run with the key executable again, also when its row goes with its job |
| ExecuteOnce.AtMostOncePerKey | internal/store/db.go:156 | at most one execution per (job, slot, attempt) in every run in which no retention delete takes a row with that key; jobs may be removed, that one included, and other rows deleted |
| ExecuteOnce.TokenConservation | internal/scheduler/dispatch.go:30-59 | in every reachable state tokens equal live workers and are within capacity, a round can always take its token, a release always finds one, and executing workers have different rows |
| RowSteps.RowStep | internal/store/run_repo.go:168-206 | every change of an existing row and its log is a claim, a stop, the owner's outcome, a reclaim, or a cancel write, with exactly those columns |
| RowSteps.DueTakesSlot | internal/scheduler/due_job.go:110-129 | a committed scan adds one attempt-0 row at the old next run time and advances one job's schedule |
| RowSteps.ReclaimLog | internal/scheduler/due_job.go:206-214 | the loop gives each stale listed row exactly one timeout event and no other row any |
| RowSteps.CancelStepOf | internal/service/run_service.go:29-40 | a pending CancelRun has read its row as non-terminal |
| RowWrites.ClaimTells | internal/scheduler/worker.go:30-78 | the claim makes a pending row running with its start time and its event, and a cancelling one cancelled with its finish time and its event; it leaves any other row alone, and only the first lets the worker go on |
| RowWrites.GiveUpTells | internal/scheduler/worker.go:89-107 | a worker that gives up before Execute leaves its row cancelled with its event and the columns it had loaded, or nothing changed |
| RowWrites.CancelSetsStatus | internal/service/run_service.go:29-49 | a CancelRun over both its steps, with anything between them: it writes exactly if it has read a pending, running or cancelling row, then cancelled for the first and cancelling for the others, over whatever the row is by then |
| RowWrites.CancelAtOnceSetsStatus | internal/service/run_service.go:29-49 | with nothing between them the status is all that changes |
| RowWrites.RemoveJobTakes | internal/store/job_repo.go:203-209 | removing a job takes exactly the job, its runs and their events |
| RowWrites.PruneTakes | internal/store/run_repo.go:293-306 | retention takes exactly the rows with a terminal status that finished before the cutoff as text, and their events |
| TerminalStability.SettledIsFrozen | internal/store/run_repo.go:168-187 | a terminal row without owner and without a pending CancelRun keeps every column until it is deleted |
| TerminalStability.SkippedIsFrozen | internal/scheduler/due_job.go:83-108 | a skipped row is frozen from the start |
| TerminalStability.GoneForever | internal/store/db.go:119-165 | a deleted row never comes back under its id |
| TerminalStability.TerminalIsFinalIff | internal/store/run_repo.go:168-187 | unless its owner cannot commit: a terminal row can get another status in some continuation if and only if its owner has not finalized, or a CancelRun with an old read is about to write another status |
| TerminalStability.TerminalIsFinalUntilDeletionIff | internal/scheduler/worker.go:127-215 | in every state: before the next deletion a terminal row can get another status if and only if such a writer is left that can commit, a retry whose key is taken being one that cannot |
| RetryChain.RetryHasParent | internal/scheduler/worker.go:147-211 | every retry row goes back to one committed failed or timed-out finalization of the attempt before it, by the worker that had claimed it |
| RetryChain.AttemptsAreContiguous | internal/scheduler/worker.go:240-263 | without deletions, the attempts of a slot are 0..k without a gap |
| RetryChain.RetryNeverCollides | internal/store/db.go:156 | without deletions, the retry insert never violates UNIQUE, so the finalization commits |
| RetryChain.TerminalIsFinalWhereNothingIsDeleted | internal/store/run_repo.go:168-187 | the exact condition for finality holds in every state reached without deletions |
| RetryChain.AttemptsWithinLimit | internal/scheduler/worker.go:164-172 | no attempt exceeds the retry limit of a job that is not replaced, whatever is created, replaced or deleted besides |
| FinishedRuns.FailedRunIsRetriedIff | internal/scheduler/worker.go:164-211 | over whole runs without deletions: a run finalized as failed or timed out has been followed by a row for the next attempt if and only if its attempt is below the retry limit of its job, which is not replaced |
| FinishedRuns.FailedWasFinalized | internal/scheduler/worker.go:147-200 | in every reachable state a row that says failed, or timed out by its deadline, goes back to a finalization that recorded it |
| FinishedRuns.SlotIsExhausted | internal/scheduler/worker.go:240-263 | in every state reached without deletions: if the last attempt of a slot says failed, or timed out by its deadline, the slot's attempts are exactly 0 up to the retry limit of its job, where that has not been replaced |
| WorkBound.BacklogStep | internal/scheduler/worker.go:53-69 | the backlog drops with every claim, or every execution, and rises only with a new slot or trigger, by its attempts; jobs may be created, replaced and deleted within their limits |
| WorkBound.BacklogBoundsWork | internal/scheduler/worker.go:202-210 | the backlog and what new slots bring bound all claims and all executions still to come, through retries, crashes and deletions |
| WorkBound.EveryExecutionIsPaidFor | internal/scheduler/worker.go:240-263 | from the empty database, claims and executions are at most one for each slot or trigger taken and its retries |
| EventLog.LogsFit | internal/scheduler/worker.go:36-107 | in every reachable state a log starts with created or is skipped alone, started comes at most once and second, then only final events, and it matches the status as far as torn cancels allow |
| EventLog.LastEventTellsStatus | internal/service/run_service.go:29-49 | with CancelRun taken as one step, the last event determines the status |
| EventLog.AgreementBreaksIff | internal/service/run_service.go:35-46 | one step makes a status disagree with the last event exactly when it is the write of a CancelRun whose row, still there, has left the status the target is for: pending for cancelled, running for cancelling, or the target itself |
| EventLog.AlwaysAgreesIff | internal/service/run_service.go:29-49 | over whole runs: last events tell the statuses all along if and only if no such late write occurs |
| SlotProgress.ConsumedSlot | internal/scheduler/due_job.go:110-138 | each committed scan inserts exactly one row, attempt 0 at the old next run time, and computes the next time from the scan's clock |
| SlotProgress.DueCommitsIff | internal/scheduler/due_job.go:48-130 | the slot is consumed exactly when the job exists and no row has its key |
| JobChanges.ScanChangesIff | internal/scheduler/due_job.go:48-130 | a scan of a job changes the tables if and only if it does not fail, the job has a next run time and another can be had, the job is there and no row has the slot's key |
| JobChanges.ScanSetsNextRun | internal/scheduler/due_job.go:122-158 | a scan that does moves the next run time to the scan's reading of the clock plus the interval, or to the cron library's answer, records the slot, and changes no other job |
| JobChanges.ScanAddsRow | internal/scheduler/due_job.go:83-121 | it adds one row at the old next run time: skipped, with the first row of the page that is not overdue and the next run time in its message, if there is one and the job is a forbid job, else pending |
| JobChanges.ScanClosesIff | internal/scheduler/due_job.go:61-81 | a row that was there is closed, and otherwise left as it is with its log, if and only if the job is a forbid job, the row is on the page, and it has been running for the timeout or longer |
| JobChanges.CreateSetsNextRun | internal/service/job_service.go:106-127 | CreateJob stores the job as asked for, with the next run time after its reading of the clock, and cannot do so exactly if there is none |
| JobChanges.UpdateSetsNextRun | internal/service/job_service.go:129-158 | an UpdateJob over its three steps, with anything between them: it ends without a write exactly if no next run time can be had, and else writes the job as asked for with the next run time after its own reading and the last slot of the row it had read |
| JobChanges.TriggerAddsRow | internal/service/job_service.go:164-199 | TriggerJob adds a pending attempt-0 row at its reading of the clock with its event, or changes nothing exactly if it fails, the job is gone or a row has the key |
| SlotProgress.SlotsIncrease | internal/store/job_repo.go:224-252 | over any interleaving with clocks that do not go back, a job's slots strictly increase, even under text comparison, as long as no scan of it comes between an update's clock reading and its write, or the time written is after the last slot all the same |
| SlotProgress.SlotsIncreaseFromInit | internal/service/job_service.go:106-158 | the same from the empty database, through job creation and such updates |
| RacedUpdate.SlotsCanGoBack | internal/service/job_service.go:129-158 | a run with well-behaved clocks in which a scan comes between an update's clock reading and its write, and the job consumes an earlier slot after a later one |
| RacedUpdate.LastSlotIsForgotten | internal/service/job_service.go:140-155 | in that run the update takes back the record of the slot consumed meanwhile |
| Continuations.UpdateCanGoBackIff | internal/service/job_service.go:144-155 | after an update has written, the job consumes a slot up to the last one in some continuation if and only if the time written is no later, the job is meant to fire at it, and no row holds the slot's key that cannot end; continuations have any interleaving, failures and deletions and well-behaved cron answers, and neither replace nor remove the job |
| Continuations.FiresAgainIff | internal/scheduler/due_job.go:48-130 | with no scan in flight a job gets another slot in some such continuation if and only if it is enabled, has a next run time and a schedule, and no row holds that slot's key that cannot end |
| Continuations.TakenSlotBlocksForEver | internal/store/db.go:156 | as long as the row that holds the key of its next slot is not deleted, no scan moves a job's next run time and it never fires, unless it is replaced; other rows and jobs come and go |
| SlotProgress.SlotsAreSpaced | internal/scheduler/due_job.go:132-158 | for an unchanged interval each slot is one interval after the clock reading of the scan before |
| SlotProgress.SpacedApart | internal/scheduler/due_job.go:132-158 | k slots on, at least k intervals have passed, less at most a second each where only texts were in order |
| SlotProgress.NoCatchUp | docs/design.txt:485-486 | a window of width W holds at most W / interval + 1 slots |
| Holders.EndRow | internal/scheduler/worker.go:36-217 | from every state in which CanEnd holds of a row: steps that end it and leave running rows alone that nobody attends to, while owners that wait for its key keep their outcomes |
| Holders.FreeKey | internal/store/run_repo.go:293-306 | steps that free a key whose holder can end: it ends, and retention deletes it; running rows that nobody attends to stay |
| DeadRows.DeadStep | internal/scheduler/worker.go:30-78 | a row that cannot end stays, and stays so, at every step but its job's removal and a scan that commits for its job |
| DeadRows.RowEndsIff | internal/scheduler/worker.go:127-263 | in every state, a row comes to its end in some continuation without a scan of its job if and only if it has ended, or is pending and the workers that wait leave a token, or is or can be made cancelling with a worker coming for it, or has an owner that can commit, or its owner has returned and the row with the key of its retry can end while the owner waits |
| ForbidRecovery.NoYoungRowReclaimed | internal/scheduler/due_job.go:164-182 | a row is closed only when so many seconds have passed since it began to run: its job's own timeout where that is between 1 and the maximum; never where there is no timeout |
| ForbidRecovery.SkippedIff | internal/scheduler/due_job.go:61-108 | a forbid slot is skipped exactly when some listed running row has not been running for the timeout, in the configuration's terms |
| ForbidRecovery.RunningAllAlong | internal/scheduler/worker.go:53-69 | a row that is running at the end has been running unchanged since it was claimed |
| ForbidRecovery.SmallPagesHold | internal/scheduler/due_job.go:61-66 | with at most 100 running rows the page holds them all |
| ForbidRecovery.HungRunIsClosed | internal/scheduler/due_job.go:60-108 | with at most 100 running rows of the job at each of its scans, a hung run blocks at most ceil(timeout / interval) slots before it is closed, the timeout being the job's own where that is between 1 and the maximum |
| Timing.TimeoutIs | internal/scheduler/worker.go:220-238 | the effective timeout in the configuration's terms, and there is one exactly for a positive timeout, or for 0 where that does not mean unlimited |
| Timing.AcceptedTimeoutIsKept | internal/service/job_service.go:267-285 | a requested timeout is accepted exactly if it is not negative and Execute would get it unchanged; the default reaches Execute unchanged exactly if it is within the maximum, as it is in every configuration that internal/config accepts |
| Timing.OverdueIs | internal/scheduler/due_job.go:164-215 | a row is stale exactly if it has been running, since it says or since it was created, for the timeout or longer |
| Orphans.OpenStep | internal/scheduler/due_job.go:61-81 | a running or cancelling row that nobody attends to changes only by being reclaimed or asked to cancel |
| Orphans.CancellingNeverEnds | internal/scheduler/dispatch.go:37-43 | an unattended cancelling row stays cancelling in every run of the system |
| Orphans.CrashStrandsCancelling | internal/scheduler/worker.go:40-52 | after a crash every cancelling row stays so until it is deleted |
| Orphans.CrashStrandsRuns | internal/scheduler/due_job.go:60-72 | after a crash an open row of an allow job, or of a forbid job without an effective timeout, never finishes while the job is not replaced |
| Orphans.RunningRowClosesIff | internal/scheduler/due_job.go:48-108 | a running row nobody attends to, as all are after a crash, is closed in some such continuation if and only if its job is a forbid job with an effective timeout that can still fire: it is meant to, and no row holds the slot's key that cannot end |
| SkippedForEver.CrashSkipsForEver | internal/scheduler/due_job.go:61-108 | after a crash in a run of a forbid job without a timeout, every later slot of the job is skipped, whatever else happens, retention passes and the removal of other jobs included, short of cancelling the row and replacing or removing the job |
| Reached.FinishedRowChanges | internal/scheduler/due_job.go:184-215 | a run from the empty database in which a scan closes a row as timeout while its worker executes it, and the finalization then writes success |
| Reached.CancelContradictsLog | internal/service/run_service.go:35-46 | a run in which a CancelRun reads a running row, the worker finalizes it, and the write leaves it cancelling with completed as its last event |
| Reached.TriggerBlocksTheJob | internal/service/job_service.go:164-199 | a run in which a manual trigger comes at exactly the next run time, and the job does not fire in any continuation that keeps its row and does not replace the job |
| Reached.CrashSkipsASlot | internal/scheduler/due_job.go:83-108 | wherever the job of a running row lost in a crash is a forbid job without a timeout that can fire, there is a continuation in which a slot is consumed and skipped |
| Reached.SkipIsReached | internal/scheduler/due_job.go:83-108 | a run from the empty database to such a crash, where the configuration allows unlimited timeouts |
| Instants.DecodeEncode | internal/store/db.go:182-205 | decoding an encoded instant gives it back to the nanosecond, for every year from 0 to 9999 |
| Instants.TextOrder | internal/store/job_repo.go:231-233 | text order is time order except exactly when two instants share a second and one trimmed fraction is a proper prefix of the other, where it is reversed; equal texts mean equal instants |
| Instants.TextOrderAcrossSeconds | internal/store/run_repo.go:270 | across a whole-second boundary every text comparison is right |
| Instants.TextOrderCanReverse | internal/store/db.go:182-184 | two instants whose texts are in the wrong order |
| Instants.SecondsAgree | internal/store/db.go:182-184 | civil fields compared one by one order whole seconds as their count does |
| Instants.DecodeWithoutZone | internal/store/db.go:194-205 | a text as SQLite writes it, with a space and without a zone, is read as the same second |
| Instants.EncodedForm | internal/store/db.go:182-184 | the layout by example: two digits for month, day and time of day, trailing zeros of the fraction removed, Z |
| Instants.DaysBeforeYearIs | internal/store/db.go:182-184 | the days before a year in the Gregorian calendar, in closed form |
| ManagedFiles.RootsShareNothing | internal/retention/pruner.go:313-330 | no path passes the check of two roots that do not contain each other |
| ManagedFiles.TargetIff | internal/retention/pruner.go:313-330 | a path is accepted exactly if it and its root are not empty and the names of the root are the first names of the path, compared name by name |
| ManagedFiles.SizeWithout | internal/retention/pruner.go:258-283 | the total does not depend on the order in which a walk visits the files |
| ManagedFiles.OldestFirst | internal/retention/pruner.go:182-187 | the same files by modification time, and those of one time by path |
| ManagedFiles.Cut | internal/retention/pruner.go:189-203 | the least number of leading files whose sizes bring the total to the cap, or all |
| Retention.CapIsMetWithTheFewestFiles | internal/retention/pruner.go:173-204 | for rows that share no file: the sum returned is what was freed, the cap is met or no run file is left, one file fewer would not do, and no kept file comes before a deleted one |
| Retention.CapTakesOldest | internal/retention/pruner.go:182-203 | also for rows that share files: a file that the cap can see and leaves has a later modification time than each that it takes, or the same and the later path |
| Retention.ReportedBytesIff | internal/retention/pruner.go:173-204 | the reported bytes are right if and only if no file with any bytes is counted twice |
| SharedLog.CapCountsTwice | internal/retention/pruner.go:189-203 | a run from the empty database to two finished rows with one log, and a pass over them that reports twenty bytes freed when ten are |
| Retention.PassEffect | internal/retention/pruner.go:46-101 | a pass leaves no expired log, artifact or history, caps every listed log, and touches no other file |
| FilePhases.FirstLoopTakesIff | internal/retention/pruner.go:109-153 | for rows that share no file, after the first loop: a log is gone if and only if it was not there or its run finished more than successLogDays days ago if it is a success and failedLogDays otherwise; an artifact likewise with artifactDays; no days are no limit; a log that is left has its old size, or maxLogBytesPerRun if that is positive and smaller |
| FilePhases.SecondLoopTakesIff | internal/retention/pruner.go:71-84 | and after the second: both files are gone if and only if they were not there or the run finished more than runHistoryDays days ago; what is left is as it was |
| FilePhases.RowDeletedIff | internal/retention/pruner.go:86-91 | a pass deletes exactly the rows with a terminal status whose finish time is before the cutoff as text, and leaves the others as they are |
| Retention.RowsLeaveWithTheirFiles | internal/retention/pruner.go:71-90 | a deleted row whose finish time is before the cutoff has neither log nor artifact left, if the pass comes to the cutoff within a day of its listing |
| Retention.ExpiryTakesFilesIff | internal/retention/pruner.go:73-84 | the second loop removes a row's files exactly when its finish time is before the cutoff as time |
| Retention.RowAndFilesAgreeIff | internal/retention/pruner.go:71-90 | for a listed row with a file left before the second loop: row and files go or stay together if and only if finish time and cutoff are not one trimmed fraction continuing the other within a second |
| Retention.LaterRowsLeaveTheirFiles | internal/store/run_repo.go:293-306 | with a cutoff on a whole second, a row that finished later in that second is deleted by a pass that leaves its files behind |
| Retention.OrphanedFileStays | internal/retention/pruner.go:285-296 | a file that no row owns is neither removed nor shortened by any later pass |
| Retention.ActiveRowsAreUntouched | internal/retention/pruner.go:46-101 | rows that are not terminal stay as they are, and so do files that no listed row shares |
| Retention.SecondPassIsIdle | internal/retention/pruner.go:46-101 | repeating the pass at the same instant changes neither files nor tables |
| Pruning.Pruner.RemoveManagedFile | internal/retention/pruner.go:213-235 | the bytes returned are the bytes gone; a directory, a missing file and a path outside the root are left alone; an error changes nothing |
| Pruning.Pruner.TruncateManagedFile | internal/retention/pruner.go:237-256 | a file over the limit is cut to it and the difference returned |
| Pruning.Pruner.PruneRunFiles | internal/retention/pruner.go:109-153 | the first phase for one row: without an error, log and artifact are gone exactly if they were not there or the run has outlived their days, and a log that is left is cut to the limit; also when it fails half-way, freed bytes are exact, the log and the artifact are counted exactly if they were there and are gone, and the log as truncated exactly if it is there and was cut |
| Pruning.Pruner.RemoveAllRunFiles | internal/retention/pruner.go:155-171 | log and artifact go; each is counted exactly if it was there and is gone, also on a failure, and no truncation is counted |
| Pruning.Pruner.ManagedStorageBytes | internal/retention/pruner.go:258-283 | the bytes under the two roots, in whatever order the walk goes |
| Pruning.Pruner.TerminalRunFiles | internal/retention/pruner.go:285-311 | the existing files of the listed rows, in row order, with size and time; a file whose stat fails is left out |
| Pruning.Pruner.EnforceTotalStorage | internal/retention/pruner.go:173-204 | it deletes exactly the shortest sufficient prefix of the sorted files it can see and returns the sum of their sizes |
| Pruning.Pruner.PruneListed | internal/retention/pruner.go:57-69 | the report's bytes are what the first loop took from the disk, its log files those gone from the log root, its artifacts those gone from the artifact root, its truncated logs the rows at whose turn a log was cut; on an error it claims no more than is gone |
| Pruning.Pruner.ExpireListed | internal/retention/pruner.go:73-84 | the same for the second loop, which truncates nothing |
| Pruning.OwnLogsAreCutOnce | internal/retention/pruner.go:142-151 | where no two rows share a file, the truncated logs counted are exactly those that are there and shorter after the loop |
| Pruning.Pruner.Run | internal/retention/pruner.go:46-101 | a whole pass, with its own clock reading for each row and phase, and a context that may end before any row or any file of the cap: files and tables as specified, deleted rows counted, log, artifact and truncation counts those of the first two phases, bytes before = bytes after + freed if and only if the cap counts no file twice, and on an error neither bytes nor files claimed that are not gone |
| Pruning.OwnFilesCountOnce | internal/retention/pruner.go:285-296 | rows that share no file are counted once, so the account is exact |
| ImageRef.SplitDigest | internal/image/remote.go:299-302 | repo@digest is taken apart whatever the digest contains |
| ImageRef.SplitTag | internal/image/remote.go:303-308 | repo:tag is taken apart, host ports in the repository included |
| ImageRef.JoinSplit | internal/image/remote.go:162-172 | rejoining gives the reference back, with ":latest" added exactly where it has neither tag nor digest |
| ImageRef.SplitJoinSplit | internal/image/remote.go:162-172 | splitting the rejoined form gives the same triple, for every reference |
| ImageRef.PullRefSplits | internal/image/remote.go:167-172 | the pull reference names the same tag or digest of the same repository at the registry, if and only if the prefix has no at sign |
| ImageRef.ResolveAnswers | internal/image/remote.go:162-172 | Resolve asks the registry for repo@digest, repo:tag, or a bare name with ":latest", and refuses exactly an empty repository, digest, tag or name |
| ImageRef.NamesComeBack | internal/image/remote.go:299-309 | all names and tags of the OCI Distribution Specification, section "Pulling manifests", come back from the references they make, and Resolve accepts name:tag, name@digest and the bare name |
| ImageRef.CandidatesDiffer | internal/image/remote.go:117 | different names or tags give different references |
| TagCache.TagsAreFresh | internal/image/remote.go:274-297 | under any interleaving every cache entry and every finished call has tags that the registry served late enough |
| TagCache.ReturnedTagsAreFresh | internal/image/remote.go:274-297 | returned tags were served less than 300 seconds before the call began |
| TagCache.EntryGoesBackIff | internal/image/remote.go:290-295 | over whole runs, an entry's fetch time never goes back if and only if the calls for its repository store in the order in which they began |
| TagCache.LaterTagsAreNoOlder | internal/image/remote.go:274-297 | in every run in which no store puts tags served earlier over tags served later: a call that begins after another has returned gets tags served no earlier |
| TagCache.CallsOneByOneSeeNewerTags | internal/image/remote.go:274-297 | so it is in every run in which calls for the repository do not overlap |
| TagCache.NextCallSeesOlderTagsIff | internal/image/remote.go:277-295 | after a store the next call gets older tags than have been returned if and only if that store put earlier tags over later ones and its entry has not expired |
| TagCache.LaterCallSeesOlderTags | internal/image/remote.go:290-295 | a run in which a slow request overwrites a newer entry and a later call returns the older tags, as old as the bound allows |
| TagCache.RemoteSource.LookUp | internal/image/remote.go:277-283 | a hit, exactly for an entry younger than 300 seconds, returns a fresh copy of the cached tags |
| TagCache.RemoteSource.StoreTags | internal/image/remote.go:290-295 | the cache gets its own copy |
| TagCache.RemoteSource.TagsForRepo | internal/image/remote.go:274-297 | hit, miss and error; the slice returned is in no cache entry |
| TagFanout.FilterRepos | internal/image/remote.go:64-73 | the loop computes Filtered: the repositories that pass, in the order of the catalog |
| TagFanout.WantedIff | internal/image/remote.go:66-71 | a repository passes exactly if it begins with the prefix and contains q |
| TagFanout.FilteredInOrder | internal/image/remote.go:64-73 | the repositories that pass keep the order of the catalog |
| TagFanout.SecondFilterDropsNothing | internal/image/remote.go:116-122 | the second filter on q drops nothing of a repository that passed the first |
| TagFanout.Reachable | internal/image/remote.go:81-159 | semaphore and channels stay within capacity and count the goroutines that hold them; items delivered = collected + in the channel; every cancellation has a cause |
| TagFanout.ListingIsComplete | internal/image/remote.go:58-160 | no error and a caller that has not cancelled: every fetch succeeded and the result is a permutation of all references |
| TagFanout.ErrorsHaveACause | internal/image/remote.go:101-109 | without a cancelled caller, the call fails if and only if a fetch did |
| TagFanout.ListingIsWhatWasDelivered | internal/image/remote.go:135-158 | a listing is what was delivered, and only a cancelled caller gets less than everything |
| TagFanout.ListingIsCompleteIff | internal/image/remote.go:58-160 | whoever cancels: a listing without an error is all references if and only if no goroutine with tags to bring left early |
| TagFanout.CancelledListingCanBeEmpty | internal/image/remote.go:135-158 | for any repositories, a run in which a cancelled caller gets nothing and no error |
| TagFanout.CancelledListingCanBeIncomplete | internal/image/remote.go:135-158 | so every call with something to list can be answered with less, and no error |
| TagFanout.FetchesAreBounded | internal/image/remote.go:84-99 | at most eight fetches at once |
| TagFanout.NeverStuck | internal/image/remote.go:89-159 | until the call is over some actor can move, without help from the caller |
| TagFanout.CallsEnd | internal/image/remote.go:89-159 | a call over n repositories ends after at most 6n + 3 steps |
| LogReader.StartOf | internal/log/reader.go:29-38 | a tail counts from the end and is cut to the file |
| LogReader.Piece | internal/log/reader.go:43-58 | the bytes from start, limit of them or all |
| LogReader.LogFile.ReadContent | internal/log/reader.go:17-59 | while the file grows between its read calls, the answer is what one read of the file as it is at the end would give |
| LogReader.PieceExtends | internal/log/reader.go:29-58 | the next piece continues what has been sent: nothing is lost or repeated |
| LogReader.LogFile.Follow | internal/api/ui/templates/run_detail.tmpl:173-204 | over any polls, failures, limits and appends, the pieces sent are exactly the file's bytes between the first and the last offset, all of them after an unlimited poll; their text is shown if and only if no piece ended within a character, and a longer text otherwise |
| LogReader.LogFile.RunPage | internal/api/ui/ui.go:520-530 | what the page was rendered with is sent, and shown, again once an unlimited poll has been answered |
| Utf8.CutIsCleanIff | internal/api/handler/run_handler.go:142-147 | two pieces sent apart give the text of both exactly when the cut is at a character boundary, and a longer text otherwise |
| Utf8.TextsJoinIff | internal/api/ui/templates/run_detail.tmpl:192-193 | the same for any number of pieces |
| Utf8.BoundaryIff | internal/api/handler/run_handler.go:147 | in a log that is UTF-8, a place is a boundary exactly when no continuation byte follows it |
| Utf8.BeginsCharIff | internal/api/handler/run_handler.go:147 | the bytes begin with what is taken for a character exactly if they begin with the encoding of a Unicode scalar value, section 3 of RFC 3629, and exactly its bytes are taken |

## Left out

- Retention and CancelRun are steps of the lifecycle, but the pruner's files are not: `Prune` deletes rows only.
- Updated-at columns, event messages and event times, and the job's name with its UNIQUE constraint: written, never decided on.
- Deadlines in the step relation: a blocked actor is one that takes no step, so nothing is claimed about when something happens, except in TagFanout.
- Cron expressions and time zones: the library's answer is a parameter, and slot progress takes it to be in a later whole second.
- The int64 product of the interval in nanoseconds: integers are unbounded here.
- Instants.DecodeEncode: the decoder is modelled on texts in UTC, without numeric offsets, comma fractions, a fraction in the layout without zone, or the lenient hour forms of the library, none of which the encoder writes.
- Dispatch.Scheduler.ProcessDispatch: rounds are a finite list; the ticker and the wakeup channels that start the loop are not modelled.
- TerminalStability.TerminalIsFinalIff: an owner whose retry key is taken, which takes deletions to come about, is left to TerminalIsFinalUntilDeletionIff; whether a later deletion can free that key and spare the row is not claimed.
- Orphans.RunningRowClosesIff: the job's running rows are not both started and created at Go's zero time, which no clock shows.
- SharedLog.CapCountsTwice: what an execution returns is arbitrary in the step relation, so the run takes an executor that names one log for two runs.
- Pruning.Pruner.TerminalRunFiles: a stat that fails does so for every row that names the file.
- filepath.Abs failing, symbolic links, and files that others change during a pass.
- TagFanout.ListingIsComplete: goroutines are all started before the first one moves; a later start is a goroutine that has not moved yet.
- Catalog pagination, manifests, digests and HTTP: the registry is a function of repository and time.
- LogReader.LogFile.RunPage: the bytes of the rendered page are not followed through the HTML template and the browser; only what the script adds is taken as text.
- Docker, local images, the HTTP API, the UI, configuration, pagination of lists: plumbing around the parts above.
- markRunDispatch, RunRepo.Update and maxWorkers: nothing calls them.
