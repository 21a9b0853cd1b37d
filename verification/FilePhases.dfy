/** What the two loops of a retention pass do to each row's files, in terms of its columns, the settings and clocks. */
module FilePhases {
  import opened Model
  import opened Tables
  import opened Instants
  import opened ManagedFiles
  import opened Retention

  /** Finished more than so many days, of 86400 seconds, before this instant; no days are no limit. */
  predicate OutlivedBy(run: Run, days: int, now: Time) {
    days > 0 && run.finishedAt.Some? && run.finishedAt.value + days * 86400 * 1_000_000_000 < now
  }

  /** The log's days depend on how the run ended. */
  predicate LogOutlived(cfg: Settings, run: Run, now: Time) {
    OutlivedBy(run, if run.status == Success then cfg.successLogDays else cfg.failedLogDays, now)
  }

  /** A file that is left is as it was, or cut to the limit. */
  predicate CutTo(files: Files, left: Files, target: Option<Path>, max: int) {
    target.Some? && target.value in files && target.value in left ==>
      left[target.value].size == if 0 < max < files[target.value].size then max else files[target.value].size
  }

  /**
   What the first loop does for a row: its log is gone afterwards if and only if it was not there or
   the row has outlived the days for its outcome; its artifact likewise; and a log that is left has
   its old size, or the limit where it was larger.
   */
  predicate PhaseOne(c: Scope, files: Files, left: Files, run: Run, k: Reading) {
    && (Gone(left, c.Log(run)) <==> Gone(files, c.Log(run)) || LogOutlived(c.cfg, run, k.log))
    && (Gone(left, c.Artifact(run)) <==>
          Gone(files, c.Artifact(run)) || OutlivedBy(run, c.cfg.artifactDays, k.artifact))
    && CutTo(files, left, c.Log(run), c.cfg.maxLogBytesPerRun)
    && CutTo(files, left, c.Artifact(run), 0)
  }

  lemma PruneOneIs(c: Scope, files: Files, run: Run, k: Reading)
    requires c.Apart()
    ensures PhaseOne(c, files, PruneOne(c, files, run, k), run, k)
  {
    if c.Log(run).Some? {
      OneRoot(c, c.Log(run).value);
    }
    if c.Artifact(run).Some? {
      OneRoot(c, c.Artifact(run).value);
    }
  }

  /** The row's own files are the same. */
  ghost predicate SameOwn(c: Scope, before: Files, after: Files, run: Run) {
    forall p | c.Log(run) == Some(p) || c.Artifact(run) == Some(p) ::
      (p in after <==> p in before) && (p in before ==> after[p] == before[p])
  }

  lemma SameFiles(c: Scope, before: Files, after: Files, paths: set<Path>, run: Run)
    requires SameOutside(before, after, paths) && paths !! Own(c, run)
    ensures SameOwn(c, before, after, run)
  {
    forall p | c.Log(run) == Some(p) || c.Artifact(run) == Some(p)
      ensures (p in after <==> p in before) && (p in before ==> after[p] == before[p])
    {
      assert p in Own(c, run) && p !in paths;
    }
  }

  lemma OthersOwn(c: Scope, rows: seq<Run>, i: nat)
    requires OwnFiles(c, rows) && i < |rows|
    ensures Owned(c, rows[..i]) !! Own(c, rows[i])
  {}

  lemma PhaseOneCarries(c: Scope, files: Files, before: Files, after: Files, run: Run, k: Reading)
    ensures PhaseOne(c, files, before, run, k) && SameOwn(c, before, after, run) ==> PhaseOne(c, files, after, run, k)
    ensures SameOwn(c, files, before, run) && PhaseOne(c, before, after, run, k) ==> PhaseOne(c, files, after, run, k)
  {}

  /** The first loop, over rows that share no file. */
  lemma {:induction false} FirstLoopTakesIff(c: Scope, files: Files, rows: seq<Run>, k: Clocks, i: nat)
    requires c.Apart() && OwnFiles(c, rows) && i < |rows|
    ensures PhaseOne(c, files, PruneAll(c, files, rows, k), rows[i], k.row(i))
  {
    var last := |rows| - 1;
    var before, after := PruneAll(c, files, rows[..last], k), PruneAll(c, files, rows, k);
    PruneOneIs(c, before, rows[last], k.row(last));
    PhaseOneCarries(c, files, before, after, rows[i], k.row(i));
    if i < last {
      FirstLoopTakesIff(c, files, rows[..last], k, i);
      PruneOneEffect(c, before, rows[last], k.row(last));
      SameFiles(c, before, after, Own(c, rows[last]), rows[i]);
    } else {
      PruneAllShrinks(c, files, rows[..last], k);
      OthersOwn(c, rows, last);
      SameFiles(c, files, before, Owned(c, rows[..last]), rows[last]);
    }
  }

  /** The second loop takes both files of the rows that have outlived the history, and no other. */
  lemma {:induction false} SecondLoopTakesIff(c: Scope, files: Files, rows: seq<Run>, now: Time, i: nat)
    requires c.Apart() && OwnFiles(c, rows) && i < |rows|
    ensures var run, left := rows[i], ExpireAll(c, files, rows, now);
            var outlived := OutlivedBy(run, c.cfg.runHistoryDays, now);
            && (Gone(left, c.Log(run)) <==> Gone(files, c.Log(run)) || outlived)
            && (Gone(left, c.Artifact(run)) <==> Gone(files, c.Artifact(run)) || outlived)
            && CutTo(files, left, c.Log(run), 0) && CutTo(files, left, c.Artifact(run), 0)
  {
    var last := |rows| - 1;
    var before := ExpireAll(c, files, rows[..last], now);
    ExpireOneEffect(c, before, rows[last], now);
    if i < last {
      SecondLoopTakesIff(c, files, rows[..last], now, i);
      SameFiles(c, before, ExpireAll(c, files, rows, now), Own(c, rows[last]), rows[i]);
    } else {
      ExpireAllShrinks(c, files, rows[..last], now);
      OthersOwn(c, rows, last);
      SameFiles(c, files, before, Owned(c, rows[..last]), rows[last]);
    }
  }

  /** The rows that a pass deletes, by status and by the text of their finish time; the others stay as they are. */
  lemma RowDeletedIff(c: Scope, t: Tables, now: Time, r: int)
    requires r in t.runs
    ensures var u, run := PassTables(c, t, now), t.runs[r];
            && (r !in u.runs <==>
                  && c.cfg.runHistoryDays > 0 && run.finishedAt.Some?
                  && (run.status == Success || run.status == Failed || run.status == Timeout
                      || run.status == Cancelled || run.status == Skipped)
                  && TextBefore(run.finishedAt.value, now - c.cfg.runHistoryDays * 86400 * 1_000_000_000))
            && (r in u.runs ==> u.runs[r] == run)
  {
    assert c.cfg.runHistoryDays * DAY == c.cfg.runHistoryDays * 86400 * 1_000_000_000;
  }
}
