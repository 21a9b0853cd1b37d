/** Two runs that report the same log, and a pass whose storage cap counts it twice. */
module SharedLog {
  import opened Model
  import opened Tables
  import opened Transactions
  import opened Lifecycle
  import opened Invariant
  import opened Listings
  import opened ManagedFiles
  import opened Retention
  import P = Paths
  import R = Reached

  const LOG: Path := "/logs/a"

  /** The execution succeeds and reports the log. */
  const LOGGED: Outcome := Outcome(Some(ExecResult(0, LOG, "")), None, None)

  /** A finished row with that log. */
  predicate HasLog(t: Tables, r: int, finishedAt: Time) {
    && r in t.runs && t.runs[r].status.Success? && t.runs[r].finishedAt == Some(finishedAt)
    && t.runs[r].logPath == Some(LOG) && t.runs[r].resultPath == None
  }

  // ---------- The two runs ----------

  lemma EndLogged(s: System, h: int, f: Time) returns (acts: seq<Action>, u: System)
    requires Inv(s) && Owns(s, 0, h) && s.workers[0].phase.Executing? && h in s.db.runs
    requires s.db.runs[h].resultPath.None? && s.workers[0].phase.run.resultPath.None?
    ensures Exec(s, acts) == Some(u) && Inv(u) && u.db.jobs == s.db.jobs && u.db.runs.Keys == s.db.runs.Keys
    ensures u.capacity == s.capacity && u.db.runs[h].Key() == s.db.runs[h].Key()
    ensures HasLog(u.db, h, f) && forall q <- s.db.runs | q != h :: u.db.runs[q] == s.db.runs[q]
  {
    acts, u := P.EndExecuting(s, 0, h, LOGGED, f);
    P.BringsKeeps(s, acts, u);
  }

  lemma SecondRun(s: System, job: Job) returns (acts: seq<Action>, u: System, r: int)
    requires Inv(s) && s.capacity > 0 && s.db.jobs == map[1 := job] && s.db.runs.Keys == {1}
             && HasLog(s.db, 1, 2 * SECOND)
    requires s.db.runs[1].scheduledAt == SECOND
    ensures Exec(s, acts) == Some(u) && r > 1 && u.db.runs.Keys == {1, r} && HasLog(u.db, 1, 2 * SECOND)
            && HasLog(u.db, r, 4 * SECOND)
  {
    var a := Trigger(1, 3 * SECOND, 3 * SECOND, true);
    assert s.db.runs[1].Key() != RunKey(1, 3 * SECOND, 0);
    R.TriggerAdds(s, 1, 3 * SECOND);
    r := s.db.runSeq + 1;
    var m := Apply(s, a);
    R.ExecOne(s, a);
    var more;
    more, u := RunLogged(m, r);
    ExecSplit(s, [a], more);
    acts := [a] + more;
    assert 1 in s.db.runs;
  }

  /** The pending row is claimed, executed and finished; finished rows stay. */
  lemma RunLogged(s: System, r: int) returns (acts: seq<Action>, u: System)
    requires Inv(s) && s.capacity > 0 && r in s.db.runs && s.db.runs[r] == PendingRun(1, 3 * SECOND, 3 * SECOND)
    ensures Exec(s, acts) == Some(u) && u.db.runs.Keys == s.db.runs.Keys && HasLog(u.db, r, 4 * SECOND)
    ensures forall q <- s.db.runs | !s.db.runs[q].status.Pending? :: u.db.runs[q] == s.db.runs[q]
  {
    assert r in PendingIds(s.db);
    var claim, m := P.TakePending(s, r, 3 * SECOND);
    P.ExecuteStays(m, 0, r);
    P.BringsThen(s, claim, m, Execute(0));
    var end;
    end, u := EndLogged(Apply(m, Execute(0)), r, 4 * SECOND);
    ExecSplit(s, claim + [Execute(0)], end);
    acts := claim + [Execute(0)] + end;
  }

  lemma FirstRun(s0: System) returns (acts: seq<Action>, s: System, job: Job)
    requires Init(s0) && s0.capacity > 0
    ensures Exec(s0, acts) == Some(s) && Inv(s) && s.capacity == s0.capacity
    ensures s.db.jobs == map[1 := job] && s.db.runs.Keys == {1} && HasLog(s.db, 1, 2 * SECOND)
            && s.db.runs[1].scheduledAt == SECOND
  {
    var first, m := R.StartExecuting(s0, Allow, 60, SECOND);
    var end;
    end, s := EndLogged(m, 1, 2 * SECOND);
    ExecSplit(s0, first, end);
    acts, job := first + end, R.Stored(Allow, 60);
    assert s.db.runs[1].Key().scheduledAt == SECOND;
  }

  // ---------- The pass ----------

  /** Nothing expires; the two roots may hold five bytes in all. */
  const SCOPE: Scope := Scope(Settings(true, 0, 0, 0, 0, 0, 5, "/logs", "/artifacts"), (path: string) => path)

  /** The log of the two runs, and a file of no run. */
  const FILES: Files := map[LOG := File(10, 0), "/logs/b" := File(10, 0)]

  lemma RootsAreApart()
    ensures SCOPE.Apart()
  {
    assert "/logs/"[1] == 'l' && "/artifacts"[1] == 'a';
    assert "/artifacts/"[1] == 'a' && "/logs"[1] == 'l';
  }

  lemma LogsAreUnder()
    ensures Under("/logs", LOG) && Under("/logs", "/logs/b") && !Under("/artifacts", LOG)
            && !Under("/artifacts", "/logs/b")
  {
    assert "/artifacts/"[1] == 'a' && LOG[1] == 'l' && "/logs/b"[1] == 'l';
  }

  lemma StoredTwenty()
    ensures SCOPE.Stored(FILES) == 20
  {
    LogsAreUnder();
    assert Within(FILES, "/logs") == FILES && Within(FILES, "/artifacts") == map[];
    SizeWithout(FILES, LOG);
    assert FILES - {LOG} == map["/logs/b" := File(10, 0)];
    SizeWithout(FILES - {LOG}, "/logs/b");
    assert FILES - {LOG} - {"/logs/b"} == map[];
  }

  /** The rows are listed oldest first. */
  lemma BothListed(t: Tables, r: int)
    requires r > 1 && t.runs.Keys == {1, r} && HasLog(t, 1, 2 * SECOND) && HasLog(t, r, 4 * SECOND)
    ensures TerminalListing(t, 10 * SECOND, [1, r])
  {
    R.SecondsInOrder(2, 4);
    R.SecondsInOrder(2, 10);
    R.SecondsInOrder(4, 10);
  }

  const TWICE: Entry := Entry(LOG, 10, 0)

  lemma BothFound(c: Scope, files: Files, rows: seq<Run>)
    requires LOG in files && files[LOG] == File(10, 0)
    requires |rows| == 2 && forall i | 0 <= i < 2 :: c.Log(rows[i]) == Some(LOG) && c.Artifact(rows[i]) == None
    ensures RunFiles(c, files, rows) == [TWICE, TWICE]
  {
    assert rows[..1][..0] == [] && rows[..1] == [rows[0]];
    assert RunFiles(c, files, rows[..1]) == [TWICE];
  }

  lemma LogOfRow(run: Run)
    requires run.logPath == Some(LOG) && run.resultPath == None
    ensures SCOPE.Log(run) == Some(LOG) && SCOPE.Artifact(run) == None
  {
    LogsAreUnder();
  }

  lemma SortBoth()
    ensures Sort([TWICE, TWICE]) == [TWICE, TWICE]
  {
    assert [TWICE, TWICE][1..] == [TWICE] && [TWICE][1..] == [];
    assert Sort([TWICE]) == [TWICE];
  }

  lemma SizeOfBoth()
    ensures Sizes([TWICE, TWICE]) == 20 && Cut(20, [TWICE, TWICE], 5) == 2
  {
    var entries := [TWICE, TWICE];
    assert entries[..1] == [TWICE] && [TWICE][..0] == [] && entries[..0] == [];
    assert Sizes(entries[..0]) == 0 && Sizes(entries[..1]) == 10;
  }

  lemma BothInExcess(rows: seq<Run>)
    requires |rows| == 2 && forall i | 0 <= i < 2 :: rows[i].logPath == Some(LOG) && rows[i].resultPath == None
    ensures Excess(SCOPE, FILES, rows, {}) == [TWICE, TWICE]
  {
    StoredTwenty();
    LogOfRow(rows[0]);
    LogOfRow(rows[1]);
    BothFound(SCOPE, FILES, rows);
    SortBoth();
    SizeOfBoth();
    assert FILES - {} == FILES;
    assert [TWICE, TWICE][..2] == [TWICE, TWICE];
  }

  lemma NothingSwept(rows: seq<Run>, k: Clocks)
    ensures Swept(SCOPE, FILES, rows, k) == FILES
  {
    forall i | 0 <= i < |rows| ensures Pruned(SCOPE, FILES, rows[i], k.row(i))
      && Expired(SCOPE, FILES, rows[i], k.expiry) {}
    PruneAllAgain(SCOPE, FILES, rows, k);
    ExpireAllAgain(SCOPE, FILES, rows, k.expiry);
  }

  /**
   From the empty database to two finished rows with one log, and a pass over them that claims to
   have freed twenty bytes when it has freed ten.
   */
  lemma CapCountsTwice(s0: System) returns (acts: seq<Action>, s: System, listed: seq<int>)
    requires Init(s0) && s0.capacity > 0
    ensures Exec(s0, acts) == Some(s) && TerminalListing(s.db, 10 * SECOND, listed)
    ensures var rows, k := RowsAt(s.db, listed), Instant(10 * SECOND);
            && Swept(SCOPE, FILES, rows, k) == FILES && Sizes(Excess(SCOPE, FILES, rows, {})) == 20
            && SCOPE.Stored(PassFiles(SCOPE, FILES, rows, k, {})) == SCOPE.Stored(FILES) - 10
  {
    var first, m, job := FirstRun(s0);
    var more, r;
    more, s, r := SecondRun(m, job);
    ExecSplit(s0, first, more);
    acts, listed := first + more, [1, r];
    BothListed(s.db, r);
    CapFreesTen(RowsAt(s.db, listed), Instant(10 * SECOND));
  }

  lemma CapFreesTen(rows: seq<Run>, k: Clocks)
    requires |rows| == 2 && forall i | 0 <= i < 2 :: rows[i].logPath == Some(LOG) && rows[i].resultPath == None
    ensures Swept(SCOPE, FILES, rows, k) == FILES && Sizes(Excess(SCOPE, FILES, rows, {})) == 20
    ensures SCOPE.Stored(PassFiles(SCOPE, FILES, rows, k, {})) == SCOPE.Stored(FILES) - 10
  {
    NothingSwept(rows, k);
    BothInExcess(rows);
    SizeOfBoth();
    assert Paths([TWICE, TWICE]) == {LOG};
    RootsAreApart();
    LogsAreUnder();
    StoredWithout(SCOPE, FILES, LOG);
  }
}
