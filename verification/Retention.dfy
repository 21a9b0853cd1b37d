/**
 A retention pass of internal/retention/pruner.go as functions: which files the three phases take
 away for the listed rows, and which rows go.  The pruner itself is in Pruning.dfy.
 */
module Retention {
  import opened Model
  import opened Tables
  import opened Transactions
  import opened Instants
  import opened ManagedFiles
  import opened Listings

  const DAY: Time := 86400 * SECOND

  datatype Settings = Settings(
    enabled: bool,
    runHistoryDays: int,
    successLogDays: int,
    failedLogDays: int,
    artifactDays: int,
    maxLogBytesPerRun: int,
    maxTotalStorageBytes: int,
    logRoot: string,
    artifactRoot: string)

  /** The settings with the working directory that resolves paths. */
  datatype Scope = Scope(cfg: Settings, abs: Abs) {
    function Log(run: Run): Option<Path> {
      Target(abs, cfg.logRoot, run.logPath)
    }

    function Artifact(run: Run): Option<Path> {
      Target(abs, cfg.artifactRoot, run.resultPath)
    }

    /** managedStorageBytes of both roots. */
    ghost function Stored(files: Files): nat {
      Bytes(abs, cfg.logRoot, files) + Bytes(abs, cfg.artifactRoot, files)
    }

    /** No file lies under both roots. */
    predicate Apart() {
      cfg.logRoot != "" && cfg.artifactRoot != "" ==> RootsApart(abs(cfg.logRoot), abs(cfg.artifactRoot))
    }
  }

  /** olderThan; AddDate on a UTC instant subtracts days of 86400 seconds. */
  predicate OlderThan(finishedAt: Option<Time>, days: int, now: Time) {
    finishedAt.Some? && days > 0 && finishedAt.value < now - days * DAY
  }

  // ---------- The phases ----------

  predicate LogExpired(cfg: Settings, run: Run, now: Time) {
    if run.status.Success? then OlderThan(run.finishedAt, cfg.successLogDays, now)
    else OlderThan(run.finishedAt, cfg.failedLogDays, now)
  }

  predicate ArtifactExpired(cfg: Settings, run: Run, now: Time) {
    OlderThan(run.finishedAt, cfg.artifactDays, now)
  }

  /** The clock readings of pruneRunFiles for one row, and the instant at which a file it truncates is touched. */
  datatype Reading = Reading(log: Time, artifact: Time, touch: Time)

  /** The clock readings of a pass: for the listing, for each row, and for the cutoff. */
  datatype Clocks = Clocks(listing: Time, row: nat -> Reading, expiry: Time)

  function DeleteExpired(c: Scope, files: Files, run: Run, k: Reading): Files {
    var f1 := if LogExpired(c.cfg, run, k.log) then Remove(files, c.Log(run)) else files;
    if ArtifactExpired(c.cfg, run, k.artifact) then Remove(f1, c.Artifact(run)) else f1
  }

  /** pruneRunFiles. */
  function PruneOne(c: Scope, files: Files, run: Run, k: Reading): Files {
    var f := DeleteExpired(c, files, run, k);
    if c.cfg.maxLogBytesPerRun > 0 then Truncate(f, c.Log(run), c.cfg.maxLogBytesPerRun, k.touch) else f
  }

  function PruneAll(c: Scope, files: Files, rows: seq<Run>, k: Clocks): Files {
    if rows == [] then files
    else PruneOne(c, PruneAll(c, files, rows[..|rows| - 1], k), rows[|rows| - 1], k.row(|rows| - 1))
  }

  predicate HistoryExpired(cfg: Settings, run: Run, now: Time) {
    OlderThan(run.finishedAt, cfg.runHistoryDays, now)
  }

  /** removeAllRunFiles, for a row whose history has expired. */
  function ExpireOne(c: Scope, files: Files, run: Run, now: Time): Files {
    if HistoryExpired(c.cfg, run, now) then Remove(Remove(files, c.Log(run)), c.Artifact(run)) else files
  }

  function ExpireAll(c: Scope, files: Files, rows: seq<Run>, now: Time): Files {
    if rows == [] then files else ExpireOne(c, ExpireAll(c, files, rows[..|rows| - 1], now), rows[|rows| - 1], now)
  }

  function EntryOf(files: Files, target: Option<Path>): seq<Entry> {
    match target
    case None => []
    case Some(p) => if p in files then [Entry(p, files[p].size, files[p].modTime)] else []
  }

  /** terminalRunFiles. */
  function RunFiles(c: Scope, files: Files, rows: seq<Run>): seq<Entry> {
    if rows == [] then []
    else
      var run := rows[|rows| - 1];
      RunFiles(c, files, rows[..|rows| - 1]) + (EntryOf(files, c.Log(run)) + EntryOf(files, c.Artifact(run)))
  }

  /** What enforceTotalStorage deletes, where the files whose stat fails are unseen. */
  ghost function Excess(c: Scope, files: Files, rows: seq<Run>, unseen: set<Path>): seq<Entry> {
    var entries := Sort(RunFiles(c, files - unseen, rows));
    entries[..Cut(c.Stored(files), entries, c.cfg.maxTotalStorageBytes)]
  }

  ghost function Enforce(c: Scope, files: Files, rows: seq<Run>, unseen: set<Path>): Files {
    if c.cfg.maxTotalStorageBytes > 0 then files - Paths(Excess(c, files, rows, unseen)) else files
  }

  /** The files after the first two phases. */
  function Swept(c: Scope, files: Files, rows: seq<Run>, k: Clocks): Files {
    ExpireAll(c, PruneAll(c, files, rows, k), rows, k.expiry)
  }

  ghost function PassFiles(c: Scope, files: Files, rows: seq<Run>, k: Clocks, unseen: set<Path>): Files {
    Enforce(c, Swept(c, files, rows, k), rows, unseen)
  }

  function PassTables(c: Scope, t: Tables, now: Time): Tables {
    if c.cfg.runHistoryDays > 0 then PruneTx(t, now - c.cfg.runHistoryDays * DAY) else t
  }

  // ---------- The listing ----------

  /** Every prunable row fits on the page. */
  ghost predicate Complete(t: Tables, now: Time, listed: seq<int>) {
    forall r <- t.runs :: Prunable(t.runs[r], now) ==> r in listed
  }

  function RowsAt(t: Tables, listed: seq<int>): (rows: seq<Run>)
    requires forall i | 0 <= i < |listed| :: listed[i] in t.runs
    ensures |rows| == |listed| && forall i | 0 <= i < |listed| :: rows[i] == t.runs[listed[i]]
  {
    seq(|listed|, i requires 0 <= i < |listed| => t.runs[listed[i]])
  }

  // ---------- The files a row owns ----------

  function Own(c: Scope, run: Run): set<Path> {
    (if c.Log(run).Some? then {c.Log(run).value} else {})
      + (if c.Artifact(run).Some? then {c.Artifact(run).value} else {})
  }

  function Owned(c: Scope, rows: seq<Run>): set<Path> {
    set i, p | 0 <= i < |rows| && p in Own(c, rows[i]) :: p
  }

  /** No two rows share a file. */
  predicate OwnFiles(c: Scope, rows: seq<Run>) {
    forall i, k | 0 <= i < k < |rows| :: Own(c, rows[i]) !! Own(c, rows[k])
  }

  /** Files outside these paths are as they were. */
  predicate SameOutside(before: Files, after: Files, paths: set<Path>) {
    && (forall p <- before :: p !in paths ==> p in after && after[p] == before[p])
    && forall p <- after :: p !in paths ==> p in before
  }

  predicate Gone(files: Files, target: Option<Path>) {
    target.Some? ==> target.value !in files
  }

  predicate FilesGone(c: Scope, files: Files, run: Run) {
    Gone(files, c.Log(run)) && Gone(files, c.Artifact(run))
  }

  predicate Capped(files: Files, target: Option<Path>, max: int) {
    target.Some? && target.value in files ==> files[target.value].size <= max
  }

  /** What the first phase does to a row's files has been done. */
  predicate Pruned(c: Scope, files: Files, run: Run, k: Reading) {
    && (LogExpired(c.cfg, run, k.log) ==> Gone(files, c.Log(run)))
    && (ArtifactExpired(c.cfg, run, k.artifact) ==> Gone(files, c.Artifact(run)))
    && (c.cfg.maxLogBytesPerRun > 0 ==> Capped(files, c.Log(run), c.cfg.maxLogBytesPerRun))
  }

  /** What the second phase does to them has been done. */
  predicate Expired(c: Scope, files: Files, run: Run, now: Time) {
    HistoryExpired(c.cfg, run, now) ==> Gone(files, c.Log(run)) && Gone(files, c.Artifact(run))
  }

  lemma PruneOneEffect(c: Scope, files: Files, run: Run, k: Reading)
    ensures var g := PruneOne(c, files, run, k);
            Shrunk(files, g) && Pruned(c, g, run, k) && SameOutside(files, g, Own(c, run))
    ensures Pruned(c, files, run, k) ==> PruneOne(c, files, run, k) == files
  {}

  lemma ExpireOneEffect(c: Scope, files: Files, run: Run, now: Time)
    ensures var g := ExpireOne(c, files, run, now);
            Shrunk(files, g) && Expired(c, g, run, now) && SameOutside(files, g, Own(c, run))
    ensures Expired(c, files, run, now) ==> ExpireOne(c, files, run, now) == files
  {}

  lemma ShrunkKeeps(c: Scope, files: Files, g: Files, h: Files, run: Run, k: Reading, now: Time)
    requires Shrunk(files, g) && Shrunk(g, h)
    ensures Shrunk(files, h)
    ensures Pruned(c, g, run, k) ==> Pruned(c, h, run, k)
    ensures Expired(c, g, run, now) ==> Expired(c, h, run, now)
  {}

  lemma OutsideChains(files: Files, g: Files, h: Files, some: set<Path>, more: set<Path>, all: set<Path>)
    requires SameOutside(files, g, some) && SameOutside(g, h, more) && some <= all && more <= all
    ensures SameOutside(files, h, all)
  {}

  lemma OwnedGrows(c: Scope, rows: seq<Run>)
    requires rows != []
    ensures Owned(c, rows) == Owned(c, rows[..|rows| - 1]) + Own(c, rows[|rows| - 1])
  {
    var most := rows[..|rows| - 1];
    forall p | p in Owned(c, rows) ensures p in Owned(c, most) + Own(c, rows[|rows| - 1]) {
      var i :| 0 <= i < |rows| && p in Own(c, rows[i]);
      if i < |rows| - 1 {
        assert p in Own(c, most[i]);
      }
    }
    forall p | p in Owned(c, most) ensures p in Owned(c, rows) {
      var i :| 0 <= i < |most| && p in Own(c, most[i]);
      assert p in Own(c, rows[i]);
    }
    assert forall p | p in Own(c, rows[|rows| - 1]) :: p in Owned(c, rows);
  }

  lemma {:induction false} PruneAllShrinks(c: Scope, files: Files, rows: seq<Run>, k: Clocks)
    ensures var g := PruneAll(c, files, rows, k); Shrunk(files, g) && SameOutside(files, g, Owned(c, rows))
  {
    if rows != [] {
      var most, run := rows[..|rows| - 1], rows[|rows| - 1];
      var g := PruneAll(c, files, most, k);
      PruneAllShrinks(c, files, most, k);
      PruneOneEffect(c, g, run, k.row(|rows| - 1));
      OwnedGrows(c, rows);
      OutsideChains(files, g, PruneAll(c, files, rows, k), Owned(c, most), Own(c, run), Owned(c, rows));
    }
  }

  lemma {:induction false} PruneAllSettles(c: Scope, files: Files, rows: seq<Run>, k: Clocks, i: nat)
    requires i < |rows|
    ensures Pruned(c, PruneAll(c, files, rows, k), rows[i], k.row(i))
  {
    var most, run := rows[..|rows| - 1], rows[|rows| - 1];
    var g := PruneAll(c, files, most, k);
    PruneOneEffect(c, g, run, k.row(|rows| - 1));
    if i < |most| {
      PruneAllSettles(c, files, most, k, i);
      ShrunkKeeps(c, g, g, PruneAll(c, files, rows, k), rows[i], k.row(i), k.expiry);
    }
  }

  lemma {:induction false} PruneAllAgain(c: Scope, files: Files, rows: seq<Run>, k: Clocks)
    requires forall i | 0 <= i < |rows| :: Pruned(c, files, rows[i], k.row(i))
    ensures PruneAll(c, files, rows, k) == files
  {
    if rows != [] {
      PruneAllAgain(c, files, rows[..|rows| - 1], k);
      PruneOneEffect(c, files, rows[|rows| - 1], k.row(|rows| - 1));
    }
  }

  lemma {:induction false} ExpireAllShrinks(c: Scope, files: Files, rows: seq<Run>, now: Time)
    ensures var g := ExpireAll(c, files, rows, now); Shrunk(files, g) && SameOutside(files, g, Owned(c, rows))
  {
    if rows != [] {
      var most, run := rows[..|rows| - 1], rows[|rows| - 1];
      var g := ExpireAll(c, files, most, now);
      ExpireAllShrinks(c, files, most, now);
      ExpireOneEffect(c, g, run, now);
      OwnedGrows(c, rows);
      OutsideChains(files, g, ExpireAll(c, files, rows, now), Owned(c, most), Own(c, run), Owned(c, rows));
    }
  }

  lemma {:induction false} ExpireAllSettles(c: Scope, files: Files, rows: seq<Run>, now: Time, i: nat)
    requires i < |rows|
    ensures Expired(c, ExpireAll(c, files, rows, now), rows[i], now)
  {
    var most, run := rows[..|rows| - 1], rows[|rows| - 1];
    var g := ExpireAll(c, files, most, now);
    ExpireOneEffect(c, g, run, now);
    if i < |most| {
      ExpireAllSettles(c, files, most, now, i);
      ShrunkKeeps(c, g, g, ExpireAll(c, files, rows, now), rows[i], Reading(now, now, now), now);
    }
  }

  lemma {:induction false} ExpireAllAgain(c: Scope, files: Files, rows: seq<Run>, now: Time)
    requires forall i | 0 <= i < |rows| :: Expired(c, files, rows[i], now)
    ensures ExpireAll(c, files, rows, now) == files
  {
    if rows != [] {
      ExpireAllAgain(c, files, rows[..|rows| - 1], now);
      ExpireOneEffect(c, files, rows[|rows| - 1], now);
    }
  }

  // ---------- The storage cap ----------

  lemma {:induction false} RunFilesAccurate(c: Scope, files: Files, rows: seq<Run>)
    ensures Accurate(files, RunFiles(c, files, rows)) && Paths(RunFiles(c, files, rows)) == files.Keys * Owned(c, rows)
  {
    if rows != [] {
      var most, run := rows[..|rows| - 1], rows[|rows| - 1];
      RunFilesAccurate(c, files, most);
      OwnedGrows(c, rows);
      EntriesOfRow(c, files, run);
      PathsOfBoth(RunFiles(c, files, most), EntryOf(files, c.Log(run)) + EntryOf(files, c.Artifact(run)));
    }
  }

  lemma EntriesOfRow(c: Scope, files: Files, run: Run)
    ensures var entries := EntryOf(files, c.Log(run)) + EntryOf(files, c.Artifact(run));
            Accurate(files, entries) && Paths(entries) == files.Keys * Own(c, run)
  {
    PathsOfBoth(EntryOf(files, c.Log(run)), EntryOf(files, c.Artifact(run)));
  }

  lemma PathsOfBoth(a: seq<Entry>, b: seq<Entry>)
    ensures Paths(a + b) == Paths(a) + Paths(b)
  {
    assert forall e :: e in a + b <==> e in a || e in b;
  }

  /** A file the pruner may touch lies under one of the roots, and with the roots apart under only one. */
  lemma StoredWithout(c: Scope, files: Files, p: Path)
    requires c.Apart() && InScope(c, p)
    ensures c.Stored(files) == c.Stored(files - {p}) + SizeAt(files, p)
  {
    BytesWithout(c.abs, c.cfg.logRoot, files, p);
    BytesWithout(c.abs, c.cfg.artifactRoot, files, p);
    OneRoot(c, p);
  }

  lemma StoredWith(c: Scope, files: Files, p: Path, file: File)
    requires c.Apart() && InScope(c, p)
    ensures c.Stored(files[p := file]) + SizeAt(files, p) == c.Stored(files) + file.size
  {
    BytesWith(c.abs, c.cfg.logRoot, files, p, file);
    BytesWith(c.abs, c.cfg.artifactRoot, files, p, file);
    OneRoot(c, p);
  }

  predicate UnderRoot(abs: Abs, root: string, p: Path) {
    root != "" && Under(abs(root), p)
  }

  predicate InScope(c: Scope, p: Path) {
    UnderRoot(c.abs, c.cfg.logRoot, p) || UnderRoot(c.abs, c.cfg.artifactRoot, p)
  }

  lemma OneRoot(c: Scope, p: Path)
    requires c.Apart() && InScope(c, p)
    ensures UnderRoot(c.abs, c.cfg.logRoot, p) <==> !UnderRoot(c.abs, c.cfg.artifactRoot, p)
  {
    if UnderRoot(c.abs, c.cfg.logRoot, p) && UnderRoot(c.abs, c.cfg.artifactRoot, p) {
      RootsShareNothing(c.abs(c.cfg.logRoot), c.abs(c.cfg.artifactRoot), p);
    }
  }

  lemma OwnInScope(c: Scope, run: Run)
    ensures forall p <- Own(c, run) :: InScope(c, p)
  {}

  lemma DistinctFirst(first: Entry, rest: seq<Entry>)
    ensures Distinct([first] + rest) <==> Distinct(rest) && first.path !in Paths(rest)
    ensures Paths([first] + rest) == {first.path} + Paths(rest)
  {
    var entries := [first] + rest;
    PathsOfBoth([first], rest);
    if Distinct(entries) {
      forall k | 0 <= k < |rest| ensures rest[k].path != first.path {
        assert entries[0].path != entries[k + 1].path;
      }
      forall i, k | 0 <= i < k < |rest| ensures rest[i].path != rest[k].path {
        assert entries[i + 1].path != entries[k + 1].path;
      }
    }
    if Distinct(rest) && first.path !in Paths(rest) {
      DistinctJoin([first], rest);
    }
  }

  /** No file with any bytes is listed twice. */
  predicate CountedOnce(entries: seq<Entry>) {
    forall i, k | 0 <= i < k < |entries| && entries[i].path == entries[k].path :: entries[k].size == 0
  }

  lemma CountedOnceLast(files: Files, most: seq<Entry>, last: Entry)
    requires Accurate(files, most + [last])
    ensures CountedOnce(most + [last]) <==> CountedOnce(most) && (last.path in Paths(most) ==> last.size == 0)
  {
    var entries := most + [last];
    assert entries[|most|] == last && forall k | 0 <= k < |most| :: entries[k] == most[k];
    if CountedOnce(entries) {
      forall i, k | 0 <= i < k < |most| && most[i].path == most[k].path ensures most[k].size == 0 {
        assert entries[i].path == entries[k].path;
      }
      if last.path in Paths(most) {
        var e :| e in most && e.path == last.path;
        var i :| 0 <= i < |most| && most[i] == e;
        assert entries[i].path == entries[|most|].path;
      }
    }
    forall i | 0 <= i < |most| && most[i].path == last.path ensures last.path in Paths(most) {}
  }

  lemma FreesLast(c: Scope, files: Files, most: seq<Entry>, last: Entry)
    requires c.Apart() && Accurate(files, [last]) && InScope(c, last.path)
    ensures c.Stored(files - Paths(most)) == c.Stored(files - Paths(most + [last]))
            + if last.path in Paths(most) then 0 else last.size
  {
    var g := files - Paths(most);
    assert last in [last];
    PathsOfBoth(most, [last]);
    StoredWithout(c, g, last.path);
    assert files - Paths(most + [last]) == g - {last.path};
  }

  /**
   What deleting the entries frees is never more than the sum of their
   sizes, and less exactly when a file is counted twice.
   */
  lemma {:induction false} FreesIff(c: Scope, files: Files, entries: seq<Entry>)
    requires c.Apart() && Accurate(files, entries) && forall e <- entries :: InScope(c, e.path)
    ensures c.Stored(files - Paths(entries)) + Sizes(entries) >= c.Stored(files)
    ensures c.Stored(files - Paths(entries)) + Sizes(entries) == c.Stored(files) <==> CountedOnce(entries)
  {
    if entries == [] {
      assert files - Paths(entries) == files;
    } else {
      var most, last := entries[..|entries| - 1], entries[|entries| - 1];
      assert entries == most + [last];
      FreesIff(c, files, most);
      CountedOnceLast(files, most, last);
      FreesLast(c, files, most, last);
    }
  }

  /** Deleting accurate, distinct entries frees exactly the sum of their sizes. */
  lemma PrefixFrees(c: Scope, files: Files, entries: seq<Entry>)
    requires c.Apart() && Accurate(files, entries) && Distinct(entries) && forall e <- entries :: InScope(c, e.path)
    ensures c.Stored(files - Paths(entries)) + Sizes(entries) == c.Stored(files)
  {
    FreesIff(c, files, entries);
  }

  lemma {:induction false} RunFilesDistinct(c: Scope, files: Files, rows: seq<Run>)
    requires c.Apart() && OwnFiles(c, rows)
    ensures Distinct(RunFiles(c, files, rows))
  {
    if rows != [] {
      var most, run := rows[..|rows| - 1], rows[|rows| - 1];
      RunFilesDistinct(c, files, most);
      RunFilesAccurate(c, files, most);
      EntriesOfRow(c, files, run);
      RowFilesDiffer(c, run);
      var before, more := RunFiles(c, files, most), EntryOf(files, c.Log(run)) + EntryOf(files, c.Artifact(run));
      assert Owned(c, most) !! Own(c, run);
      DistinctJoin(before, more);
    }
  }

  lemma RowFilesDiffer(c: Scope, run: Run)
    requires c.Apart()
    ensures c.Log(run).Some? ==> c.Log(run) != c.Artifact(run)
  {
    if c.Log(run).Some? {
      OneRoot(c, c.Log(run).value);
    }
  }

  lemma DistinctJoin(a: seq<Entry>, b: seq<Entry>)
    requires Distinct(a) && Distinct(b) && Paths(a) !! Paths(b)
    ensures Distinct(a + b)
  {
    forall i, k | 0 <= i < k < |a + b| ensures (a + b)[i].path != (a + b)[k].path {
      if i < |a| <= k {
        assert a[i].path in Paths(a) && b[k - |a|].path in Paths(b);
      }
    }
  }

  lemma {:induction false} SortKeeps(entries: seq<Entry>)
    ensures Paths(Sort(entries)) == Paths(entries)
    ensures Distinct(entries) ==> Distinct(Sort(entries))
  {
    if entries != [] {
      var e, rest := entries[0], entries[1..];
      assert entries == [e] + rest;
      SortKeeps(rest);
      InsertKeeps(e, Sort(rest));
      DistinctFirst(e, rest);
    }
  }

  lemma {:induction false} InsertKeeps(e: Entry, entries: seq<Entry>)
    ensures Paths(Insert(e, entries)) == Paths(entries) + {e.path}
    ensures Distinct(entries) && e.path !in Paths(entries) ==> Distinct(Insert(e, entries))
  {
    if entries == [] || !Before(entries[0], e) {
      DistinctFirst(e, entries);
    } else {
      var first, rest := entries[0], entries[1..];
      assert entries == [first] + rest;
      InsertKeeps(e, rest);
      DistinctFirst(first, rest);
      DistinctFirst(first, Insert(e, rest));
    }
  }

  /** What is known of the files enforceTotalStorage considers and of those it deletes. */
  lemma ExcessEffect(c: Scope, files: Files, rows: seq<Run>, unseen: set<Path>)
    ensures var entries := Sort(RunFiles(c, files - unseen, rows));
            && Sorted(entries) && Accurate(files, entries) && Paths(entries) == (files.Keys - unseen) * Owned(c, rows)
            && (c.Apart() && OwnFiles(c, rows) ==> Distinct(entries))
            && forall e <- entries :: InScope(c, e.path)
  {
    var seen := files - unseen;
    var found := RunFiles(c, seen, rows);
    var entries := Sort(found);
    SortSorted(found);
    SortKeeps(found);
    RunFilesAccurate(c, seen, rows);
    assert seen.Keys == files.Keys - unseen;
    if c.Apart() && OwnFiles(c, rows) {
      RunFilesDistinct(c, seen, rows);
    }
    forall e | e in entries ensures e in found && InScope(c, e.path) {
      assert e in multiset(entries);
      assert e.path in Paths(entries);
      var i :| 0 <= i < |rows| && e.path in Own(c, rows[i]);
      OwnInScope(c, rows[i]);
    }
  }

  lemma PartOfEntries(c: Scope, files: Files, entries: seq<Entry>, k: nat)
    requires k <= |entries| && Accurate(files, entries) && Distinct(entries) && forall e <- entries ::
             InScope(c, e.path)
    requires c.Apart()
    ensures c.Stored(files - Paths(entries[..k])) + Sizes(entries[..k]) == c.Stored(files)
  {
    PrefixFrees(c, files, entries[..k]);
  }

  // ---------- The storage cap ----------

  /**
   enforceTotalStorage, for rows that share no file: it frees exactly the sum of the sizes it
   reports; the bytes left fit under the cap or no file of the rows that it can see is left; had it
   stopped one file earlier they would not fit; and every file it deletes comes no later, by
   modification time and then path, than every one it keeps.
   */
  lemma CapIsMetWithTheFewestFiles(c: Scope, files: Files, rows: seq<Run>, unseen: set<Path>)
    requires c.Apart() && OwnFiles(c, rows) && c.cfg.maxTotalStorageBytes > 0
    ensures var entries, deleted := Sort(RunFiles(c, files - unseen, rows)), Excess(c, files, rows, unseen);
            var left := Enforce(c, files, rows, unseen);
            && c.Stored(left) + Sizes(deleted) == c.Stored(files)
            && (c.Stored(left) <= c.cfg.maxTotalStorageBytes
                || Paths(deleted) == (files.Keys - unseen) * Owned(c, rows))
            && (forall j: nat | j < |deleted| :: c.Stored(files - Paths(deleted[..j])) > c.cfg.maxTotalStorageBytes)
            && forall e, kept | e in deleted && kept in entries[|deleted|..] :: !Before(kept, e)
  {
    var entries := Sort(RunFiles(c, files - unseen, rows));
    ExcessEffect(c, files, rows, unseen);
    CutMeetsCap(c, files, entries, c.cfg.maxTotalStorageBytes);
    CutIsOldest(entries, |Excess(c, files, rows, unseen)|);
  }

  lemma CutMeetsCap(c: Scope, files: Files, entries: seq<Entry>, max: int)
    requires c.Apart() && Accurate(files, entries) && Distinct(entries) && forall e <- entries :: InScope(c, e.path)
    ensures var deleted := entries[..Cut(c.Stored(files), entries, max)];
            var left := files - Paths(deleted);
            && c.Stored(left) + Sizes(deleted) == c.Stored(files)
            && (c.Stored(left) <= max || deleted == entries)
            && forall j: nat | j < |deleted| :: c.Stored(files - Paths(deleted[..j])) > max
  {
    var k := Cut(c.Stored(files), entries, max);
    PartOfEntries(c, files, entries, k);
    forall j: nat | j < k ensures c.Stored(files - Paths(entries[..k][..j])) > max {
      assert entries[..k][..j] == entries[..j];
      OneFewer(c, files, entries, max, j);
    }
    if k == |entries| {
      assert entries[..k] == entries;
    }
  }

  lemma OneFewer(c: Scope, files: Files, entries: seq<Entry>, max: int, j: nat)
    requires c.Apart() && Accurate(files, entries) && Distinct(entries) && forall e <- entries :: InScope(c, e.path)
    requires j < Cut(c.Stored(files), entries, max)
    ensures c.Stored(files - Paths(entries[..j])) > max
  {
    PartOfEntries(c, files, entries, j);
  }

  lemma CutIsOldest(entries: seq<Entry>, k: nat)
    requires Sorted(entries) && k <= |entries|
    ensures forall e, kept | e in entries[..k] && kept in entries[k..] :: !Before(kept, e)
  {}

  /** A file of the rows that the cap can see and leaves is newer than each that it takes, or has the later path. */
  lemma CapTakesOldest(c: Scope, files: Files, rows: seq<Run>, unseen: set<Path>, p: Path, q: Path)
    requires p in files && p !in Enforce(c, files, rows, unseen)
    requires q in Enforce(c, files, rows, unseen) && q in Owned(c, rows) && q !in unseen
    ensures q in files
    ensures files[p].modTime < files[q].modTime || (files[p].modTime == files[q].modTime && TextLess(p, q))
  {
    var entries := Sort(RunFiles(c, files - unseen, rows));
    ExcessEffect(c, files, rows, unseen);
    var k := Cut(c.Stored(files), entries, c.cfg.maxTotalStorageBytes);
    var d :| d in entries[..k] && d.path == p;
    assert q in Paths(entries);
    var e :| e in entries && e.path == q;
    assert e !in entries[..k];
    FirstAreOldest(entries, k, d, e);
  }

  lemma FirstAreOldest(entries: seq<Entry>, k: nat, d: Entry, e: Entry)
    requires Sorted(entries) && k <= |entries| && d in entries[..k] && e in entries && e !in entries[..k]
    ensures d.modTime < e.modTime || (d.modTime == e.modTime && (d.path == e.path || TextLess(d.path, e.path)))
  {
    assert entries == entries[..k] + entries[k..];
    CutIsOldest(entries, k);
    TextTotal(d.path, e.path);
  }

  lemma EnforceShrinks(c: Scope, files: Files, rows: seq<Run>, unseen: set<Path>)
    ensures var left := Enforce(c, files, rows, unseen); Shrunk(files, left) && SameOutside(files, left, Owned(c, rows))
  {
    var entries := Sort(RunFiles(c, files - unseen, rows));
    ExcessEffect(c, files, rows, unseen);
    forall p | p in Paths(Excess(c, files, rows, unseen)) ensures p in Owned(c, rows) {
      assert p in Paths(entries);
    }
  }

  lemma NothingInExcess(c: Scope, files: Files, rows: seq<Run>, unseen: set<Path>)
    requires c.cfg.maxTotalStorageBytes > 0
    requires c.Stored(files) <= c.cfg.maxTotalStorageBytes || (files.Keys - unseen) * Owned(c, rows) == {}
    ensures Enforce(c, files, rows, unseen) == files && Excess(c, files, rows, unseen) == []
  {
    var entries := Sort(RunFiles(c, files - unseen, rows));
    ExcessEffect(c, files, rows, unseen);
    NothingToCut(c.Stored(files), entries, c.cfg.maxTotalStorageBytes);
    NothingDeleted(files, Excess(c, files, rows, unseen));
  }

  lemma NothingDeleted(files: Files, entries: seq<Entry>)
    requires entries == []
    ensures files - Paths(entries) == files
  {}

  lemma NothingToCut(total: int, entries: seq<Entry>, max: int)
    requires total <= max || Paths(entries) == {}
    ensures entries[..Cut(total, entries, max)] == []
  {
    if entries != [] {
      assert total - Sizes(entries[..0]) == total;
      assert entries[0].path in Paths(entries);
    }
  }

  /** Rows that share a file: the bytes enforceTotalStorage reports are right exactly when it counted no file twice. */
  lemma ReportedBytesIff(c: Scope, files: Files, rows: seq<Run>, unseen: set<Path>)
    requires c.Apart() && c.cfg.maxTotalStorageBytes > 0
    ensures c.Stored(Enforce(c, files, rows, unseen)) + Sizes(Excess(c, files, rows, unseen)) == c.Stored(files)
            <==> CountedOnce(Excess(c, files, rows, unseen))
  {
    ExcessEffect(c, files, rows, unseen);
    FreesIff(c, files, Excess(c, files, rows, unseen));
  }

  // ---------- A whole pass ----------

  /** The whole pass only shrinks files, leaves every phase done for every row, and touches no other file. */
  lemma PassEffect(c: Scope, files: Files, rows: seq<Run>, k: Clocks, unseen: set<Path>)
    ensures var left := PassFiles(c, files, rows, k, unseen);
            && Shrunk(files, left) && SameOutside(files, left, Owned(c, rows))
            && forall i | 0 <= i < |rows| :: Pruned(c, left, rows[i], k.row(i)) && Expired(c, left, rows[i], k.expiry)
  {
    var f1, f2, left := PruneAll(c, files, rows, k), Swept(c, files, rows, k), PassFiles(c, files, rows, k, unseen);
    PruneAllShrinks(c, files, rows, k);
    ExpireAllShrinks(c, f1, rows, k.expiry);
    EnforceShrinks(c, f2, rows, unseen);
    OutsideChains(files, f1, f2, Owned(c, rows), Owned(c, rows), Owned(c, rows));
    OutsideChains(files, f2, left, Owned(c, rows), Owned(c, rows), Owned(c, rows));
    forall i | 0 <= i < |rows| ensures Pruned(c, left, rows[i], k.row(i)) && Expired(c, left, rows[i], k.expiry) {
      PruneAllSettles(c, files, rows, k, i);
      ExpireAllSettles(c, f1, rows, k.expiry, i);
      ShrunkKeeps(c, f1, f1, f2, rows[i], k.row(i), k.expiry);
      ShrunkKeeps(c, f2, f2, left, rows[i], k.row(i), k.expiry);
    }
  }

  /**
   A deleted row whose finish time really is before the cutoff has neither a log nor an artifact left,
   as long as the pass comes to the cutoff within a day, less a second, of its listing.
   */
  lemma RowsLeaveWithTheirFiles(c: Scope, t: Tables, listed: seq<int>, files: Files, k: Clocks, unseen: set<Path>,
                                r: int)
    requires TerminalListing(t, k.listing, listed) && Complete(t, k.listing, listed)
             && k.expiry + SECOND <= k.listing + DAY
    requires r in t.runs && r !in PassTables(c, t, k.expiry).runs
    requires t.runs[r].finishedAt.value < k.expiry - c.cfg.runHistoryDays * DAY
    ensures var left := PassFiles(c, files, RowsAt(t, listed), k, unseen);
            Gone(left, c.Log(t.runs[r])) && Gone(left, c.Artifact(t.runs[r]))
  {
    var rows := RowsAt(t, listed);
    var i := DeletedRowIsListed(c, t, listed, k, r);
    PassEffect(c, files, rows, k, unseen);
    ListedExpired(c, PassFiles(c, files, rows, k, unseen), rows, k.expiry, i);
  }

  lemma DeletedRowIsListed(c: Scope, t: Tables, listed: seq<int>, k: Clocks, r: int) returns (i: nat)
    requires Complete(t, k.listing, listed) && k.expiry + SECOND <= k.listing + DAY
    requires r in t.runs && r !in PassTables(c, t, k.expiry).runs
    requires t.runs[r].finishedAt.value < k.expiry - c.cfg.runHistoryDays * DAY
    ensures i < |listed| && listed[i] == r && HistoryExpired(c.cfg, t.runs[r], k.expiry)
  {
    var cutoff := k.expiry - c.cfg.runHistoryDays * DAY;
    assert c.cfg.runHistoryDays > 0 && Prunable(t.runs[r], cutoff);
    EarlierByText(t.runs[r].finishedAt.value, k.listing);
    i :| 0 <= i < |listed| && listed[i] == r;
  }

  lemma EarlierByText(finishedAt: Time, now: Time)
    requires finishedAt + SECOND <= now
    ensures TextBefore(finishedAt, now)
  {}

  lemma ListedExpired(c: Scope, left: Files, rows: seq<Run>, now: Time, i: nat)
    requires i < |rows| && Expired(c, left, rows[i], now) && HistoryExpired(c.cfg, rows[i], now)
    ensures Gone(left, c.Log(rows[i])) && Gone(left, c.Artifact(rows[i]))
  {}

  /**
   The second phase takes a row's files exactly when its finish time
   is before the cutoff, as time and not as text.
   */
  lemma ExpiryTakesFilesIff(c: Scope, files: Files, rows: seq<Run>, now: Time, i: nat)
    requires OwnFiles(c, rows) && i < |rows|
    ensures var left := ExpireAll(c, files, rows, now);
            FilesGone(c, left, rows[i]) <==> HistoryExpired(c.cfg, rows[i], now) || FilesGone(c, files, rows[i])
  {
    ExpireAllShrinks(c, files, rows, now);
    ExpireAllSettles(c, files, rows, now, i);
    if !HistoryExpired(c.cfg, rows[i], now) {
      ExpiryLeaves(c, files, rows, now, i);
    }
  }

  lemma {:induction false} ExpiryLeaves(c: Scope, files: Files, rows: seq<Run>, now: Time, i: nat)
    requires OwnFiles(c, rows) && i < |rows| && !HistoryExpired(c.cfg, rows[i], now)
    ensures var left := ExpireAll(c, files, rows, now);
            forall p <- Own(c, rows[i]) :: p in left <==> p in files
  {
    var most, last := rows[..|rows| - 1], rows[|rows| - 1];
    if i < |most| {
      ExpiryLeaves(c, files, most, now, i);
      ExpireOneEffect(c, ExpireAll(c, files, most, now), last, now);
    } else {
      ExpireAllShrinks(c, files, most, now);
      assert Owned(c, most) !! Own(c, last);
    }
  }

  /** Rows that are not terminal keep everything: the row itself, and files that no listed row shares. */
  lemma ActiveRowsAreUntouched(c: Scope, t: Tables, listed: seq<int>, files: Files, k: Clocks, unseen: set<Path>,
                               r: int)
    requires TerminalListing(t, k.listing, listed) && r in t.runs && !t.runs[r].status.Terminal()
    requires Own(c, t.runs[r]) !! Owned(c, RowsAt(t, listed))
    ensures r in PassTables(c, t, k.expiry).runs && PassTables(c, t, k.expiry).runs[r] == t.runs[r]
    ensures var left := PassFiles(c, files, RowsAt(t, listed), k, unseen);
            forall p <- Own(c, t.runs[r]) :: (p in left <==> p in files) && (p in left ==> left[p] == files[p])
  {
    PassEffect(c, files, RowsAt(t, listed), k, unseen);
  }

  /** All readings of the clock are this instant. */
  function Instant(now: Time): Clocks {
    Clocks(now, _ => Reading(now, now, now), now)
  }

  /** A second pass at the same instant changes nothing, whatever it can see then. */
  lemma SecondPassIsIdle(c: Scope, t: Tables, listed: seq<int>, files: Files, now: Time, again: seq<int>,
                         unseen: set<Path>)
    requires c.Apart() && TerminalListing(t, now, listed) && Complete(t, now, listed) && OwnFiles(c, RowsAt(t, listed))
    requires TerminalListing(PassTables(c, t, now), now, again)
    ensures var left := PassFiles(c, files, RowsAt(t, listed), Instant(now), {});
            var kept := PassTables(c, t, now);
            PassTables(c, kept, now) == kept && PassFiles(c, left, RowsAt(kept, again), Instant(now), unseen) == left
  {
    var kept := PassTables(c, t, now);
    AgainRows(c, t, listed, now, again);
    FilesSettle(c, files, RowsAt(t, listed), now, RowsAt(kept, again), unseen);
    TablesSettle(c, t, now);
  }

  lemma TablesSettle(c: Scope, t: Tables, now: Time)
    ensures PassTables(c, PassTables(c, t, now), now) == PassTables(c, t, now)
  {
    PruneTwice(t, now - c.cfg.runHistoryDays * DAY);
  }

  /** The second listing shows rows that the first one showed. */
  lemma AgainRows(c: Scope, t: Tables, listed: seq<int>, now: Time, again: seq<int>)
    requires TerminalListing(t, now, listed) && Complete(t, now, listed)
             && TerminalListing(PassTables(c, t, now), now, again)
    ensures var rows := RowsAt(PassTables(c, t, now), again);
            forall i | 0 <= i < |rows| :: rows[i] in RowsAt(t, listed)
  {
    var kept, rows := PassTables(c, t, now), RowsAt(t, listed);
    forall i | 0 <= i < |again| ensures kept.runs[again[i]] in rows {
      var r := again[i];
      assert r in t.runs && kept.runs[r] == t.runs[r];
      var k :| 0 <= k < |listed| && listed[k] == r;
      assert rows[k] == kept.runs[r];
    }
  }

  lemma FilesSettle(c: Scope, files: Files, rows: seq<Run>, now: Time, again: seq<Run>, unseen: set<Path>)
    requires c.Apart() && OwnFiles(c, rows) && forall i | 0 <= i < |again| :: again[i] in rows
    ensures var left := PassFiles(c, files, rows, Instant(now), {});
            PassFiles(c, left, again, Instant(now), unseen) == left
  {
    var k := Instant(now);
    var left := PassFiles(c, files, rows, k, {});
    PassEffect(c, files, rows, k, {});
    forall i | 0 <= i < |again| ensures Pruned(c, left, again[i], k.row(i)) && Expired(c, left, again[i], now) {
      var m :| 0 <= m < |rows| && rows[m] == again[i];
      assert Pruned(c, left, rows[m], k.row(m));
    }
    PruneAllAgain(c, left, again, k);
    ExpireAllAgain(c, left, again, now);
    if c.cfg.maxTotalStorageBytes > 0 {
      CapHolds(c, Swept(c, files, rows, k), rows, again, unseen);
    }
  }

  /** After the cap has been enforced, enforcing it for some of the same rows deletes nothing. */
  lemma CapHolds(c: Scope, files: Files, rows: seq<Run>, again: seq<Run>, unseen: set<Path>)
    requires c.Apart() && OwnFiles(c, rows) && c.cfg.maxTotalStorageBytes > 0 && forall i | 0 <= i < |again| ::
             again[i] in rows
    ensures var left := Enforce(c, files, rows, {}); Enforce(c, left, again, unseen) == left
  {
    CapIsMetWithTheFewestFiles(c, files, rows, {});
    OwnedBySome(c, rows, again);
    NothingInExcess(c, Enforce(c, files, rows, {}), again, unseen);
  }

  lemma OwnedBySome(c: Scope, rows: seq<Run>, again: seq<Run>)
    requires forall i | 0 <= i < |again| :: again[i] in rows
    ensures Owned(c, again) <= Owned(c, rows)
  {
    forall p | p in Owned(c, again) ensures p in Owned(c, rows) {
      var i :| 0 <= i < |again| && p in Own(c, again[i]);
      var k :| 0 <= k < |rows| && rows[k] == again[i];
    }
  }

  lemma PruneTwice(t: Tables, before: Time)
    ensures PruneTx(PruneTx(t, before), before) == PruneTx(t, before)
  {
    var u := PruneTx(t, before);
    assert PrunableRuns(u, before) == {};
    KeepAll(u.events, {});
  }

  lemma {:induction false} KeepAll(events: seq<RunEvent>, gone: set<int>)
    requires gone == {}
    ensures KeepEvents(events, gone) == events
  {
    if events != [] {
      KeepAll(events[..|events| - 1], gone);
    }
  }

  // ---------- Rows that finish in the cutoff's second ----------

  lemma RowGoneIff(c: Scope, t: Tables, now: Time, r: int)
    requires c.cfg.runHistoryDays > 0 && r in t.runs && t.runs[r].status.Terminal() && t.runs[r].finishedAt.Some?
    ensures r !in PassTables(c, t, now).runs
            <==> TextBefore(t.runs[r].finishedAt.value, now - c.cfg.runHistoryDays * DAY)
  {}

  /**
   Take a listed row that has a file left when the second loop begins.  The row is deleted if and only
   if that loop takes its files, exactly when its finish time and the cutoff do not share a second
   with one trimmed fraction continuing the other.
   */
  lemma RowAndFilesAgreeIff(c: Scope, t: Tables, listed: seq<int>, files: Files, k: Clocks, i: nat)
    requires c.cfg.runHistoryDays > 0 && TerminalListing(t, k.listing, listed) && OwnFiles(c, RowsAt(t, listed))
             && i < |listed|
    requires !FilesGone(c, PruneAll(c, files, RowsAt(t, listed), k), t.runs[listed[i]])
    ensures var run := t.runs[listed[i]];
            (listed[i] !in PassTables(c, t, k.expiry).runs
             <==> FilesGone(c, Swept(c, files, RowsAt(t, listed), k), run))
            <==> !Nested(run.finishedAt.value, k.expiry - c.cfg.runHistoryDays * DAY)
  {
    RowGoneIff(c, t, k.expiry, listed[i]);
    ExpiryTakesFilesIff(c, PruneAll(c, files, RowsAt(t, listed), k), RowsAt(t, listed), k.expiry, i);
  }

  lemma LaterInTheSecond(finishedAt: Time, now: Time, days: int)
    requires var cutoff := now - days * DAY; now % SECOND == 0 && cutoff < finishedAt < cutoff + SECOND
    ensures TextBefore(finishedAt, now - days * DAY)
  {
    var cutoff := now - days * DAY;
    WholeSecond(now, days);
    assert Sec(finishedAt) == Sec(cutoff);
    FractionEmpty(0);
    FractionEmpty(finishedAt % SECOND);
    assert FractionOf(cutoff) == "" && "" < FractionOf(finishedAt);
  }

  /**
   With a cutoff on a whole second, a row that finished later within that second is deleted, while
   each of its files that the first loop has left, and the cap does not reach, is there after the pass.
   */
  lemma LaterRowsLeaveTheirFiles(c: Scope, t: Tables, listed: seq<int>, files: Files, k: Clocks, unseen: set<Path>,
                                 i: nat)
    requires c.cfg.runHistoryDays > 0 && TerminalListing(t, k.listing, listed) && OwnFiles(c, RowsAt(t, listed))
             && i < |listed|
    requires k.expiry % SECOND == 0
    requires var cutoff := k.expiry - c.cfg.runHistoryDays * DAY;
             cutoff < t.runs[listed[i]].finishedAt.value < cutoff + SECOND
    requires c.cfg.maxTotalStorageBytes <= 0
             || c.Stored(Swept(c, files, RowsAt(t, listed), k)) <= c.cfg.maxTotalStorageBytes
    ensures listed[i] !in PassTables(c, t, k.expiry).runs
    ensures var rows := RowsAt(t, listed);
            forall p <- Own(c, t.runs[listed[i]]) :: p in PassFiles(c, files, rows, k, unseen)
              <==> p in PruneAll(c, files, rows, k)
  {
    LaterInTheSecond(t.runs[listed[i]].finishedAt.value, k.expiry, c.cfg.runHistoryDays);
    RowGoneIff(c, t, k.expiry, listed[i]);
    UnexpiredFilesStay(c, files, RowsAt(t, listed), k, unseen, i);
  }

  lemma UnexpiredFilesStay(c: Scope, files: Files, rows: seq<Run>, k: Clocks, unseen: set<Path>, i: nat)
    requires OwnFiles(c, rows) && i < |rows| && !HistoryExpired(c.cfg, rows[i], k.expiry)
    requires c.cfg.maxTotalStorageBytes <= 0 || c.Stored(Swept(c, files, rows, k)) <= c.cfg.maxTotalStorageBytes
    ensures forall p <- Own(c, rows[i]) ::
              p in PassFiles(c, files, rows, k, unseen) <==> p in PruneAll(c, files, rows, k)
  {
    ExpiryLeaves(c, PruneAll(c, files, rows, k), rows, k.expiry, i);
    if c.cfg.maxTotalStorageBytes > 0 {
      NothingInExcess(c, Swept(c, files, rows, k), rows, unseen);
    }
  }

  lemma WholeSecond(now: Time, days: int)
    requires now % SECOND == 0
    ensures (now - days * DAY) % SECOND == 0
  {
    assert now - days * DAY == (now / SECOND - days * 86400) * SECOND;
  }

  /** Once no row owns a file, no later pass removes or shortens it, at whatever instants and whatever it lists. */
  lemma OrphanedFileStays(c: Scope, t: Tables, listed: seq<int>, files: Files, k: Clocks, unseen: set<Path>, p: Path)
    requires TerminalListing(t, k.listing, listed) && p in files && forall r <- t.runs :: p !in Own(c, t.runs[r])
    ensures var left := PassFiles(c, files, RowsAt(t, listed), k, unseen); p in left && left[p] == files[p]
  {
    var rows := RowsAt(t, listed);
    forall i | 0 <= i < |rows| ensures p !in Own(c, rows[i]) {
      var r := listed[i];
      assert r in t.runs && p !in Own(c, t.runs[r]);
      assert rows[i] == t.runs[r];
    }
    PassEffect(c, files, rows, k, unseen);
  }
}
