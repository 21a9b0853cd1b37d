/**
 internal/retention/pruner.go step by step: every call on the file system and the database may
 fail, and the context may end between two files.
 */
module Pruning {
  import opened Model
  import Tables
  import opened Transactions
  import opened ManagedFiles
  import opened Listings
  import opened Retention
  import opened FilePhases
  import opened Store

  /** What os.Stat says. */
  datatype Info = Missing | Directory | Regular(file: File) | Unknown

  class Disk {
    var files: Files
    const dirs: set<Path>

    ghost predicate Valid()
      reads this
    {
      files.Keys !! dirs
    }

    constructor (dirs: set<Path>)
      ensures Valid() && files == map[] && this.dirs == dirs
    {
      this.dirs, files := dirs, map[];
    }

    method Stat(p: Path, broken: bool) returns (info: Info)
      requires Valid()
      ensures info == if broken then Unknown else if p in dirs then Directory
              else if p in files then Regular(files[p]) else Missing
    {
      if broken {
        return Unknown;
      } else if p in dirs {
        return Directory;
      } else if p in files {
        return Regular(files[p]);
      }
      return Missing;
    }

    method Unlink(p: Path, broken: bool) returns (ok: bool)
      requires Valid()
      modifies this
      ensures Valid() && ok == !broken && files == if ok then old(files) - {p} else old(files)
    {
      if broken {
        return false;
      }
      files := files - {p};
      return true;
    }

    method Shorten(p: Path, size: nat, now: Time, broken: bool) returns (ok: bool)
      requires Valid() && p in files
      modifies this
      ensures Valid() && ok == !broken && files == if ok then old(files)[p := File(size, now)] else old(files)
    {
      if broken {
        return false;
      }
      files := files[p := File(size, now)];
      return true;
    }
  }

  /** fileDeleteCounts. */
  datatype Counts = Counts(logs: nat, artifacts: nat, truncatedLogs: nat)

  datatype Report = Report(deletedRuns: nat, deletedLogFiles: nat, deletedArtifacts: nat, truncatedLogFiles: nat,
                           freedBytes: int)

  const NOTHING: Report := Report(0, 0, 0, 0, 0)

  class Pruner {
    const disk: Disk
    const db: Database
    const c: Scope

    constructor (disk: Disk, db: Database, c: Scope)
      ensures this.disk == disk && this.db == db && this.c == c
    {
      this.disk, this.db, this.c := disk, db, c;
    }

    /** The bytes under the two roots. */
    ghost function Stored(): nat
      reads disk
    {
      c.Stored(disk.files)
    }

    /** removeManagedFile; faults 0 and 1 are its stat and its remove. */
    method RemoveManagedFile(root: string, path: Option<string>, faults: Faults)
      returns (ok: bool, deleted: bool, bytes: nat)
      requires disk.Valid() && c.Apart() && (root == c.cfg.logRoot || root == c.cfg.artifactRoot)
      modifies disk
      ensures disk.Valid() && bytes + Stored() == old(Stored())
      ensures bytes > 0 ==> deleted
      ensures disk.files == if ok then Remove(old(disk.files), Target(c.abs, root, path)) else old(disk.files)
      ensures deleted <==> IsTaken(old(disk.files), disk.files, Target(c.abs, root, path))
      ensures (forall k :: !faults(k)) ==> ok
    {
      var target := Target(c.abs, root, path);
      if target.None? {
        return true, false, 0;
      }
      var info := disk.Stat(target.value, faults(0));
      match info
      case Unknown => return false, false, 0;
      case Missing => return true, false, 0;
      case Directory => return true, false, 0;
      case Regular(file) =>
        ok := disk.Unlink(target.value, faults(1));
        if !ok {
          return false, false, 0;
        }
        StoredWithout(c, old(disk.files), target.value);
        return true, true, file.size;
    }

    /** truncateManagedFile on the log root; faults 2 and 3 are its stat and its truncate. */
    method TruncateManagedFile(path: string, max: nat, now: Time, faults: Faults)
      returns (ok: bool, truncated: bool, bytes: nat)
      requires disk.Valid() && c.Apart()
      modifies disk
      ensures disk.Valid() && bytes + Stored() == old(Stored())
      ensures bytes > 0 ==> truncated
      ensures disk.files == if ok then Truncate(old(disk.files), Clean(c.abs, c.cfg.logRoot, path), max, now)
              else old(disk.files)
      ensures truncated <==> disk.files != old(disk.files)
      ensures disk.files.Keys == old(disk.files.Keys)
      ensures (forall k :: !faults(k)) ==> ok
    {
      var target := Clean(c.abs, c.cfg.logRoot, path);
      if target.None? {
        return true, false, 0;
      }
      var info := disk.Stat(target.value, faults(2));
      match info
      case Unknown => return false, false, 0;
      case Missing => return true, false, 0;
      case Directory => return true, false, 0;
      case Regular(file) =>
        if file.size <= max {
          return true, false, 0;
        }
        ok := disk.Shorten(target.value, max, now, faults(3));
        if !ok {
          return false, false, 0;
        }
        StoredWith(c, old(disk.files), target.value, File(max, now));
        return true, true, file.size - max;
    }

    /** The removals of pruneRunFiles; freed is what they took from the disk, also when one fails. */
    method RemoveExpiredFiles(run: Run, k: Reading, faults: Faults) returns (ok: bool, counts: Counts, freed: nat)
      requires disk.Valid() && c.Apart()
      modifies disk
      ensures disk.Valid() && freed + Stored() == old(Stored())
      ensures ok ==> disk.files == DeleteExpired(c, old(disk.files), run, k)
      ensures Takes(c, old(disk.files), disk.files, run, counts) && counts.truncatedLogs == 0
      ensures !Shortened(old(disk.files), disk.files, c.Log(run))
      ensures (forall m :: !faults(m)) ==> ok
    {
      var expired := if run.status.Success?
        then c.cfg.successLogDays > 0 && OlderThan(run.finishedAt, c.cfg.successLogDays, k.log)
                     else c.cfg.failedLogDays > 0 && OlderThan(run.finishedAt, c.cfg.failedLogDays, k.log);
      counts, freed := Counts(0, 0, 0), 0;
      ghost var before := disk.files;
      var deleted, bytes;
      if expired {
        ok, deleted, bytes := RemoveManagedFile(c.cfg.logRoot, run.logPath, faults);
        if !ok {
          TakesBoth(c, before, before, before, run, counts);
          return;
        }
        counts, freed := Counts(if deleted then 1 else 0, 0, 0), bytes;
      }
      ghost var between := disk.files;
      if c.cfg.artifactDays > 0 && OlderThan(run.finishedAt, c.cfg.artifactDays, k.artifact) {
        ok, deleted, bytes := RemoveManagedFile(c.cfg.artifactRoot, run.resultPath, (m: nat) => faults(m + 4));
        if !ok {
          TakesBoth(c, before, between, between, run, counts);
          return;
        }
        counts, freed := counts.(artifacts := if deleted then 1 else 0), freed + bytes;
      }
      ok := true;
      TakesBoth(c, before, between, disk.files, run, counts);
    }

    /** pruneRunFiles. */
    method PruneRunFiles(run: Run, k: Reading, faults: Faults) returns (ok: bool, counts: Counts, freed: nat)
      requires disk.Valid() && c.Apart()
      modifies disk
      ensures disk.Valid() && freed + Stored() == old(Stored())
      ensures ok ==> disk.files == PruneOne(c, old(disk.files), run, k)
      ensures ok ==> PhaseOne(c, old(disk.files), disk.files, run, k)
      ensures Takes(c, old(disk.files), disk.files, run, counts)
      ensures counts.truncatedLogs == if Shortened(old(disk.files), disk.files, c.Log(run)) then 1 else 0
      ensures (forall m :: !faults(m)) ==> ok
    {
      ghost var before := disk.files;
      PruneOneIs(c, before, run, k);
      ok, counts, freed := RemoveExpiredFiles(run, k, faults);
      if !ok {
        return;
      }
      if c.cfg.maxLogBytesPerRun > 0 && run.logPath.Some? {
        var truncated, bytes;
        ghost var between := disk.files;
        ok, truncated, bytes := TruncateManagedFile(run.logPath.value, c.cfg.maxLogBytesPerRun, k.touch, faults);
        TakesThenCuts(c, before, between, disk.files, run, counts, c.cfg.maxLogBytesPerRun, k.touch);
        if !ok {
          return;
        }
        if truncated {
          counts, freed := counts.(truncatedLogs := counts.truncatedLogs + 1), freed + bytes;
        }
      }
    }

    /** removeAllRunFiles. */
    method RemoveAllRunFiles(run: Run, faults: Faults) returns (ok: bool, counts: Counts, freed: nat)
      requires disk.Valid() && c.Apart()
      modifies disk
      ensures disk.Valid() && freed + Stored() == old(Stored())
      ensures ok ==> disk.files == Remove(Remove(old(disk.files), c.Log(run)), c.Artifact(run))
      ensures Takes(c, old(disk.files), disk.files, run, counts) && counts.truncatedLogs == 0
      ensures (forall k :: !faults(k)) ==> ok
    {
      counts, freed := Counts(0, 0, 0), 0;
      ghost var before := disk.files;
      var deleted, bytes;
      ok, deleted, bytes := RemoveManagedFile(c.cfg.logRoot, run.logPath, faults);
      if !ok {
        TakesBoth(c, before, before, before, run, counts);
        return;
      }
      if deleted {
        counts, freed := counts.(logs := counts.logs + 1), freed + bytes;
      }
      ghost var between := disk.files;
      ok, deleted, bytes := RemoveManagedFile(c.cfg.artifactRoot, run.resultPath, (k: nat) => faults(k + 2));
      if !ok {
        TakesBoth(c, before, between, between, run, counts);
        return;
      }
      if deleted {
        counts, freed := counts.(artifacts := counts.artifacts + 1), freed + bytes;
      }
      TakesBoth(c, before, between, disk.files, run, counts);
    }

    /** managedStorageBytes; the walk of a root visits its files in some order. */
    method ManagedStorageBytes(broken: bool) returns (ok: bool, total: nat)
      requires disk.Valid()
      ensures ok == !broken && (ok ==> total == Stored())
    {
      if broken {
        return false, 0;
      }
      var logs := WalkRoot(c.cfg.logRoot);
      var artifacts := WalkRoot(c.cfg.artifactRoot);
      return true, logs + artifacts;
    }

    method WalkRoot(root: string) returns (total: nat)
      ensures total == Bytes(c.abs, root, disk.files)
    {
      total := 0;
      if root == "" {
        return;
      }
      var rest := Within(disk.files, c.abs(root));
      while rest != map[]
        invariant total + SizeOf(rest) == Bytes(c.abs, root, disk.files)
        decreases |rest|
      {
        var p :| p in rest;
        SizeWithout(rest, p);
        total := total + rest[p].size;
        rest := rest - {p};
      }
    }

    /** terminalRunFiles: a file whose stat fails is left out, like a directory and a missing file. */
    method TerminalRunFiles(rows: seq<Run>, unseen: set<Path>) returns (entries: seq<Entry>)
      requires disk.Valid()
      ensures entries == RunFiles(c, disk.files - unseen, rows)
    {
      entries := [];
      var i := 0;
      while i < |rows|
        invariant i <= |rows| && entries == RunFiles(c, disk.files - unseen, rows[..i])
      {
        assert rows[..i + 1][..i] == rows[..i];
        var log := StatManagedRunFile(c.cfg.logRoot, rows[i].logPath, unseen);
        var artifact := StatManagedRunFile(c.cfg.artifactRoot, rows[i].resultPath, unseen);
        entries := entries + (log + artifact);
        i := i + 1;
      }
      assert rows[..i] == rows;
    }

    /** statManagedRunFile: one entry, or none. */
    method StatManagedRunFile(root: string, path: Option<string>, unseen: set<Path>) returns (found: seq<Entry>)
      requires disk.Valid()
      ensures found == EntryOf(disk.files - unseen, Target(c.abs, root, path))
    {
      var target := Target(c.abs, root, path);
      if target.None? {
        return [];
      }
      var info := disk.Stat(target.value, target.value in unseen);
      if info.Regular? {
        return [Entry(target.value, info.file.size, info.file.modTime)];
      }
      return [];
    }

    /** enforceTotalStorage; done says whether the context has ended before the k-th file. */
    method EnforceTotalStorage(rows: seq<Run>, unseen: set<Path>, done: nat -> bool, faults: Faults)
      returns (ok: bool, freed: nat)
      requires disk.Valid() && c.Apart() && c.cfg.maxTotalStorageBytes > 0
      modifies disk
      ensures disk.Valid() && Stored() <= old(Stored()) && forall p <- disk.files :: p in old(disk.files)
      ensures ok ==>
                disk.files == Enforce(c, old(disk.files), rows, unseen)
                && freed == Sizes(Excess(c, old(disk.files), rows, unseen))
      ensures (forall k :: !faults(k) && !done(k)) ==> ok
    {
      var total;
      ok, total := ManagedStorageBytes(faults(0));
      if !ok {
        return false, 0;
      }
      if total <= c.cfg.maxTotalStorageBytes {
        NothingInExcess(c, disk.files, rows, unseen);
        return true, 0;
      }
      var entries := TerminalRunFiles(rows, unseen);
      ExcessEffect(c, disk.files, rows, unseen);
      ok, freed := DeleteOldest(Sort(entries), total, c.cfg.maxTotalStorageBytes, done, faults);
    }

    /** The loop of enforceTotalStorage over the sorted files. */
    method DeleteOldest(entries: seq<Entry>, stored: int, max: int, done: nat -> bool, faults: Faults)
      returns (ok: bool, freed: nat)
      requires disk.Valid() && c.Apart() && forall e <- entries :: InScope(c, e.path)
      modifies disk
      ensures disk.Valid() && Stored() <= old(Stored()) && forall p <- disk.files :: p in old(disk.files)
      ensures var deleted := entries[..Cut(stored, entries, max)];
              ok ==> disk.files == old(disk.files) - Paths(deleted) && freed == Sizes(deleted)
      ensures (forall k :: !faults(k) && !done(k)) ==> ok
    {
      var total := stored;
      ghost var was := disk.files;
      freed := 0;
      var i := 0;
      assert was - Paths(entries[..0]) == was;
      while i < |entries|
        invariant i <= |entries| && disk.Valid() && Stored() <= old(Stored())
        invariant disk.files == was - Paths(entries[..i])
        invariant total == stored - Sizes(entries[..i]) && freed == Sizes(entries[..i])
        invariant forall j: nat | j < i :: stored - Sizes(entries[..j]) > max
      {
        if done(i) {
          return false, freed;
        }
        if total <= max {
          break;
        }
        NextDeleted(c, was, disk.files, entries, i);
        ok := disk.Unlink(entries[i].path, faults(i + 1));
        if !ok {
          return false, freed;
        }
        total, freed := total - entries[i].size, freed + entries[i].size;
        i := i + 1;
      }
      CutIsUnique(stored, entries, max, i);
      ok := true;
    }

    /** The first loop of Run; done says whether the context has ended before the i-th row. */
    method PruneListed(rows: seq<Run>, k: Clocks, done: nat -> bool, faults: Faults) returns (ok: bool, report: Report)
      requires disk.Valid() && c.Apart()
      modifies disk
      ensures disk.Valid() && report.deletedRuns == 0
      ensures report.freedBytes + Stored() <= old(Stored())
      ensures ok ==>
                disk.files == PruneAll(c, old(disk.files), rows, k)
                && report.freedBytes + Stored() == old(Stored())
      ensures ok ==> Accounts(c, old(disk.files), disk.files, report)
      ensures !ok ==> ClaimsNoMore(c, old(disk.files), disk.files, report)
      ensures ok ==> report.truncatedLogFiles == Shortenings(c, old(disk.files), rows, k)
      ensures (forall m :: !faults(m) && !done(m)) ==> ok
    {
      report := NOTHING;
      ghost var first := disk.files;
      var i := 0;
      while i < |rows|
        invariant i <= |rows| && disk.Valid() && report.deletedRuns == 0
        invariant disk.files == PruneAll(c, old(disk.files), rows[..i], k)
                  && report.freedBytes + Stored() == old(Stored())
        invariant Accounts(c, old(disk.files), disk.files, report)
        invariant report.truncatedLogFiles == Shortenings(c, old(disk.files), rows[..i], k)
      {
        if done(i) {
          return false, report;
        }
        ghost var before := disk.files;
        var counts, freed;
        ok, counts, freed := PruneRunFiles(rows[i], k.row(i), (m: nat) => faults(6 * i + m));
        NextRow(c, first, before, disk.files, report, rows[i], counts, freed);
        if !ok {
          return;
        }
        NextPruned(c, first, rows, k, i);
        report := Add(report, counts, freed);
        i := i + 1;
      }
      assert rows[..i] == rows;
      ok := true;
    }

    /** The body of the second loop of Run. */
    method ExpireRow(run: Run, now: Time, faults: Faults) returns (ok: bool, counts: Counts, freed: nat)
      requires disk.Valid() && c.Apart() && c.cfg.runHistoryDays > 0
      modifies disk
      ensures disk.Valid() && freed + Stored() == old(Stored())
      ensures ok ==> disk.files == ExpireOne(c, old(disk.files), run, now)
      ensures Takes(c, old(disk.files), disk.files, run, counts) && counts.truncatedLogs == 0
      ensures (forall k :: !faults(k)) ==> ok
    {
      var cutoff := now - c.cfg.runHistoryDays * DAY;
      if run.finishedAt.None? || run.finishedAt.value >= cutoff {
        return true, Counts(0, 0, 0), 0;
      }
      ok, counts, freed := RemoveAllRunFiles(run, faults);
    }

    /** The second loop of Run. */
    method ExpireListed(rows: seq<Run>, now: Time, faults: Faults) returns (ok: bool, report: Report)
      requires disk.Valid() && c.Apart() && c.cfg.runHistoryDays > 0
      modifies disk
      ensures disk.Valid() && report.deletedRuns == 0
      ensures report.freedBytes + Stored() <= old(Stored())
      ensures ok ==>
                disk.files == ExpireAll(c, old(disk.files), rows, now)
                && report.freedBytes + Stored() == old(Stored())
      ensures ok ==> Accounts(c, old(disk.files), disk.files, report)
      ensures !ok ==> ClaimsNoMore(c, old(disk.files), disk.files, report)
      ensures report.truncatedLogFiles == 0
      ensures (forall k :: !faults(k)) ==> ok
    {
      report := NOTHING;
      ghost var first := disk.files;
      var i := 0;
      while i < |rows|
        invariant i <= |rows| && disk.Valid() && report.deletedRuns == report.truncatedLogFiles == 0
        invariant disk.files == ExpireAll(c, old(disk.files), rows[..i], now)
                  && report.freedBytes + Stored() == old(Stored())
        invariant Accounts(c, old(disk.files), disk.files, report)
      {
        ghost var before := disk.files;
        var counts, freed;
        ok, counts, freed := ExpireRow(rows[i], now, (k: nat) => faults(4 * i + k));
        NextRow(c, first, before, disk.files, report, rows[i], counts, freed);
        if !ok {
          return;
        }
        NextExpired(c, first, rows, now, i);
        report := Add(report, counts, freed);
        i := i + 1;
      }
      assert rows[..i] == rows;
      ok := true;
    }

    /** The part of Run under RunHistoryDays: the files of the expired rows, then the rows. */
    method ExpireHistory(rows: seq<Run>, now: Time, broken: bool, faults: Faults) returns (ok: bool, report: Report)
      requires disk.Valid() && c.Apart()
      modifies disk, db
      ensures disk.Valid() && report.freedBytes + Stored() <= old(Stored())
      ensures ok ==>
                disk.files == ExpireAll(c, old(disk.files), rows, now)
                && report.freedBytes + Stored() == old(Stored())
      ensures db.Db() == if ok then PassTables(c, old(db.Db()), now) else old(db.Db())
      ensures ok ==> report.deletedRuns + |db.runs| == |old(db.runs)|
      ensures ok ==> Accounts(c, old(disk.files), disk.files, report)
      ensures !ok ==> ClaimsNoMore(c, old(disk.files), disk.files, report)
      ensures (forall k :: !faults(k)) && !broken ==> ok
    {
      if c.cfg.runHistoryDays <= 0 {
        NothingExpires(c, disk.files, rows, now);
        return true, NOTHING;
      }
      ok, report := ExpireListed(rows, now, faults);
      if !ok {
        return;
      }
      var deleted := DeleteHistory(now, broken);
      ok := deleted.Some?;
      if ok {
        report := report.(deletedRuns := deleted.value);
      }
    }

    method DeleteHistory(now: Time, broken: bool) returns (deleted: Option<nat>)
      requires c.cfg.runHistoryDays > 0
      modifies db
      ensures deleted.Some? <==> !broken
      ensures db.Db() == if broken then old(db.Db()) else PassTables(c, old(db.Db()), now)
      ensures deleted.Some? ==> deleted.value + |db.runs| == |old(db.runs)|
    {
      var cutoff := now - c.cfg.runHistoryDays * DAY;
      DeletedRows(db.Db(), cutoff);
      deleted := db.DeleteTerminalBefore(cutoff, broken);
    }

    /** The part of Run under MaxTotalStorageBytes. */
    method CapStorage(rows: seq<Run>, unseen: set<Path>, done: nat -> bool, faults: Faults)
      returns (ok: bool, freed: nat)
      requires disk.Valid() && c.Apart()
      modifies disk
      ensures disk.Valid() && Stored() <= old(Stored()) && forall p <- disk.files :: p in old(disk.files)
      ensures ok ==> disk.files == Enforce(c, old(disk.files), rows, unseen)
      ensures ok ==> (freed + Stored() == old(Stored()) <==> CapCountsOnce(c, old(disk.files), rows, unseen))
      ensures (forall k :: !faults(k) && !done(k)) ==> ok
    {
      if c.cfg.maxTotalStorageBytes <= 0 {
        return true, 0;
      }
      ReportedBytesIff(c, disk.files, rows, unseen);
      ok, freed := EnforceTotalStorage(rows, unseen, done, faults);
    }

    /**
     Run: a whole pass.  It ends in the files and tables of the pass, or with an error; the report's
     bytes are the bytes that are gone, as long as the last phase counts no file twice, and never
     claim more than that when the pass fails.  Its file counts are those of the first two phases: what
     the cap deletes is in the bytes only.  doneRows and doneFiles say whether the context has ended
     before a row of the first loop and before a file of the cap's.
     */
    method Run(k: Clocks, broken: nat -> bool, doneRows: nat -> bool, doneFiles: nat -> bool, faults: nat -> Faults,
               unseen: set<Path>)
      returns (ok: bool, report: Report)
      requires disk.Valid() && c.Apart()
      modifies disk, db
      ensures disk.Valid()
      ensures !c.cfg.enabled ==> ok && report == NOTHING && disk.files == old(disk.files) && db.Db() == old(db.Db())
      ensures c.cfg.enabled && ok ==>
                disk.files == PassFiles(c, old(disk.files), Listed(old(db.Db()), k), k, unseen)
                && db.Db() == PassTables(c, old(db.Db()), k.expiry)
      ensures ok ==> report.deletedRuns + |db.runs| == |old(db.runs)|
      ensures c.cfg.enabled && ok ==>
                (report.freedBytes + Stored() == old(Stored())
                 <==> PassCountsOnce(c, old(disk.files), Listed(old(db.Db()), k), k, unseen))
      ensures c.cfg.enabled && ok ==>
                var rows := Listed(old(db.Db()), k);
                Accounts(c, old(disk.files), Swept(c, old(disk.files), rows, k), report)
                && report.truncatedLogFiles == Shortenings(c, old(disk.files), rows, k)
      ensures !ok ==>
                report.freedBytes + Stored() <= old(Stored())
                && ClaimsNoMore(c, old(disk.files), disk.files, report)
      ensures (forall i, m :: !faults(i)(m)) && (forall i :: !doneRows(i) && !doneFiles(i) && !broken(i)) ==> ok
    {
      report := NOTHING;
      if !c.cfg.enabled {
        return true, report;
      }
      var page := db.ListTerminalBefore(k.listing, broken(0));
      if page.None? {
        return false, report;
      }
      var rows := RowsAt(db.Db(), page.value);
      ghost var first := disk.files;
      ok, report := Sweep(rows, k, broken(1), doneRows, faults);
      if !ok {
        return;
      }
      ghost var swept := disk.files;
      var freed;
      ok, freed := CapStorage(rows, unseen, doneFiles, faults(2));
      FewerLeft(c, first, swept, disk.files, report);
      if ok {
        report := report.(freedBytes := report.freedBytes + freed);
      }
    }

    /** The two loops of Run and the deletion of the rows. */
    method Sweep(rows: seq<Run>, k: Clocks, broken: bool, done: nat -> bool, faults: nat -> Faults)
      returns (ok: bool, report: Report)
      requires disk.Valid() && c.Apart()
      modifies disk, db
      ensures disk.Valid() && report.freedBytes + Stored() <= old(Stored())
      ensures ok ==> disk.files == Swept(c, old(disk.files), rows, k) && report.freedBytes + Stored() == old(Stored())
      ensures ok ==>
                db.Db() == PassTables(c, old(db.Db()), k.expiry)
                && report.deletedRuns + |db.runs| == |old(db.runs)|
      ensures ok ==> Accounts(c, old(disk.files), disk.files, report)
      ensures !ok ==> ClaimsNoMore(c, old(disk.files), disk.files, report)
      ensures ok ==> report.truncatedLogFiles == Shortenings(c, old(disk.files), rows, k)
      ensures (forall i, m :: !faults(i)(m)) && (forall i :: !done(i)) && !broken ==> ok
    {
      ghost var first := disk.files;
      ok, report := PruneListed(rows, k, done, faults(0));
      if !ok {
        return;
      }
      ghost var pruned := disk.files;
      var more;
      ok, more := ExpireHistory(rows, k.expiry, broken, faults(1));
      BothAccount(c, first, pruned, disk.files, report, more);
      report := Both(report, more);
    }
  }

  /** The report of the two loops; the second one cuts no log. */
  function Both(report: Report, more: Report): Report {
    Report(more.deletedRuns, report.deletedLogFiles + more.deletedLogFiles,
           report.deletedArtifacts + more.deletedArtifacts,
           report.truncatedLogFiles, report.freedBytes + more.freedBytes)
  }

  /** The rows of a pass. */
  function Listed(t: Tables.Tables, k: Clocks): seq<Run> {
    RowsAt(t, TerminalPage(t, k.listing))
  }

  function Add(report: Report, counts: Counts, freed: nat): Report {
    Report(report.deletedRuns, report.deletedLogFiles + counts.logs, report.deletedArtifacts + counts.artifacts,
           report.truncatedLogFiles + counts.truncatedLogs, report.freedBytes + freed)
  }

  /** A run's log and artifact are counted exactly where they were there before and are gone; nothing else goes. */
  predicate Takes(c: Scope, before: Files, after: Files, run: Run, counts: Counts) {
    && (forall p <- after :: p in before)
    && (forall p <- before :: p in after || c.Log(run) == Some(p) || c.Artifact(run) == Some(p))
    && counts.logs == (if IsTaken(before, after, c.Log(run)) then 1 else 0)
    && counts.artifacts == if IsTaken(before, after, c.Artifact(run)) then 1 else 0
  }

  predicate IsTaken(before: Files, after: Files, target: Option<Path>) {
    !Gone(before, target) && Gone(after, target)
  }

  predicate Shortened(before: Files, after: Files, target: Option<Path>) {
    !Gone(before, target) && target.Some? && target.value in after && after[target.value] != before[target.value]
  }

  /** How often a row's log is cut in the first loop. */
  function Shortenings(c: Scope, files: Files, rows: seq<Run>, k: Clocks): nat {
    if rows == [] then 0
    else
      var most, last := rows[..|rows| - 1], rows[|rows| - 1];
      var before := PruneAll(c, files, most, k);
      Shortenings(c, files, most, k) +
      if Shortened(before, PruneOne(c, before, last, k.row(|most|)), c.Log(last)) then 1 else 0
  }

  function FilesUnder(c: Scope, root: string, files: Files): set<Path> {
    set p | p in files && UnderRoot(c.abs, root, p)
  }

  /** The files that are gone from each root are the ones reported. */
  predicate Accounts(c: Scope, before: Files, after: Files, report: Report) {
    && |FilesUnder(c, c.cfg.logRoot, before)| == |FilesUnder(c, c.cfg.logRoot, after)| + report.deletedLogFiles
    && |FilesUnder(c, c.cfg.artifactRoot, before)|
       == |FilesUnder(c, c.cfg.artifactRoot, after)| + report.deletedArtifacts
  }

  /** No more files are reported than are gone. */
  predicate ClaimsNoMore(c: Scope, before: Files, after: Files, report: Report) {
    && |FilesUnder(c, c.cfg.logRoot, before)| >= |FilesUnder(c, c.cfg.logRoot, after)| + report.deletedLogFiles
    && |FilesUnder(c, c.cfg.artifactRoot, before)|
       >= |FilesUnder(c, c.cfg.artifactRoot, after)| + report.deletedArtifacts
  }

  /** The log goes first, then the artifact, which is another file. */
  lemma TakesBoth(c: Scope, before: Files, between: Files, after: Files, run: Run, counts: Counts)
    requires c.Apart()
    requires between == before || between == Remove(before, c.Log(run))
    requires after == between || after == Remove(between, c.Artifact(run))
    requires counts.logs == if IsTaken(before, between, c.Log(run)) then 1 else 0
    requires counts.artifacts == if IsTaken(between, after, c.Artifact(run)) then 1 else 0
    ensures Takes(c, before, after, run, counts) && !Shortened(before, after, c.Log(run))
  {
    LogIsNoArtifact(c, run);
  }

  lemma LogIsNoArtifact(c: Scope, run: Run)
    requires c.Apart()
    ensures c.Log(run).Some? ==> !UnderRoot(c.abs, c.cfg.artifactRoot, c.Log(run).value)
    ensures c.Artifact(run).Some? ==> !UnderRoot(c.abs, c.cfg.logRoot, c.Artifact(run).value)
  {
    if c.Log(run).Some? {
      OneRoot(c, c.Log(run).value);
    }
    if c.Artifact(run).Some? {
      OneRoot(c, c.Artifact(run).value);
    }
  }

  /** Cutting the log afterwards takes no file. */
  lemma TakesThenCuts(c: Scope, before: Files, between: Files, after: Files, run: Run, counts: Counts, max: nat,
                      now: Time)
    requires Takes(c, before, between, run, counts) && !Shortened(before, between, c.Log(run))
    requires after == between || after == Truncate(between, c.Log(run), max, now)
    ensures Takes(c, before, after, run, counts)
    ensures Shortened(before, after, c.Log(run)) <==> after != between
  {}

  lemma NextPruned(c: Scope, files: Files, rows: seq<Run>, k: Clocks, i: nat)
    requires i < |rows|
    ensures var before, after := PruneAll(c, files, rows[..i], k), PruneAll(c, files, rows[..i + 1], k);
            && after == PruneOne(c, before, rows[i], k.row(i))
            && Shortenings(c, files, rows[..i + 1], k)
               == Shortenings(c, files, rows[..i], k) + if Shortened(before, after, c.Log(rows[i])) then 1 else 0
  {
    assert rows[..i + 1][..i] == rows[..i];
  }

  lemma NextExpired(c: Scope, files: Files, rows: seq<Run>, now: Time, i: nat)
    requires i < |rows|
    ensures ExpireAll(c, files, rows[..i + 1], now) == ExpireOne(c, ExpireAll(c, files, rows[..i], now), rows[i], now)
  {
    assert rows[..i + 1][..i] == rows[..i];
  }

  lemma NextRow(c: Scope, first: Files, before: Files, after: Files, report: Report, run: Run, counts: Counts,
                freed: nat)
    requires c.Apart() && Accounts(c, first, before, report) && Takes(c, before, after, run, counts)
    ensures Accounts(c, first, after, Add(report, counts, freed)) && ClaimsNoMore(c, first, after, report)
  {
    LogIsNoArtifact(c, run);
    RootTakes(c, c.cfg.logRoot, before, after, c.Log(run), c.Artifact(run));
    RootTakes(c, c.cfg.artifactRoot, before, after, c.Artifact(run), c.Log(run));
  }

  lemma BothAccount(c: Scope, first: Files, before: Files, after: Files, report: Report, more: Report)
    requires Accounts(c, first, before, report)
    ensures Accounts(c, before, after, more) ==> Accounts(c, first, after, Both(report, more))
    ensures ClaimsNoMore(c, before, after, more) ==> ClaimsNoMore(c, first, after, Both(report, more))
  {}

  lemma FewerLeft(c: Scope, first: Files, before: Files, after: Files, report: Report)
    requires Accounts(c, first, before, report) && forall p <- after :: p in before
    ensures ClaimsNoMore(c, first, after, report)
  {
    FewerUnder(c, c.cfg.logRoot, before, after);
    FewerUnder(c, c.cfg.artifactRoot, before, after);
  }

  lemma FewerUnder(c: Scope, root: string, before: Files, after: Files)
    requires forall p <- after :: p in before
    ensures |FilesUnder(c, root, after)| <= |FilesUnder(c, root, before)|
  {
    var some, all := FilesUnder(c, root, after), FilesUnder(c, root, before);
    assert |all| == |some| + |all - some|;
  }

  /** Of two files that may go, only the one under this root matters to it. */
  lemma RootTakes(c: Scope, root: string, before: Files, after: Files, mine: Option<Path>, other: Option<Path>)
    requires forall p <- after :: p in before
    requires forall p <- before :: p !in after ==> mine == Some(p) || other == Some(p)
    requires mine.Some? ==> UnderRoot(c.abs, root, mine.value)
    requires other.Some? ==> !UnderRoot(c.abs, root, other.value)
    ensures |FilesUnder(c, root, before)| == |FilesUnder(c, root, after)|
            + if IsTaken(before, after, mine) then 1 else 0
  {
    var all, left := FilesUnder(c, root, before), FilesUnder(c, root, after);
    if IsTaken(before, after, mine) {
      assert all == left + {mine.value};
    } else {
      assert all == left;
    }
  }

  /**
   Where no two rows share a file, a log is cut at most once, and
   stays: the count is that of the logs left shorter.
   */
  lemma {:induction false} OwnLogsAreCutOnce(c: Scope, files: Files, rows: seq<Run>, k: Clocks)
    requires OwnFiles(c, rows)
    ensures Shortenings(c, files, rows, k) == |CutRows(c, files, PruneAll(c, files, rows, k), rows)|
  {
    if rows != [] {
      var most, last := rows[..|rows| - 1], rows[|rows| - 1];
      var before := PruneAll(c, files, most, k);
      OwnLogsAreCutOnce(c, files, most, k);
      PruneAllShrinks(c, files, most, k);
      PruneOneEffect(c, before, last, k.row(|most|));
      OwnedGrows(c, rows);
      LastIsCut(c, files, before, PruneOne(c, before, last, k.row(|most|)), rows);
    }
  }

  lemma LastIsCut(c: Scope, files: Files, before: Files, after: Files, rows: seq<Run>)
    requires rows != [] && OwnFiles(c, rows)
    requires var most := rows[..|rows| - 1]; SameOutside(files, before, Owned(c, most)) && Shrunk(files, before)
    requires SameOutside(before, after, Own(c, rows[|rows| - 1])) && Shrunk(before, after)
    ensures var last := |rows| - 1;
            CutRows(c, files, after, rows)
            == CutRows(c, files, before, rows[..last])
              + if Shortened(before, after, c.Log(rows[last])) then {last} else {}
  {
    var last := |rows| - 1;
    var most := rows[..last];
    forall i: nat | i < last ensures Shortened(files, after, c.Log(rows[i]))
      <==> Shortened(files, before, c.Log(most[i])) {
      if c.Log(rows[i]).Some? {
        assert c.Log(rows[i]).value in Own(c, rows[i]);
        Untouched(before, after, Own(c, rows[last]), c.Log(rows[i]).value);
      }
    }
    if c.Log(rows[last]).Some? {
      var p := c.Log(rows[last]).value;
      assert p in Own(c, rows[last]);
      assert p !in Owned(c, most);
      Untouched(files, before, Owned(c, most), p);
    }
  }

  lemma Untouched(before: Files, after: Files, paths: set<Path>, p: Path)
    requires SameOutside(before, after, paths) && p !in paths
    ensures p in before <==> p in after
    ensures p in before ==> after[p] == before[p]
  {}

  /** The rows whose log was there before and is there now, but shorter. */
  function CutRows(c: Scope, before: Files, after: Files, rows: seq<Run>): set<nat> {
    set i: nat | i < |rows| && Shortened(before, after, c.Log(rows[i]))
  }

  /** The last phase counts no file twice. */
  ghost predicate CapCountsOnce(c: Scope, files: Files, rows: seq<Run>, unseen: set<Path>) {
    c.cfg.maxTotalStorageBytes > 0 ==> CountedOnce(Excess(c, files, rows, unseen))
  }

  ghost predicate PassCountsOnce(c: Scope, files: Files, rows: seq<Run>, k: Clocks, unseen: set<Path>) {
    CapCountsOnce(c, Swept(c, files, rows, k), rows, unseen)
  }

  /** Rows that share no file are counted once. */
  lemma OwnFilesCountOnce(c: Scope, files: Files, rows: seq<Run>, k: Clocks, unseen: set<Path>)
    requires c.Apart() && OwnFiles(c, rows)
    ensures PassCountsOnce(c, files, rows, k, unseen)
  {
    ExcessEffect(c, Swept(c, files, rows, k), rows, unseen);
  }

  lemma {:induction false} NothingExpires(c: Scope, files: Files, rows: seq<Run>, now: Time)
    requires c.cfg.runHistoryDays <= 0
    ensures ExpireAll(c, files, rows, now) == files
  {
    if rows != [] {
      NothingExpires(c, files, rows[..|rows| - 1], now);
    }
  }

  lemma DeletedRows(t: Tables.Tables, before: Time)
    ensures |PruneTx(t, before).runs| + |PrunableRuns(t, before)| == |t.runs|
  {
    var gone := PrunableRuns(t, before);
    assert PruneTx(t, before).runs.Keys == t.runs.Keys - gone;
    assert gone <= t.runs.Keys;
    assert |t.runs.Keys| == |t.runs| && |PruneTx(t, before).runs.Keys| == |PruneTx(t, before).runs|;
  }

  lemma NextPrefix(entries: seq<Entry>, i: nat)
    requires i < |entries|
    ensures Paths(entries[..i + 1]) == Paths(entries[..i]) + {entries[i].path}
    ensures Sizes(entries[..i + 1]) == Sizes(entries[..i]) + entries[i].size
  {
    assert entries[..i + 1] == entries[..i] + [entries[i]];
    assert entries[..i + 1][..i] == entries[..i];
    PathsOfBoth(entries[..i], [entries[i]]);
  }

  lemma NextDeleted(c: Scope, was: Files, files: Files, entries: seq<Entry>, i: nat)
    requires c.Apart() && i < |entries| && files == was - Paths(entries[..i]) && InScope(c, entries[i].path)
    ensures files - {entries[i].path} == was - Paths(entries[..i + 1])
    ensures c.Stored(files - {entries[i].path}) <= c.Stored(files)
    ensures Sizes(entries[..i + 1]) == Sizes(entries[..i]) + entries[i].size
  {
    NextPrefix(entries, i);
    StoredWithout(c, files, entries[i].path);
  }

  lemma CutIsUnique(total: int, entries: seq<Entry>, max: int, i: nat)
    requires i <= |entries| && forall j: nat | j < i :: total - Sizes(entries[..j]) > max
    requires i == |entries| || total - Sizes(entries[..i]) <= max
    ensures Cut(total, entries, max) == i
  {}
}
