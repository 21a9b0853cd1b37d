/**
 The files retention manages: their paths under the two storage roots, the bytes they take, and
 what removing, truncating and sorting them does.
 */
module ManagedFiles {
  import opened Model
  import opened Instants

  /** An absolute, cleaned path. */
  type Path = string

  datatype File = File(size: nat, modTime: Time)

  /** The regular files. */
  type Files = map<Path, File>

  /** filepath.Abs. */
  type Abs = string -> Path

  /** cleanManagedPath accepts what filepath.Rel expresses without a leading "..". */
  predicate Under(root: Path, p: Path) {
    p == root || (if root == "/" then "/" else root + "/") <= p
  }

  /** The component names after a root, each behind its slash. */
  function Below(names: seq<string>): string {
    if names == [] then "" else "/" + names[0] + Below(names[1..])
  }

  function PathOf(names: seq<string>): Path {
    if names == [] then "/" else Below(names)
  }

  predicate AreNames(names: seq<string>) {
    forall i | 0 <= i < |names| :: names[i] != "" && '/' !in names[i]
  }

  function NameEnd(s: string): nat {
    if s == "" || s[0] == '/' then 0 else 1 + NameEnd(s[1..])
  }

  lemma {:induction false} NameEndOf(a: string, x: string)
    requires '/' !in a && (x == "" || x[0] == '/')
    ensures NameEnd(a + x) == |a|
  {
    if a == "" {
      assert a + x == x;
    } else {
      assert (a + x)[1..] == a[1..] + x;
      NameEndOf(a[1..], x);
    }
  }

  lemma FirstName(a: string, x: string, b: string, y: string)
    requires '/' !in a && '/' !in b && (x == "" || x[0] == '/') && (y == "" || y[0] == '/')
    requires a + x == b + y || (x != "" && a + x <= b + y)
    ensures a == b
  {
    var rest := (b + y)[|a + x|..];
    assert b + y == a + (x + rest);
    NameEndOf(a, x + rest);
    NameEndOf(b, y);
    assert a == (b + y)[..|a|] && b == (b + y)[..|b|];
  }

  lemma SamePrefixCut(p: string, x: string, y: string)
    ensures p + x <= p + y <==> x <= y
    ensures p + x == p + y <==> x == y
  {
    assert x == (p + x)[|p|..] && y == (p + y)[|p|..];
    assert |x| <= |y| ==> (p + y)[..|p| + |x|] == p + y[..|x|];
  }

  lemma OneNameDown(a: string, x: string, b: string, y: string)
    requires '/' !in a && '/' !in b && (x == "" || x[0] == '/') && (y == "" || y[0] == '/')
    ensures a + x == b + y <==> a == b && x == y
    ensures x != "" ==> (a + x <= b + y <==> a == b && x <= y)
  {
    if a == b {
      SamePrefixCut(a, x, y);
    } else if a + x == b + y || (x != "" && a + x <= b + y) {
      FirstName(a, x, b, y);
    }
  }

  lemma {:induction false} BelowIsPrefix(a: seq<string>, b: seq<string>)
    requires AreNames(a) && AreNames(b)
    ensures Below(a) == Below(b) || Below(a) + "/" <= Below(b) <==> a <= b
    decreases |a|
  {
    if a != [] && b != [] {
      var x, y := Below(a[1..]), Below(b[1..]);
      BelowIsPrefix(a[1..], b[1..]);
      OneNameDown(a[0], x, b[0], y);
      OneNameDown(a[0], x + "/", b[0], y);
      SamePrefixCut("/", a[0] + x, b[0] + y);
      SamePrefixCut("/", a[0] + (x + "/"), b[0] + y);
      assert Below(a) == "/" + (a[0] + x) && Below(b) == "/" + (b[0] + y);
      assert Below(a) + "/" == "/" + (a[0] + (x + "/"));
      assert a <= b <==> a[0] == b[0] && a[1..] <= b[1..];
    }
  }

  /** A path is under a root exactly if the names of the root are the first names of the path. */
  lemma UnderIff(root: seq<string>, names: seq<string>)
    requires AreNames(root) && AreNames(names)
    ensures Under(PathOf(root), PathOf(names)) <==> root <= names
  {
    BelowIsPrefix(root, names);
    assert root != [] ==> |Below(root)| > 1;
    assert names != [] ==> Below(names)[0] == '/';
  }

  /** cleanManagedPath. */
  function Clean(abs: Abs, root: string, path: string): Option<Path> {
    if root == "" || path == "" || !Under(abs(root), abs(path)) then None else Some(abs(path))
  }

  /** The file a row's path column stands for, if it is one the pruner may touch. */
  function Target(abs: Abs, root: string, path: Option<string>): Option<Path> {
    match path
    case None => None
    case Some(text) => Clean(abs, root, text)
  }

  /** The pruner may touch the file of a path column exactly if its first names are the names of the root. */
  lemma TargetIff(abs: Abs, root: string, text: string, rootNames: seq<string>, names: seq<string>)
    requires AreNames(rootNames) && AreNames(names) && abs(root) == PathOf(rootNames) && abs(text) == PathOf(names)
    ensures Target(abs, root, Some(text))
            == if root != "" && text != "" && rootNames <= names then Some(abs(text)) else None
    ensures Target(abs, root, None) == None
  {
    UnderIff(rootNames, names);
  }

  /** Neither root lies in the other. */
  predicate RootsApart(a: Path, b: Path) {
    !Under(a, b) && !Under(b, a) && "/" <= a && "/" <= b
  }

  lemma RootsShareNothing(a: Path, b: Path, p: Path)
    requires RootsApart(a, b) && Under(a, p)
    ensures !Under(b, p)
  {
    if Under(b, p) {
      var x, y := if a == "/" then "/" else a + "/", if b == "/" then "/" else b + "/";
      if p != a && p != b {
        if |x| <= |y| {
          PrefixOfPrefix(x, y, p);
        } else {
          PrefixOfPrefix(y, x, p);
        }
      }
    }
  }

  lemma PrefixOfPrefix(x: string, y: string, p: string)
    requires x <= p && y <= p && |x| <= |y|
    ensures x <= y && (|x| < |y| ==> x <= y[..|y| - 1])
  {}

  // ---------- Sizes ----------

  ghost function Pick(files: Files): Path
    requires files != map[]
    ensures Pick(files) in files
  {
    var p :| p in files;
    p
  }

  ghost function SizeOf(files: Files): nat
    decreases |files|
  {
    if files == map[] then 0
    else
      var p := Pick(files);
      files[p].size + SizeOf(files - {p})
  }

  lemma {:induction false} SizeWithout(files: Files, p: Path)
    requires p in files
    ensures SizeOf(files) == files[p].size + SizeOf(files - {p})
    decreases |files|
  {
    var q := Pick(files);
    if q != p {
      SizeWithout(files - {q}, p);
      SizeWithout(files - {p}, q);
      assert files - {q} - {p} == files - {p} - {q};
    }
  }

  function Within(files: Files, root: Path): Files {
    map p | p in files && Under(root, p) :: files[p]
  }

  /** The bytes of the files under a root; an empty root has none. */
  ghost function Bytes(abs: Abs, root: string, files: Files): nat {
    if root == "" then 0 else SizeOf(Within(files, abs(root)))
  }

  ghost function SizeAt(files: Files, p: Path): nat {
    if p in files then files[p].size else 0
  }

  lemma BytesWithout(abs: Abs, root: string, files: Files, p: Path)
    ensures Bytes(abs, root, files) == Bytes(abs, root, files - {p})
              + if root != "" && Under(abs(root), p) then SizeAt(files, p) else 0
  {
    if root != "" {
      var within := Within(files, abs(root));
      assert Within(files - {p}, abs(root)) == within - {p};
      if p in within {
        SizeWithout(within, p);
      } else {
        assert within - {p} == within;
      }
    }
  }

  lemma BytesWith(abs: Abs, root: string, files: Files, p: Path, file: File)
    ensures Bytes(abs, root, files[p := file]) + (if root != "" && Under(abs(root), p) then SizeAt(files, p) else 0)
            == Bytes(abs, root, files) + if root != "" && Under(abs(root), p) then file.size else 0
  {
    BytesWithout(abs, root, files, p);
    BytesWithout(abs, root, files[p := file], p);
    assert files[p := file] - {p} == files - {p};
  }

  // ---------- Removing and truncating ----------

  function Remove(files: Files, target: Option<Path>): Files {
    match target
    case None => files
    case Some(p) => files - {p}
  }

  function Truncate(files: Files, target: Option<Path>, max: nat, now: Time): Files {
    match target
    case None => files
    case Some(p) => if p in files && files[p].size > max then files[p := File(max, now)] else files
  }

  /** Every file that is left was there before and has not grown. */
  predicate Shrunk(before: Files, after: Files) {
    forall p <- after :: p in before && after[p].size <= before[p].size
  }

  // ---------- The order of deletion ----------

  datatype Entry = Entry(path: Path, size: nat, modTime: Time)

  predicate Before(a: Entry, b: Entry) {
    a.modTime < b.modTime || (a.modTime == b.modTime && TextLess(a.path, b.path))
  }

  predicate Sorted(entries: seq<Entry>) {
    forall i, k | 0 <= i < k < |entries| :: !Before(entries[k], entries[i])
  }

  /** Not before is a total preorder. */
  lemma NotBeforeChains(a: Entry, b: Entry, c: Entry)
    requires !Before(b, a) && !Before(c, b)
    ensures !Before(c, a)
  {
    if Before(c, a) {
      TextTotal(a.path, b.path);
      TextTotal(b.path, c.path);
      if a.modTime == b.modTime == c.modTime {
        if a.path != b.path && b.path != c.path {
          TextTransitive(a.path, b.path, c.path);
        }
        TextTotal(a.path, c.path);
      }
    }
  }

  function Insert(e: Entry, entries: seq<Entry>): (r: seq<Entry>)
    ensures multiset(r) == multiset(entries) + multiset{e}
  {
    if entries == [] || !Before(entries[0], e) then [e] + entries
    else
      assert entries == [entries[0]] + entries[1..];
      [entries[0]] + Insert(e, entries[1..])
  }

  /** sort.Slice by modification time, then path. */
  function Sort(entries: seq<Entry>): (r: seq<Entry>)
    ensures multiset(r) == multiset(entries)
  {
    if entries == [] then []
    else
      assert entries == [entries[0]] + entries[1..];
      Insert(entries[0], Sort(entries[1..]))
  }

  lemma {:induction false} InsertSorted(e: Entry, entries: seq<Entry>)
    requires Sorted(entries)
    ensures Sorted(Insert(e, entries))
  {
    if entries == [] {
    } else if !Before(entries[0], e) {
      forall k | 0 <= k < |entries| ensures !Before(entries[k], e) {
        if k > 0 {
          NotBeforeChains(e, entries[0], entries[k]);
        }
      }
    } else {
      var rest := Insert(e, entries[1..]);
      InsertSorted(e, entries[1..]);
      forall k | 0 <= k < |rest| ensures !Before(rest[k], entries[0]) {
        assert rest[k] in multiset(rest);
        assert rest[k] in multiset(entries[1..]) + multiset{e};
        if rest[k] == e {
          TextTotal(e.path, entries[0].path);
        } else {
          assert rest[k] in entries[1..];
        }
      }
    }
  }

  lemma {:induction false} SortSorted(entries: seq<Entry>)
    ensures Sorted(Sort(entries))
  {
    if entries != [] {
      SortSorted(entries[1..]);
      InsertSorted(entries[0], Sort(entries[1..]));
    }
  }

  /** The same files, oldest first, and those of one time by path. */
  lemma OldestFirst(entries: seq<Entry>)
    ensures var r := Sort(entries);
            && multiset(r) == multiset(entries)
            && forall i, k | 0 <= i < k < |r| ::
                 r[i].modTime < r[k].modTime
                 || (r[i].modTime == r[k].modTime && (r[i].path == r[k].path || TextLess(r[i].path, r[k].path)))
  {
    SortSorted(entries);
    var r := Sort(entries);
    forall i, k | 0 <= i < k < |r|
      ensures r[i].modTime < r[k].modTime
              || (r[i].modTime == r[k].modTime && (r[i].path == r[k].path || TextLess(r[i].path, r[k].path)))
    {
      assert !Before(r[k], r[i]);
      TextTotal(r[i].path, r[k].path);
    }
  }

  // ---------- Deleting a prefix ----------

  function Paths(entries: seq<Entry>): set<Path> {
    set e | e in entries :: e.path
  }

  function Sizes(entries: seq<Entry>): nat {
    if entries == [] then 0 else Sizes(entries[..|entries| - 1]) + entries[|entries| - 1].size
  }

  predicate Distinct(entries: seq<Entry>) {
    forall i, k | 0 <= i < k < |entries| :: entries[i].path != entries[k].path
  }

  /** The entries say how large the files are. */
  predicate Accurate(files: Files, entries: seq<Entry>) {
    forall e <- entries :: e.path in files && files[e.path].size == e.size && files[e.path].modTime == e.modTime
  }

  /** The number of files enforceTotalStorage deletes: the first ones whose sizes bring total down to max, or all. */
  function Cut(total: int, entries: seq<Entry>, max: int): (k: nat)
    ensures k <= |entries|
    ensures forall j: nat | j < k :: total - Sizes(entries[..j]) > max
    ensures k < |entries| ==> total - Sizes(entries[..k]) <= max
  {
    CutFrom(total, entries, max, 0)
  }

  function CutFrom(total: int, entries: seq<Entry>, max: int, i: nat): (k: nat)
    requires i <= |entries| && forall j: nat | j < i :: total - Sizes(entries[..j]) > max
    ensures i <= k <= |entries|
    ensures forall j: nat | j < k :: total - Sizes(entries[..j]) > max
    ensures k < |entries| ==> total - Sizes(entries[..k]) <= max
    decreases |entries| - i
  {
    if i == |entries| || total - Sizes(entries[..i]) <= max then i else CutFrom(total, entries, max, i + 1)
  }
}
