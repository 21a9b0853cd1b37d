/** The pages that the scheduler's queries return: each exists, in the order and with the limit of its SQL text. */
module Listings {
  import opened Model
  import opened Tables
  import opened Instants
  import opened Transactions
  import opened Lifecycle

  // ---------- Sorting a set of ids ----------

  type Order = (int, int) -> bool

  /** A strict total order on these ids. */
  ghost predicate Sorts(less: Order, ids: set<int>) {
    && (forall a, b | a in ids && b in ids && a != b :: less(a, b) || less(b, a))
    && (forall a, b | a in ids && b in ids :: !(less(a, b) && less(b, a)))
    && (forall a, b, c | a in ids && b in ids && c in ids && less(a, b) && less(b, c) :: less(a, c))
  }

  predicate IsFirst(less: Order, ids: set<int>, a: int) {
    a in ids && forall b | b in ids && b != a :: less(a, b)
  }

  lemma FirstPrecedes(less: Order, ids: set<int>, a: int, rest: seq<int>)
    requires IsFirst(less, ids, a) && forall b <- rest :: b in ids && b != a
    ensures forall k | 0 <= k < |rest| :: less(a, rest[k])
  {
    forall k | 0 <= k < |rest| ensures less(a, rest[k]) {
      var b := rest[k];
      assert b in rest;
      assert b in ids && b != a;
    }
  }

  lemma EmptyOrMember(ids: set<int>)
    ensures ids == {} || exists a :: a in ids
  {
    if forall a :: a !in ids {
      assert |ids| == 0;
    }
  }

  lemma {:induction false} FirstExists(less: Order, ids: set<int>)
    requires ids != {} && Sorts(less, ids)
    ensures exists a :: IsFirst(less, ids, a)
    decreases |ids|
  {
    EmptyOrMember(ids);
    var x :| x in ids;
    if forall y | y in ids :: y == x {
      assert IsFirst(less, ids, x);
    } else {
      assert ids != {x};
      FirstExists(less, ids - {x});
      var a :| IsFirst(less, ids - {x}, a);
      assert IsFirst(less, ids, if less(x, a) then x else a);
    }
  }

  function First(less: Order, ids: set<int>): (a: int)
    requires ids != {} && Sorts(less, ids)
    ensures IsFirst(less, ids, a)
  {
    FirstExists(less, ids);
    var a :| a in ids && IsFirst(less, ids, a);
    a
  }

  /** ORDER BY. */
  function InOrder(less: Order, ids: set<int>): (listed: seq<int>)
    requires Sorts(less, ids)
    ensures |listed| == |ids| && forall a :: a in listed <==> a in ids
    ensures forall i, k | 0 <= i < k < |listed| :: less(listed[i], listed[k])
    decreases |ids|
  {
    if ids == {} then []
    else
      var a := First(less, ids);
      var rest := InOrder(less, ids - {a});
      FirstPrecedes(less, ids, a, rest);
      [a] + rest
  }

  /** LIMIT. */
  function Limited(listed: seq<int>, limit: nat): (page: seq<int>)
    ensures page <= listed && |page| <= limit && (|page| < limit ==> page == listed)
  {
    if |listed| <= limit then listed else listed[..limit]
  }

  /** The first ids in order, up to the limit: what the page misses comes after all of it. */
  ghost predicate Lists(less: Order, ids: set<int>, limit: nat, page: seq<int>) {
    && |page| <= limit
    && (forall i | 0 <= i < |page| :: page[i] in ids)
    && (forall i, k | 0 <= i < k < |page| :: less(page[i], page[k]))
    && (forall a | a in ids && a !in page :: |page| == limit && forall i | 0 <= i < |page| :: less(page[i], a))
  }

  lemma PageIsFirst(less: Order, ids: set<int>, limit: nat)
    requires Sorts(less, ids)
    ensures Lists(less, ids, limit, Limited(InOrder(less, ids), limit))
  {
    var listed := InOrder(less, ids);
    var page := Limited(listed, limit);
    forall a | a in ids && a !in page ensures |page| == limit && forall i | 0 <= i < |page| :: less(page[i], a) {
      var k :| 0 <= k < |listed| && listed[k] == a;
      assert forall i | 0 <= i < |page| :: page[i] == listed[i] && page[i] != a;
    }
  }

  lemma {:induction false} SamePrefix(less: Order, ids: set<int>, limit: nat, a: seq<int>, b: seq<int>, n: nat)
    requires Sorts(less, ids) && Lists(less, ids, limit, a) && Lists(less, ids, limit, b) && n <= |a|
    ensures n <= |b| && a[..n] == b[..n]
  {
    if n > 0 {
      var i := n - 1;
      SamePrefix(less, ids, limit, a, b, i);
      assert a[i] !in b[..i] by {
        assert forall k | 0 <= k < i :: b[k] == a[..i][k] && less(a[k], a[i]);
      }
      if i == |b| {
        assert b[..i] == b;
        Misses(less, ids, limit, b, a[i]);
      }
      assert i < |b|;
      assert b[i] !in a[..i] by {
        assert forall k | 0 <= k < i :: a[k] == b[..i][k] && less(b[k], b[i]);
      }
      assert a[..n] == a[..i] + [a[i]] && b[..n] == b[..i] + [b[i]];
      NotLess(less, ids, limit, b, i, a[i]);
      NotLess(less, ids, limit, a, i, b[i]);
    }
  }

  lemma Misses(less: Order, ids: set<int>, limit: nat, page: seq<int>, x: int)
    requires Lists(less, ids, limit, page) && x in ids && x !in page
    ensures |page| == limit
  {}

  lemma NeverBoth(less: Order, ids: set<int>, a: int, b: int)
    requires Sorts(less, ids) && a in ids && b in ids
    ensures !(less(a, b) && less(b, a))
  {}

  /** Nothing that position i could still hold comes before what it holds. */
  lemma NotLess(less: Order, ids: set<int>, limit: nat, page: seq<int>, i: nat, x: int)
    requires Sorts(less, ids) && Lists(less, ids, limit, page) && i < |page| && x in ids && x !in page[..i]
    ensures !less(x, page[i])
  {
    if x in page {
      assert x in page[..i] + page[i..] by {
        assert page == page[..i] + page[i..];
      }
      var k :| 0 <= k < |page[i..]| && page[i..][k] == x;
      assert k > 0 ==> less(page[i], page[i + k]);
    } else {
      assert less(page[i], x) && page[i] in ids && x in ids;
    }
    NeverBoth(less, ids, page[i], x);
  }

  /** One order and one limit have one page. */
  lemma OnePage(less: Order, ids: set<int>, limit: nat, page: seq<int>)
    requires Sorts(less, ids)
    ensures Lists(less, ids, limit, page) <==> page == Limited(InOrder(less, ids), limit)
  {
    var first := Limited(InOrder(less, ids), limit);
    PageIsFirst(less, ids, limit);
    if Lists(less, ids, limit, page) {
      SamePrefix(less, ids, limit, page, first, |page|);
      SamePrefix(less, ids, limit, first, page, |first|);
      assert page == page[..|page|] && first == first[..|first|];
    }
  }

  // ---------- The queries ----------

  predicate RunBefore(t: Tables, a: int, b: int) {
    a in t.runs && b in t.runs && RunOrder(t, a, b)
  }

  function OldestFirst(t: Tables): Order {
    (a, b) => RunBefore(t, a, b)
  }

  function NewestFirst(t: Tables): Order {
    (a, b) => RunBefore(t, b, a)
  }

  function DueFirst(t: Tables): Order {
    (a, b) => DueBefore(t, a, b)
  }

  lemma RunOrderSorts(t: Tables, ids: set<int>)
    requires ids <= t.runs.Keys
    ensures Sorts(OldestFirst(t), ids) && Sorts(NewestFirst(t), ids)
  {
    forall a, b | a in ids && b in ids
      ensures a == b || RunBefore(t, a, b) || RunBefore(t, b, a)
      ensures !(RunBefore(t, a, b) && RunBefore(t, b, a))
    {
      TextBeforeIsTotal(t.runs[a].scheduledAt, t.runs[b].scheduledAt);
    }
    forall a, b, c | a in ids && b in ids && c in ids && RunBefore(t, a, b) && RunBefore(t, b, c)
      ensures RunBefore(t, a, c) {
      RunOrderChains(t, a, b, c);
    }
  }

  lemma RunOrderChains(t: Tables, a: int, b: int, c: int)
    requires RunBefore(t, a, b) && RunBefore(t, b, c)
    ensures RunBefore(t, a, c)
  {
    var x, y, z := t.runs[a].scheduledAt, t.runs[b].scheduledAt, t.runs[c].scheduledAt;
    if x != y && y != z {
      TextBeforeChains(x, y, z);
    }
  }

  function PendingIds(t: Tables): set<int> {
    set r | r in t.runs && t.runs[r].status.Pending?
  }

  function PendingLimit(limit: int): nat {
    if limit <= 0 then 100 else limit
  }

  /** RunRepo.ListPending. */
  function PendingPage(t: Tables, limit: int): (page: seq<int>) {
    RunOrderSorts(t, PendingIds(t));
    Limited(InOrder(OldestFirst(t), PendingIds(t)), PendingLimit(limit))
  }

  /** The dispatch loop can list only this page; a limit that is not positive stands for 100. */
  lemma PendingPageLists(t: Tables, limit: int)
    ensures var most := if limit <= 0 then 100 else limit;
            forall listed :: PendingListing(t, most, listed) <==> listed == PendingPage(t, limit)
  {
    RunOrderSorts(t, PendingIds(t));
    forall listed ensures PendingListing(t, PendingLimit(limit), listed) <==> listed == PendingPage(t, limit) {
      OnePage(OldestFirst(t), PendingIds(t), PendingLimit(limit), listed);
      PendingListingIs(t, PendingLimit(limit), listed);
    }
  }

  /** Pending rows by slot text and then id, up to the limit; what the page misses comes later. */
  lemma PendingPageIsOldest(t: Tables, limit: nat, page: seq<int>)
    requires PendingListing(t, limit, page)
    ensures |page| <= limit && forall i | 0 <= i < |page| :: page[i] in t.runs && t.runs[page[i]].status == Pending
    ensures forall i, k | 0 <= i < k < |page| ::
              var a, b := t.runs[page[i]].scheduledAt, t.runs[page[k]].scheduledAt;
              TextBefore(a, b) || (a == b && page[i] < page[k])
    ensures forall r <- t.runs | t.runs[r].status == Pending && r !in page ::
              |page| == limit && forall i | 0 <= i < limit ::
                var a, b := t.runs[page[i]].scheduledAt, t.runs[r].scheduledAt;
                TextBefore(a, b) || (a == b && page[i] < r)
  {
    assert forall i, k | 0 <= i < k < |page| :: RunOrder(t, page[i], page[k]);
    assert forall r <- t.runs | t.runs[r].status == Pending && r !in page ::
        |page| == limit && forall i | 0 <= i < limit :: RunOrder(t, page[i], r);
  }

  lemma PendingListingIs(t: Tables, limit: nat, page: seq<int>)
    ensures PendingListing(t, limit, page) <==> Lists(OldestFirst(t), PendingIds(t), limit, page)
  {
    var less := OldestFirst(t);
    if PendingListing(t, limit, page) {
      assert forall i, k | 0 <= i < k < |page| :: RunOrder(t, page[i], page[k]) && less(page[i], page[k]);
      assert forall r | r in PendingIds(t) && r !in page ::
          |page| == limit && forall i | 0 <= i < |page| :: RunOrder(t, page[i], r) && less(page[i], r);
    }
    if Lists(less, PendingIds(t), limit, page) {
      assert forall i | 0 <= i < |page| :: page[i] in PendingIds(t);
      assert forall i, k | 0 <= i < k < |page| :: less(page[i], page[k]) && RunOrder(t, page[i], page[k]);
      forall r | r in t.runs && t.runs[r].status.Pending? && r !in page
        ensures |page| == limit && forall i | 0 <= i < limit :: RunOrder(t, page[i], r)
      {
        assert r in PendingIds(t);
        assert forall i | 0 <= i < |page| :: less(page[i], r);
      }
    }
  }

  function RunningIds(t: Tables, jobId: int): set<int> {
    set r | r in t.runs && IsRunningOf(t, jobId, r)
  }

  /** RunRepo.List as the due-job loop calls it. */
  function RunningPage(t: Tables, jobId: int): (page: seq<int>) {
    RunOrderSorts(t, RunningIds(t, jobId));
    Limited(InOrder(NewestFirst(t), RunningIds(t, jobId)), RUNNING_PAGE)
  }

  /** The due-job loop can be given only this page. */
  lemma RunningPageLists(t: Tables, jobId: int)
    ensures forall listed :: RunningListing(t, jobId, listed) <==> listed == RunningPage(t, jobId)
  {
    RunOrderSorts(t, RunningIds(t, jobId));
    forall listed ensures RunningListing(t, jobId, listed) <==> listed == RunningPage(t, jobId) {
      OnePage(NewestFirst(t), RunningIds(t, jobId), RUNNING_PAGE, listed);
      RunningListingIs(t, jobId, listed);
    }
  }

  /** The first 100 running rows of the job, newest slot first. */
  lemma RunningPageIsNewest(t: Tables, jobId: int, page: seq<int>)
    requires RunningListing(t, jobId, page)
    ensures |page| <= 100 && forall i | 0 <= i < |page| ::
              page[i] in t.runs && t.runs[page[i]].jobId == jobId && t.runs[page[i]].status == Running
    ensures forall i, k | 0 <= i < k < |page| ::
              var a, b := t.runs[page[i]].scheduledAt, t.runs[page[k]].scheduledAt;
              TextBefore(b, a) || (a == b && page[i] > page[k])
    ensures forall r <- t.runs | t.runs[r].jobId == jobId && t.runs[r].status == Running && r !in page ::
              |page| == 100 && forall i | 0 <= i < 100 ::
                var a, b := t.runs[page[i]].scheduledAt, t.runs[r].scheduledAt;
                TextBefore(b, a) || (a == b && page[i] > r)
  {
    assert forall i, k | 0 <= i < k < |page| :: RunOrder(t, page[k], page[i]);
    assert forall r <- t.runs | IsRunningOf(t, jobId, r) && r !in page ::
        |page| == 100 && forall i | 0 <= i < 100 :: RunOrder(t, r, page[i]);
  }

  lemma RunningListingIs(t: Tables, jobId: int, page: seq<int>)
    ensures RunningListing(t, jobId, page) <==> Lists(NewestFirst(t), RunningIds(t, jobId), RUNNING_PAGE, page)
  {
    var less, ids := NewestFirst(t), RunningIds(t, jobId);
    if RunningListing(t, jobId, page) {
      assert forall i, k | 0 <= i < k < |page| :: RunOrder(t, page[k], page[i]) && less(page[i], page[k]);
      assert forall r | r in ids && r !in page ::
          |page| == RUNNING_PAGE && forall i | 0 <= i < |page| :: RunOrder(t, r, page[i]) && less(page[i], r);
    }
    if Lists(less, ids, RUNNING_PAGE, page) {
      assert forall i | 0 <= i < |page| :: page[i] in ids;
      assert forall i, k | 0 <= i < k < |page| :: less(page[i], page[k]) && RunOrder(t, page[k], page[i]);
      forall r | r in t.runs && IsRunningOf(t, jobId, r) && r !in page
        ensures |page| == RUNNING_PAGE && forall i | 0 <= i < RUNNING_PAGE :: RunOrder(t, r, page[i])
      {
        assert r in ids;
        assert forall i | 0 <= i < |page| :: less(page[i], r);
      }
    }
  }

  /** ORDER BY next_run_at ASC, id ASC. */
  predicate DueBefore(t: Tables, a: int, b: int) {
    a in t.jobs && b in t.jobs && t.jobs[a].nextRunAt.Some? && t.jobs[b].nextRunAt.Some? &&
    (TextBefore(t.jobs[a].nextRunAt.value, t.jobs[b].nextRunAt.value)
     || (t.jobs[a].nextRunAt == t.jobs[b].nextRunAt && a < b))
  }

  function DueIds(t: Tables, now: Time): set<int> {
    set j | j in t.jobs && IsDue(t, now, j)
  }

  lemma DueBeforeSorts(t: Tables, now: Time)
    ensures Sorts(DueFirst(t), DueIds(t, now))
  {
    var ids := DueIds(t, now);
    forall a, b | a in ids && b in ids
      ensures a == b || DueBefore(t, a, b) || DueBefore(t, b, a)
      ensures !(DueBefore(t, a, b) && DueBefore(t, b, a))
    {
      TextBeforeIsTotal(t.jobs[a].nextRunAt.value, t.jobs[b].nextRunAt.value);
    }
    forall a, b, c | a in ids && b in ids && c in ids && DueBefore(t, a, b) && DueBefore(t, b, c)
      ensures DueBefore(t, a, c) {
      var x, y, z := t.jobs[a].nextRunAt.value, t.jobs[b].nextRunAt.value, t.jobs[c].nextRunAt.value;
      if x != y && y != z {
        TextBeforeChains(x, y, z);
      }
    }
  }

  function Entries(t: Tables, ids: seq<int>): (due: seq<DueEntry>)
    requires forall i | 0 <= i < |ids| :: ids[i] in t.jobs
    ensures |due| == |ids| && forall i | 0 <= i < |ids| :: due[i] == DueEntry(ids[i], t.jobs[ids[i]])
  {
    seq(|ids|, i requires 0 <= i < |ids| => DueEntry(ids[i], t.jobs[ids[i]]))
  }

  function DueOrder(t: Tables, now: Time): (ids: seq<int>)
    ensures forall j :: j in ids <==> j in DueIds(t, now)
    ensures forall i, k | 0 <= i < k < |ids| :: DueFirst(t)(ids[i], ids[k])
  {
    DueBeforeSorts(t, now);
    InOrder(DueFirst(t), DueIds(t, now))
  }

  /** JobRepo.ListDue. */
  function DueList(t: Tables, now: Time): (due: seq<DueEntry>) {
    Entries(t, DueOrder(t, now))
  }

  lemma DueListLists(t: Tables, now: Time)
    ensures DueListing(t, now, DueList(t, now))
  {
    DueListIs(t, now, DueOrder(t, now), DueList(t, now));
  }

  lemma DueListIs(t: Tables, now: Time, ids: seq<int>, due: seq<DueEntry>)
    requires (forall j :: j in ids <==> j in DueIds(t, now)) && forall i, k | 0 <= i < k < |ids| ::
             DueFirst(t)(ids[i], ids[k])
    requires |due| == |ids| && forall i | 0 <= i < |ids| ::
             ids[i] in t.jobs && due[i] == DueEntry(ids[i], t.jobs[ids[i]])
    ensures DueListing(t, now, due)
  {
    forall i | 0 <= i < |due| ensures IsDue(t, now, due[i].jobId) {
      assert ids[i] in ids;
    }
    forall i, k | 0 <= i < k < |due|
      ensures due[i].jobId != due[k].jobId && TextAtMost(due[i].job.nextRunAt.value, due[k].job.nextRunAt.value)
      ensures due[i].job.nextRunAt == due[k].job.nextRunAt ==> due[i].jobId < due[k].jobId
    {
      assert DueFirst(t)(ids[i], ids[k]);
      TextBeforeIsTotal(due[i].job.nextRunAt.value, due[k].job.nextRunAt.value);
    }
    forall j | j in t.jobs && IsDue(t, now, j) ensures DueEntry(j, t.jobs[j]) in due {
      assert j in DueIds(t, now);
      var i :| 0 <= i < |ids| && ids[i] == j;
      assert due[i] == DueEntry(j, t.jobs[j]);
    }
  }

  /** Every enabled job whose next run time is at most now as text, once, in order of that text and then id. */
  lemma DueListIsWhole(t: Tables, now: Time, due: seq<DueEntry>)
    requires DueListing(t, now, due)
    ensures forall j <- t.jobs ::
              DueEntry(j, t.jobs[j]) in due <==>
                t.jobs[j].enabled && t.jobs[j].nextRunAt.Some? && !TextBefore(now, t.jobs[j].nextRunAt.value)
    ensures forall e <- due :: e.jobId in t.jobs && e.job == t.jobs[e.jobId]
    ensures forall i, k | 0 <= i < k < |due| ::
              var a, b := due[i].job.nextRunAt.value, due[k].job.nextRunAt.value;
              TextBefore(a, b) || (a == b && due[i].jobId < due[k].jobId)
  {
    forall j | j in t.jobs && DueEntry(j, t.jobs[j]) in due ensures IsDue(t, now, j) {
      var i :| 0 <= i < |due| && due[i] == DueEntry(j, t.jobs[j]);
    }
    forall i, k | 0 <= i < k < |due|
      ensures var a, b := due[i].job.nextRunAt.value, due[k].job.nextRunAt.value;
              TextBefore(a, b) || (a == b && due[i].jobId < due[k].jobId)
    {
      TextBeforeIsTotal(due[i].job.nextRunAt.value, due[k].job.nextRunAt.value);
    }
  }

  const TERMINAL_PAGE: nat := 100000

  /** ORDER BY finished_at ASC, id ASC. */
  predicate FinishedBefore(t: Tables, a: int, b: int) {
    a in t.runs && b in t.runs && t.runs[a].finishedAt.Some? && t.runs[b].finishedAt.Some? &&
    (TextBefore(t.runs[a].finishedAt.value, t.runs[b].finishedAt.value)
     || (t.runs[a].finishedAt == t.runs[b].finishedAt && a < b))
  }

  function OldestFinish(t: Tables): Order {
    (a, b) => FinishedBefore(t, a, b)
  }

  /** The result of ListTerminalBefore as the pruner calls it: the terminal rows finished before now. */
  ghost predicate TerminalListing(t: Tables, now: Time, listed: seq<int>) {
    && |listed| <= TERMINAL_PAGE
    && (forall i | 0 <= i < |listed| :: listed[i] in t.runs && Prunable(t.runs[listed[i]], now))
    && (forall i, k | 0 <= i < k < |listed| :: listed[i] != listed[k] && FinishedBefore(t, listed[i], listed[k]))
    && (forall r <- t.runs | Prunable(t.runs[r], now) && r !in listed ::
          |listed| == TERMINAL_PAGE && forall i | 0 <= i < TERMINAL_PAGE :: FinishedBefore(t, listed[i], r))
  }

  lemma FinishedSorts(t: Tables, now: Time)
    ensures Sorts(OldestFinish(t), PrunableRuns(t, now))
  {
    var ids := PrunableRuns(t, now);
    forall a, b | a in ids && b in ids
      ensures a == b || FinishedBefore(t, a, b) || FinishedBefore(t, b, a)
      ensures !(FinishedBefore(t, a, b) && FinishedBefore(t, b, a))
    {
      TextBeforeIsTotal(t.runs[a].finishedAt.value, t.runs[b].finishedAt.value);
    }
    forall a, b, c | a in ids && b in ids && c in ids && FinishedBefore(t, a, b) && FinishedBefore(t, b, c)
      ensures FinishedBefore(t, a, c)
    {
      var x, y, z := t.runs[a].finishedAt.value, t.runs[b].finishedAt.value, t.runs[c].finishedAt.value;
      if x != y && y != z {
        TextBeforeChains(x, y, z);
      }
    }
  }

  /** RunRepo.ListTerminalBefore. */
  function TerminalPage(t: Tables, now: Time): (page: seq<int>)
    ensures forall i | 0 <= i < |page| :: page[i] in t.runs
  {
    FinishedSorts(t, now);
    Limited(InOrder(OldestFinish(t), PrunableRuns(t, now)), TERMINAL_PAGE)
  }

  /** Retention can be given only this page. */
  lemma TerminalPageLists(t: Tables, now: Time)
    ensures forall listed :: TerminalListing(t, now, listed) <==> listed == TerminalPage(t, now)
  {
    FinishedSorts(t, now);
    forall listed ensures TerminalListing(t, now, listed) <==> listed == TerminalPage(t, now) {
      OnePage(OldestFinish(t), PrunableRuns(t, now), TERMINAL_PAGE, listed);
      TerminalListingIs(t, now, listed);
    }
  }

  /** The row has ended, with a finish time before now as text. */
  predicate HasFinished(t: Tables, r: int, now: Time) {
    && r in t.runs && t.runs[r].finishedAt.Some? && TextBefore(t.runs[r].finishedAt.value, now)
    && t.runs[r].status in {Success, Failed, Timeout, Cancelled, Skipped}
  }

  /** The first 100000 rows that have finished before now, by finish text and then id. */
  lemma TerminalPageIsOldest(t: Tables, now: Time, page: seq<int>)
    requires TerminalListing(t, now, page)
    ensures |page| <= 100000 && forall i | 0 <= i < |page| :: HasFinished(t, page[i], now)
    ensures forall i, k | 0 <= i < k < |page| ::
              var a, b := t.runs[page[i]].finishedAt, t.runs[page[k]].finishedAt;
              TextBefore(a.value, b.value) || (a == b && page[i] < page[k])
    ensures forall r <- t.runs | HasFinished(t, r, now) && r !in page ::
              |page| == 100000 && forall i | 0 <= i < 100000 ::
                var a, b := t.runs[page[i]].finishedAt, t.runs[r].finishedAt;
                TextBefore(a.value, b.value) || (a == b && page[i] < r)
  {
    assert forall i, k | 0 <= i < k < |page| :: FinishedBefore(t, page[i], page[k]);
    assert forall r <- t.runs | Prunable(t.runs[r], now) && r !in page ::
        |page| == 100000 && forall i | 0 <= i < 100000 :: FinishedBefore(t, page[i], r);
  }

  lemma TerminalListingIs(t: Tables, now: Time, page: seq<int>)
    ensures TerminalListing(t, now, page) <==> Lists(OldestFinish(t), PrunableRuns(t, now), TERMINAL_PAGE, page)
  {
    var less, ids := OldestFinish(t), PrunableRuns(t, now);
    if TerminalListing(t, now, page) {
      assert forall i, k | 0 <= i < k < |page| :: FinishedBefore(t, page[i], page[k]) && less(page[i], page[k]);
      assert forall r | r in ids && r !in page ::
          |page| == TERMINAL_PAGE && forall i | 0 <= i < |page| :: FinishedBefore(t, page[i], r) && less(page[i], r);
    }
    if Lists(less, ids, TERMINAL_PAGE, page) {
      assert forall i | 0 <= i < |page| :: page[i] in ids;
      FinishedSorts(t, now);
      forall i, k | 0 <= i < k < |page| ensures page[i] != page[k] && FinishedBefore(t, page[i], page[k]) {
        assert less(page[i], page[k]);
        NeverBoth(less, ids, page[i], page[k]);
      }
      forall r | r in t.runs && Prunable(t.runs[r], now) && r !in page
        ensures |page| == TERMINAL_PAGE && forall i | 0 <= i < TERMINAL_PAGE :: FinishedBefore(t, page[i], r)
      {
        assert r in ids;
        assert forall i | 0 <= i < |page| :: less(page[i], r);
      }
    }
  }
}
