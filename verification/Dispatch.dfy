/**
 The loop of internal/scheduler/dispatch.go on the token channel, while workers give tokens back
 and others write to the tables between any two of its steps.
 */
module Dispatch {
  import opened Model
  import T = Tables
  import opened Lifecycle
  import opened Listings
  import opened Store

  /** The database before one listing, how many workers finish before each token is taken, and the context by then. */
  datatype Turn = Turn(tables: T.Tables, broken: bool, finished: nat -> nat, context: nat -> Context)

  /** Ended before the token is asked for, or while it is waited for; either settles a select that could do both. */
  datatype Context = Context(done: bool, ends: bool, either: bool) {
    predicate Over() {
      done || ends
    }
  }

  /** Why processDispatch returns, or Unfinished while it goes on. */
  datatype Stop = NoTokenFree | ListingFailed | NothingPending | ContextEnded | Unfinished

  /** The rounds that have taken their whole page, one page each. */
  function Flat(pages: seq<seq<int>>): seq<int> {
    if pages == [] then [] else Flat(pages[..|pages| - 1]) + pages[|pages| - 1]
  }

  lemma FlatNext(pages: seq<seq<int>>, page: seq<int>)
    ensures Flat(pages + [page]) == Flat(pages) + page
  {
    assert (pages + [page])[..|pages|] == pages;
  }

  class Scheduler {
    const store: Database
    const tokens: WorkerTokens
    var spawned: seq<int>      // the run of each worker started, oldest first
    var ended: nat             // how many workers have given their token back

    /** Tokens held are the workers that have not ended. */
    ghost predicate Valid()
      reads this, tokens
    {
      tokens.Valid() && ended <= |spawned| && tokens.held == |spawned| - ended
    }

    constructor (store: Database, capacity: nat)
      ensures Valid() && fresh(tokens) && this.store == store && tokens.capacity == capacity && spawned == []
              && ended == 0
    {
      this.store := store;
      tokens := new WorkerTokens(capacity);
      spawned, ended := [], 0;
    }

    /** Some of the live workers end, each with its deferred release; missed counts the releases that find no token. */
    method Finish(count: nat) returns (missed: nat)
      requires Valid()
      modifies this, tokens
      ensures missed == 0
      ensures Valid() && spawned == old(spawned)
      ensures ended == if count <= old(tokens.held) then old(ended) + count else |spawned|
    {
      var i := 0;
      missed := 0;
      while i < count && ended < |spawned|
        invariant i <= count && Valid() && spawned == old(spawned) && missed == 0
        invariant ended == old(ended) + i
      {
        var found := tokens.Release();
        missed := missed + if found then 0 else 1;
        ended := ended + 1;
        i := i + 1;
      }
    }

    /** The inner loop: a worker for each listed run.  It never has to wait for a token, only the context stops it. */
    method SpawnAll(page: seq<int>, finished: nat -> nat, context: nat -> Context) returns (last: Answer)
      requires Valid() && tokens.held + |page| <= tokens.capacity
      modifies this, tokens
      ensures Valid() && !last.Waits? && ended >= old(ended)
      ensures exists k | 0 <= k <= |page| ::
                && spawned == old(spawned) + page[..k]
                && (last.Taken? <==> k == |page|)
                && (k < |page| ==> context(k).Over())
    {
      var i := 0;
      last := Taken;
      while i < |page|
        invariant i <= |page| && Valid() && spawned == old(spawned) + page[..i] && last.Taken? && ended >= old(ended)
        invariant tokens.held + |page| - i <= tokens.capacity
      {
        var missed := Finish(finished(i));
        last := tokens.Acquire(context(i).done, context(i).ends, context(i).either);
        if !last.Taken? {
          return;
        }
        spawned := spawned + [page[i]];
        assert page[..i + 1] == page[..i] + [page[i]];
        i := i + 1;
      }
      assert page[..|page|] == page;
    }

    /** What the database holds by now. */
    method Refresh(tables: T.Tables)
      modifies store
      ensures store.Db() == tables
    {
      store.jobs, store.runs, store.events := tables.jobs, tables.runs, tables.events;
      store.jobSeq, store.runSeq := tables.jobSeq, tables.runSeq;
    }

    /** The listing of a round, on what the database holds by then. */
    method ListPending(turn: Turn, available: int) returns (pending: Option<seq<int>>)
      requires available > 0
      modifies store
      ensures pending.None? <==> turn.broken
      ensures pending.Some? ==> PageOf(turn, available, pending.value) && |pending.value| <= available
      ensures pending == Some([]) ==> PendingIds(turn.tables) == {}
    {
      Refresh(turn.tables);
      pending := store.ListPending(available, turn.broken);
      if pending.Some? {
        PageLists(turn, available, pending.value);
      }
    }

    /**
     One round of processDispatch: the page it lists for the tokens free when it begins, of which it
     starts a prefix, and whether it is the last.
     */
    method Round(turn: Turn) returns (page: seq<int>, stop: Stop)
      requires Valid()
      modifies this, tokens, store
      ensures Valid() && Started(old(spawned), spawned, page, stop)
      ensures stop.NoTokenFree? ==> tokens.held == tokens.capacity
      ensures RoundOf(turn, tokens.capacity - old(tokens.held), page, stop)
      ensures if page == [] then ended == old(ended) else ended >= old(ended)
    {
      var available := tokens.capacity - tokens.held;
      if available <= 0 {
        return [], NoTokenFree;
      }
      var pending := ListPending(turn, available);
      if pending.None? {
        return [], ListingFailed;
      }
      page := pending.value;
      if page == [] {
        return [], NothingPending;
      }
      var last := SpawnAll(page, turn.finished, turn.context);
      stop := if last.Taken? then Unfinished else ContextEnded;
    }

    /**
     processDispatch.  Round i starts a worker for each run of the page that the database lists at
     that time for the tokens then free, which are those of the workers that have ended by then; the
     last round alone may stop half-way.  The rounds end when no token is free, when the listing
     fails or is empty, or with the context.
     */
    method ProcessDispatch(turns: seq<Turn>) returns (pages: seq<seq<int>>, stop: Stop, ghost ends: seq<nat>)
      requires Valid()
      modifies this, tokens, store
      ensures Valid() && PagesOf(turns, tokens.capacity, |old(spawned)|, pages, ends) && Reason(turns, pages, stop)
      ensures ends[0] == old(ended) && ends[|pages|] == ended
      ensures Started(old(spawned), spawned, Flat(pages), stop)
      ensures stop.NoTokenFree? ==> tokens.held == tokens.capacity
      ensures stop.Unfinished? ==> |pages| == |turns|
    {
      pages, stop, ends := [], Unfinished, [ended];
      while stop.Unfinished? && |pages| < |turns|
        invariant Valid() && PagesOf(turns, tokens.capacity, |old(spawned)|, pages, ends) && Reason(turns, pages, stop)
        invariant ends[0] == old(ended) && ends[|pages|] == ended
        invariant Started(old(spawned), spawned, Flat(pages), stop)
        invariant stop.NoTokenFree? ==> tokens.held == tokens.capacity
        decreases stop.Unfinished?, |turns| - |pages|
      {
        ghost var before := spawned;
        var page;
        page, stop := Round(turns[|pages|]);
        NextRound(turns, tokens.capacity, |old(spawned)|, pages, ends, page, ended, stop);
        StartMore(old(spawned), before, spawned, Flat(pages), page, stop);
        if page != [] {
          pages, ends := pages + [page], ends + [ended];
        }
      }
    }
  }

  /** A round either starts workers for its page or ends the rounds, and why. */
  ghost predicate RoundOf(turn: Turn, free: int, page: seq<int>, stop: Stop) {
    && (page != [] ==> PageOf(turn, free, page))
    && match stop
       case NoTokenFree => page == [] && free <= 0
       case ListingFailed => page == [] && turn.broken
       case NothingPending => page == [] && PendingIds(turn.tables) == {}
       case ContextEnded => page != [] && Stops(turn)
       case Unfinished => page != []
  }

  /** Workers for the listed runs are started in their order: for all of them, unless the context ended. */
  predicate Started(before: seq<int>, spawned: seq<int>, listed: seq<int>, stop: Stop) {
    before <= spawned <= before + listed && (!stop.ContextEnded? ==> spawned == before + listed)
  }

  lemma StartMore(first: seq<int>, before: seq<int>, spawned: seq<int>, listed: seq<int>, page: seq<int>, stop: Stop)
    requires Started(first, before, listed, Unfinished) && Started(before, spawned, page, stop)
    ensures Started(first, spawned, listed + page, stop)
  {
    assert (first + listed) + page == first + (listed + page);
  }

  lemma NextRound(turns: seq<Turn>, capacity: nat, first: nat, pages: seq<seq<int>>, ends: seq<nat>, page: seq<int>,
                  ended: nat, stop: Stop)
    requires PagesOf(turns, capacity, first, pages, ends) && |pages| < |turns| && ends[|pages|] <= ended
    requires RoundOf(turns[|pages|], Free(capacity, first, pages, ends[|pages|]), page, stop)
    ensures Flat(pages + [page]) == Flat(pages) + page
    ensures if page == [] then Reason(turns, pages, stop)
            else PagesOf(turns, capacity, first, pages + [page], ends + [ended]) && Reason(turns, pages + [page], stop)
  {
    FlatNext(pages, page);
    if page != [] {
      forall i | 0 <= i <= |pages| ensures PageAt(turns[i], capacity, first, pages + [page], ends + [ended], i) {
        SamePage(turns[i], capacity, first, pages, ends, page, ended, i);
      }
    }
  }

  lemma SamePage(turn: Turn, capacity: nat, first: nat, pages: seq<seq<int>>, ends: seq<nat>, page: seq<int>,
                 ended: nat, i: nat)
    requires i <= |pages| && |ends| == |pages| + 1 && ends[|pages|] <= ended
    requires if i < |pages| then PageAt(turn, capacity, first, pages, ends, i)
             else page != [] && PageOf(turn, Free(capacity, first, pages, ends[i]), page)
    ensures PageAt(turn, capacity, first, pages + [page], ends + [ended], i)
  {
    assert (pages + [page])[..i] == pages[..i];
    assert pages[..|pages|] == pages;
  }

  /** The tokens free once workers for the first runs and for these pages have been started and some have ended. */
  function Free(capacity: nat, first: nat, pages: seq<seq<int>>, ended: nat): int {
    capacity - (first + |Flat(pages)| - ended)
  }

  /**
   The i-th page is the one of this turn, for the tokens free when the
   round began; ends are the workers ended by then.
   */
  ghost predicate PageAt(turn: Turn, capacity: nat, first: nat, pages: seq<seq<int>>, ends: seq<nat>, i: nat)
    requires i < |pages| && |ends| == |pages| + 1
  {
    ends[i] <= ends[i + 1] && pages[i] != [] && PageOf(turn, Free(capacity, first, pages[..i], ends[i]), pages[i])
  }

  /** Each page is the one of its own turn. */
  ghost predicate PagesOf(turns: seq<Turn>, capacity: nat, first: nat, pages: seq<seq<int>>, ends: seq<nat>) {
    && |pages| <= |turns| && |ends| == |pages| + 1
    && forall i | 0 <= i < |pages| :: PageAt(turns[i], capacity, first, pages, ends, i)
  }

  /** What the reason says about the turn after the pages, or about the last one. */
  ghost predicate Reason(turns: seq<Turn>, pages: seq<seq<int>>, stop: Stop) {
    match stop
    case ListingFailed => |pages| < |turns| && turns[|pages|].broken
    case NothingPending => |pages| < |turns| && PendingIds(turns[|pages|].tables) == {}
    case ContextEnded => 0 < |pages| <= |turns| && Stops(turns[|pages| - 1])
    case _ => true
  }

  /** The context ends before the turn's page is done. */
  ghost predicate Stops(turn: Turn) {
    exists k :: turn.context(k).Over()
  }

  /** This is the page of a turn: its oldest pending runs, as many as there are free tokens. */
  ghost predicate PageOf(turn: Turn, free: int, page: seq<int>) {
    !turn.broken && free > 0 && PendingListing(turn.tables, free, page)
  }

  lemma PageLists(turn: Turn, free: int, page: seq<int>)
    requires free > 0 && !turn.broken && page == PendingPage(turn.tables, free)
    ensures PageOf(turn, free, page) && |page| <= free && (page == [] ==> PendingIds(turn.tables) == {})
  {
    PendingPageLists(turn.tables, free);
  }
}
