/**
 tagsForRepo of internal/image/remote.go: the tag cache as steps of concurrent callers, where the
 read lock and the write lock each make one step and the request to the registry happens between
 them, and the same two steps on the arrays that hold the tags.
 */
module TagCache {
  import opened Model

  /** cacheTTL. */
  const CACHE_TTL: Time := 300 * SECOND

  type Tags = seq<string>

  datatype Entry = Entry(tags: Tags, fetchedAt: Time)

  /** What the registry answers for a repository at an instant; none is an error. */
  type Registry = (string, Time) -> Option<Tags>

  /** servedAt, here and below, is the instant at which the registry gave the tags; no caller can see it. */
  datatype Phase =
    | Begun                                 // time.Now() read, cache not looked at yet
    | Missed                                // not in the cache, or too old: request sent
    | Answered(tags: Tags, servedAt: Time)  // the registry's answer is here, not yet stored
    | Done(tags: Tags, servedAt: Time)
    | NoAnswer
  {
    predicate Over() {
      Done? || NoAnswer?
    }
  }

  datatype Call = Call(repo: string, now: Time, phase: Phase)

  /** filledBy tells for each entry of the cache which call stored it; no caller can see it. */
  datatype State = State(clock: Time, cache: map<string, Entry>, filledBy: map<string, nat>, calls: map<nat, Call>)

  datatype Step =
    | Tick(elapsed: nat)
    | Begin(call: nat, repo: string)
    | Lookup(call: nat)
    | Answer(call: nat)
    | Store(call: nat)

  predicate Hit(cache: map<string, Entry>, repo: string, now: Time) {
    repo in cache && now - cache[repo].fetchedAt < CACHE_TTL
  }

  function CallPhase(s: State, call: nat): Option<Phase> {
    if call in s.calls then Some(s.calls[call].phase) else None
  }

  predicate Enabled(s: State, step: Step) {
    match step
    case Tick(_) => true
    case Begin(c, _) => c !in s.calls
    case Lookup(c) => CallPhase(s, c) == Some(Begun)
    case Answer(c) => CallPhase(s, c) == Some(Missed)
    case Store(c) => c in s.calls && s.calls[c].phase.Answered?
  }

  /** When the tags of a cached repository were served. */
  function ServedAt(s: State, repo: string): Time {
    if repo in s.filledBy && s.filledBy[repo] in s.calls && s.calls[s.filledBy[repo]].phase.Done?
    then s.calls[s.filledBy[repo]].phase.servedAt
    else 0
  }

  function Apply(registry: Registry, s: State, step: Step): State
    requires Enabled(s, step)
  {
    match step
    case Tick(elapsed) => s.(clock := s.clock + elapsed)
    case Begin(c, repo) => s.(calls := s.calls[c := Call(repo, s.clock, Begun)])
    case Lookup(c) =>
      var call := s.calls[c];
      SetPhase(s, c, if Hit(s.cache, call.repo, call.now) then Done(s.cache[call.repo].tags, ServedAt(s, call.repo))
               else Missed)
    case Answer(c) =>
      var answer := registry(s.calls[c].repo, s.clock);
      SetPhase(s, c, if answer.None? then NoAnswer else Answered(answer.value, s.clock))
    case Store(c) =>
      var call := s.calls[c];
      SetPhase(s, c, Done(call.phase.tags, call.phase.servedAt))
      .(cache := s.cache[call.repo := Entry(call.phase.tags, call.now)], filledBy := s.filledBy[call.repo := c])
  }

  function SetPhase(s: State, c: nat, phase: Phase): State
    requires c in s.calls
  {
    s.(calls := s.calls[c := s.calls[c].(phase := phase)])
  }

  function Run(registry: Registry, s: State, steps: seq<Step>): Option<State> {
    if steps == [] then Some(s)
    else
      var t :- Run(registry, s, steps[..|steps| - 1]);
      var step := steps[|steps| - 1];
      if Enabled(t, step) then Some(Apply(registry, t, step)) else None
  }

  const EMPTY: State := State(0, map[], map[], map[])

  // ---------- Freshness ----------

  ghost predicate CallFresh(registry: Registry, clock: Time, call: Call) {
    && call.now <= clock
    && (call.phase.Answered? ==>
          call.now <= call.phase.servedAt <= clock && registry(call.repo, call.phase.servedAt) == Some(call.phase.tags))
    && (call.phase.Done? ==>
          call.now - CACHE_TTL < call.phase.servedAt <= clock
            && registry(call.repo, call.phase.servedAt) == Some(call.phase.tags))
  }

  /** The entry of the cache is what the call that filled it was served, at that call's instant or later. */
  ghost predicate EntryFilled(s: State, repo: string)
    requires repo in s.cache
  {
    && repo in s.filledBy && s.filledBy[repo] in s.calls
    && var call := s.calls[s.filledBy[repo]];
       && call.repo == repo && call.phase.Done? && s.cache[repo] == Entry(call.phase.tags, call.now)
       && call.now <= call.phase.servedAt
  }

  ghost predicate Fresh(registry: Registry, s: State) {
    && (forall repo <- s.cache :: EntryFilled(s, repo))
    && (forall c <- s.calls :: CallFresh(registry, s.clock, s.calls[c]))
  }

  lemma FreshStep(registry: Registry, s: State, step: Step)
    requires Fresh(registry, s) && Enabled(s, step)
    ensures Fresh(registry, Apply(registry, s, step))
  {
    var t := Apply(registry, s, step);
    forall repo | repo in t.cache ensures EntryFilled(t, repo) {
      if !(step.Store? && s.calls[step.call].repo == repo) {
        assert EntryFilled(s, repo);
      }
    }
    if step.Lookup? && Hit(s.cache, s.calls[step.call].repo, s.calls[step.call].now) {
      assert EntryFilled(s, s.calls[step.call].repo);
      assert CallFresh(registry, s.clock, s.calls[s.filledBy[s.calls[step.call].repo]]);
    }
  }

  /**
   Whatever callers do at the same time, the tags a call returns were served by the registry less
   than cacheTTL before the call began, also when a slow request overwrites a newer entry.
   */
  lemma {:induction false} TagsAreFresh(registry: Registry, steps: seq<Step>)
    requires Run(registry, EMPTY, steps).Some?
    ensures Fresh(registry, Run(registry, EMPTY, steps).value)
  {
    if steps != [] {
      TagsAreFresh(registry, steps[..|steps| - 1]);
      FreshStep(registry, Run(registry, EMPTY, steps[..|steps| - 1]).value, steps[|steps| - 1]);
    }
  }

  lemma ReturnedTagsAreFresh(registry: Registry, steps: seq<Step>, c: nat)
    requires Run(registry, EMPTY, steps).Some?
    requires var s := Run(registry, EMPTY, steps).value; c in s.calls && s.calls[c].phase.Done?
    ensures var s := Run(registry, EMPTY, steps).value;
            var call := s.calls[c];
            exists at: Time ::
              call.now - 300 * 1_000_000_000 < at <= s.clock && registry(call.repo, at) == Some(call.phase.tags)
  {
    TagsAreFresh(registry, steps);
    var s := Run(registry, EMPTY, steps).value;
    assert CallFresh(registry, s.clock, s.calls[c]);
  }

  // ---------- When a later call is given older tags ----------

  lemma RunNext(registry: Registry, steps: seq<Step>, step: Step)
    requires Run(registry, EMPTY, steps).Some? && Enabled(Run(registry, EMPTY, steps).value, step)
    ensures Run(registry, EMPTY, steps + [step]) == Some(Apply(registry, Run(registry, EMPTY, steps).value, step))
  {
    assert (steps + [step])[..|steps|] == steps;
  }

  /** When the calls that store tags for a repository began, in the order in which they store. */
  ghost function Stored(registry: Registry, steps: seq<Step>, repo: string): seq<Time>
    requires Run(registry, EMPTY, steps).Some?
  {
    if steps == [] then []
    else
      var most, step := steps[..|steps| - 1], steps[|steps| - 1];
      Stored(registry, most, repo) + StoredBy(Run(registry, EMPTY, most).value, step, repo)
  }

  function StoredBy(s: State, step: Step, repo: string): seq<Time>
    requires Enabled(s, step)
  {
    if step.Store? && s.calls[step.call].repo == repo then [s.calls[step.call].now] else []
  }

  predicate InOrder(times: seq<Time>) {
    forall i, k | 0 <= i < k < |times| :: times[i] <= times[k]
  }

  /** No step replaces an entry by one with an earlier fetchedAt. */
  ghost predicate EntryNeverGoesBack(registry: Registry, steps: seq<Step>, repo: string)
    requires Run(registry, EMPTY, steps).Some?
  {
    steps == [] ||
    var most, s := steps[..|steps| - 1], Run(registry, EMPTY, steps).value;
    var was := Run(registry, EMPTY, most).value;
    EntryNeverGoesBack(registry, most, repo)
    && (repo in was.cache ==> repo in s.cache && was.cache[repo].fetchedAt <= s.cache[repo].fetchedAt)
  }

  lemma InOrderNext(times: seq<Time>, time: Time)
    ensures InOrder(times + [time]) <==> InOrder(times) && (times != [] ==> times[|times| - 1] <= time)
  {
    var all := times + [time];
    if InOrder(all) {
      forall i, k | 0 <= i < k < |times| ensures times[i] <= times[k] {
        assert all[i] <= all[k];
      }
      assert times != [] ==> all[|times| - 1] <= all[|times|];
    }
  }

  /** The entry is the one stored last. */
  lemma {:induction false} EntryIsLast(registry: Registry, steps: seq<Step>, repo: string)
    requires Run(registry, EMPTY, steps).Some?
    ensures var cache, times := Run(registry, EMPTY, steps).value.cache, Stored(registry, steps, repo);
            if times == [] then repo !in cache else repo in cache && cache[repo].fetchedAt == times[|times| - 1]
  {
    if steps != [] {
      EntryIsLast(registry, steps[..|steps| - 1], repo);
    }
  }

  lemma EntryNext(registry: Registry, s: State, step: Step, repo: string, times: seq<Time>)
    requires Enabled(s, step)
    requires if times == [] then repo !in s.cache
             else repo in s.cache && s.cache[repo].fetchedAt == times[|times| - 1]
    ensures var cache := Apply(registry, s, step).cache;
            InOrder(times + StoredBy(s, step, repo))
            <==> InOrder(times)
                 && (repo in s.cache ==> repo in cache && s.cache[repo].fetchedAt <= cache[repo].fetchedAt)
  {
    var next := StoredBy(s, step, repo);
    if next == [] {
      assert times + next == times;
    } else {
      InOrderNext(times, next[0]);
    }
  }

  /**
   Over whole runs: an entry never goes back exactly when the
   repository's calls store in the order in which they began.
   */
  lemma {:induction false} EntryGoesBackIff(registry: Registry, steps: seq<Step>, repo: string)
    requires Run(registry, EMPTY, steps).Some?
    ensures EntryNeverGoesBack(registry, steps, repo) <==> InOrder(Stored(registry, steps, repo))
  {
    if steps != [] {
      var most := steps[..|steps| - 1];
      EntryGoesBackIff(registry, most, repo);
      EntryIsLast(registry, most, repo);
      EntryNext(registry, Run(registry, EMPTY, most).value, steps[|steps| - 1], repo, Stored(registry, most, repo));
    }
  }

  /** This step puts tags into the cache that were served before the ones it replaces. */
  ghost predicate SendsBack(s: State, step: Step, repo: string) {
    && step.Store? && Enabled(s, step) && s.calls[step.call].repo == repo && repo in s.cache
    && s.calls[step.call].phase.servedAt < ServedAt(s, repo)
  }

  /** Tags that have been returned for a repository are no newer than the ones in the cache. */
  ghost predicate CacheIsNewest(s: State, repo: string) {
    forall c <- s.calls | s.calls[c].repo == repo && s.calls[c].phase.Done? ::
      repo in s.cache && s.calls[c].phase.servedAt <= ServedAt(s, repo)
  }

  lemma NewestStep(registry: Registry, s: State, step: Step, repo: string)
    requires Fresh(registry, s) && Enabled(s, step) && CacheIsNewest(s, repo) && !SendsBack(s, step, repo)
    ensures CacheIsNewest(Apply(registry, s, step), repo)
    ensures repo in s.cache ==> ServedAt(s, repo) <= ServedAt(Apply(registry, s, step), repo)
  {
    if repo in s.cache {
      assert EntryFilled(s, repo);
    }
  }

  ghost predicate NeverSentBack(registry: Registry, steps: seq<Step>, repo: string) {
    forall i | 0 <= i < |steps| && Run(registry, EMPTY, steps[..i]).Some? ::
      !SendsBack(Run(registry, EMPTY, steps[..i]).value, steps[i], repo)
  }

  lemma NeverSentBackBefore(registry: Registry, steps: seq<Step>, repo: string)
    requires steps != [] && NeverSentBack(registry, steps, repo)
    ensures NeverSentBack(registry, steps[..|steps| - 1], repo)
  {
    forall i | 0 <= i < |steps| - 1 ensures steps[..|steps| - 1][..i] == steps[..i] {}
  }

  lemma {:induction false} CacheStaysNewest(registry: Registry, steps: seq<Step>, repo: string)
    requires Run(registry, EMPTY, steps).Some? && NeverSentBack(registry, steps, repo)
    ensures CacheIsNewest(Run(registry, EMPTY, steps).value, repo)
  {
    if steps != [] {
      var most := steps[..|steps| - 1];
      NeverSentBackBefore(registry, steps, repo);
      CacheStaysNewest(registry, most, repo);
      TagsAreFresh(registry, most);
      NewestStep(registry, Run(registry, EMPTY, most).value, steps[|steps| - 1], repo);
    }
  }

  /** What a call has been given, if anything, was not served before this instant. */
  predicate NoOlder(s: State, d: nat, since: Time) {
    d in s.calls ==>
      && s.calls[d].now >= since
      && (s.calls[d].phase.Answered? || s.calls[d].phase.Done? ==> s.calls[d].phase.servedAt >= since)
  }

  lemma NoOlderStep(registry: Registry, s: State, step: Step, repo: string, c: nat, d: nat)
    requires Fresh(registry, s) && Enabled(s, step) && CacheIsNewest(s, repo)
    requires c in s.calls && s.calls[c].repo == repo && s.calls[c].phase.Done? && c != d
    requires d in s.calls ==> s.calls[d].repo == repo
    requires NoOlder(s, d, s.calls[c].phase.servedAt)
    ensures NoOlder(Apply(registry, s, step), d, s.calls[c].phase.servedAt)
  {
    assert CallFresh(registry, s.clock, s.calls[c]);
    if d in s.calls {
      assert CallFresh(registry, s.clock, s.calls[d]);
    }
  }

  /** A call keeps its repository, and once it is done what it returned. */
  lemma CallKeeps(registry: Registry, s: State, step: Step, c: nat)
    requires Enabled(s, step) && c in s.calls
    ensures var t := Apply(registry, s, step);
            && c in t.calls && t.calls[c].repo == s.calls[c].repo && t.calls[c].now == s.calls[c].now
            && (s.calls[c].phase.Over() ==> t.calls[c] == s.calls[c])
  {}

  lemma {:induction false} DoneStays(registry: Registry, a: seq<Step>, b: seq<Step>, c: nat)
    requires Run(registry, EMPTY, a + b).Some? && Run(registry, EMPTY, a).Some?
    requires c in Run(registry, EMPTY, a).value.calls && Run(registry, EMPTY, a).value.calls[c].phase.Done?
    ensures c in Run(registry, EMPTY, a + b).value.calls
    ensures Run(registry, EMPTY, a + b).value.calls[c] == Run(registry, EMPTY, a).value.calls[c]
  {
    if b == [] {
      assert a + b == a;
    } else {
      assert (a + b)[..|a + b| - 1] == a + b[..|b| - 1];
      DoneStays(registry, a, b[..|b| - 1], c);
      CallKeeps(registry, Run(registry, EMPTY, a + b[..|b| - 1]).value, b[|b| - 1], c);
    }
  }

  /** c has returned in s; d, a call for the same repository, begins between s and t. */
  ghost predicate ReturnedBefore(s: State, t: State, c: nat, d: nat) {
    && c in s.calls && s.calls[c].phase.Done?
    && d !in s.calls && (d in t.calls ==> t.calls[d].repo == s.calls[c].repo)
  }

  lemma BeganBefore(registry: Registry, s: State, u: State, step: Step, c: nat, d: nat)
    requires Enabled(u, step) && ReturnedBefore(s, Apply(registry, u, step), c, d)
    ensures ReturnedBefore(s, u, c, d)
  {}

  /**
   As long as no store sends the repository back, calls that begin after another has returned are
   given tags served no earlier than the ones it returned.
   */
  lemma {:induction false} LaterTagsAreNoOlder(registry: Registry, a: seq<Step>, b: seq<Step>, c: nat, d: nat)
    requires Run(registry, EMPTY, a + b).Some? && Run(registry, EMPTY, a).Some?
    requires ReturnedBefore(Run(registry, EMPTY, a).value, Run(registry, EMPTY, a + b).value, c, d)
    requires NeverSentBack(registry, a + b, Run(registry, EMPTY, a).value.calls[c].repo)
    ensures NoOlder(Run(registry, EMPTY, a + b).value, d, Run(registry, EMPTY, a).value.calls[c].phase.servedAt)
  {
    NoOlderRun(registry, a, b, Run(registry, EMPTY, a).value, c, d);
  }

  lemma {:induction false} NoOlderRun(registry: Registry, a: seq<Step>, b: seq<Step>, s: State, c: nat, d: nat)
    requires Run(registry, EMPTY, a) == Some(s) && Run(registry, EMPTY, a + b).Some?
    requires ReturnedBefore(s, Run(registry, EMPTY, a + b).value, c, d)
             && NeverSentBack(registry, a + b, s.calls[c].repo)
    ensures NoOlder(Run(registry, EMPTY, a + b).value, d, s.calls[c].phase.servedAt)
  {
    if b == [] {
      assert a + b == a;
    } else {
      var less, step := b[..|b| - 1], b[|b| - 1];
      LastStep(registry, a, b);
      NeverSentBackBefore(registry, a + b, s.calls[c].repo);
      BeganBefore(registry, s, Run(registry, EMPTY, a + less).value, step, c, d);
      NoOlderRun(registry, a, less, s, c, d);
      DoneStays(registry, a, less, c);
      NoOlderNext(registry, a + less, step, s, c, d);
    }
  }

  lemma LastStep(registry: Registry, a: seq<Step>, b: seq<Step>)
    requires b != [] && Run(registry, EMPTY, a + b).Some?
    ensures (a + b)[..|a + b| - 1] == a + b[..|b| - 1]
    ensures Run(registry, EMPTY, a + b[..|b| - 1]).Some?
    ensures var u := Run(registry, EMPTY, a + b[..|b| - 1]).value;
            Enabled(u, b[|b| - 1]) && Run(registry, EMPTY, a + b).value == Apply(registry, u, b[|b| - 1])
  {
    assert (a + b)[..|a + b| - 1] == a + b[..|b| - 1];
    assert (a + b)[|a + b| - 1] == b[|b| - 1];
  }

  lemma NoOlderNext(registry: Registry, steps: seq<Step>, step: Step, s: State, c: nat, d: nat)
    requires Run(registry, EMPTY, steps).Some? && Enabled(Run(registry, EMPTY, steps).value, step)
    requires ReturnedBefore(s, Run(registry, EMPTY, steps).value, c, d)
             && NeverSentBack(registry, steps, s.calls[c].repo)
    requires var u := Run(registry, EMPTY, steps).value;
             c in u.calls && u.calls[c] == s.calls[c] && NoOlder(u, d, s.calls[c].phase.servedAt)
    ensures NoOlder(Apply(registry, Run(registry, EMPTY, steps).value, step), d, s.calls[c].phase.servedAt)
  {
    TagsAreFresh(registry, steps);
    CacheStaysNewest(registry, steps, s.calls[c].repo);
    NoOlderStep(registry, Run(registry, EMPTY, steps).value, step, s.calls[c].repo, c, d);
  }

  /** Every call of the repository is over. */
  ghost predicate Quiet(s: State, repo: string) {
    forall c <- s.calls :: s.calls[c].repo == repo ==> s.calls[c].phase.Over()
  }

  /** Calls of the repository come one after the other. */
  ghost predicate NeverOverlap(registry: Registry, steps: seq<Step>, repo: string) {
    forall i | 0 <= i < |steps| && Run(registry, EMPTY, steps[..i]).Some? ::
      steps[i].Begin? && steps[i].repo == repo ==> Quiet(Run(registry, EMPTY, steps[..i]).value, repo)
  }

  /** A call that is not over is the only one, and began after the cached tags were served. */
  ghost predicate OneAtATime(s: State, repo: string) {
    forall c <- s.calls :: s.calls[c].repo == repo && !s.calls[c].phase.Over() ==>
      && (repo in s.cache ==> ServedAt(s, repo) <= s.calls[c].now)
      && forall d <- s.calls :: s.calls[d].repo == repo && d != c ==> s.calls[d].phase.Over()
  }

  lemma OneAtATimeStep(registry: Registry, s: State, step: Step, repo: string)
    requires Fresh(registry, s) && Enabled(s, step) && OneAtATime(s, repo)
    requires step.Begin? && step.repo == repo ==> Quiet(s, repo)
    ensures OneAtATime(Apply(registry, s, step), repo) && !SendsBack(s, step, repo)
  {
    var t := Apply(registry, s, step);
    if repo in s.cache {
      assert EntryFilled(s, repo);
      assert CallFresh(registry, s.clock, s.calls[s.filledBy[repo]]);
    }
    if step.Store? {
      assert CallFresh(registry, s.clock, s.calls[step.call]);
    }
    forall c | c in t.calls && t.calls[c].repo == repo && !t.calls[c].phase.Over()
      ensures (repo in t.cache ==> ServedAt(t, repo) <= t.calls[c].now)
      ensures forall d <- t.calls :: t.calls[d].repo == repo && d != c ==> t.calls[d].phase.Over()
    {}
  }

  lemma {:induction false} OneByOneNeverSendsBack(registry: Registry, steps: seq<Step>, repo: string)
    requires Run(registry, EMPTY, steps).Some? && NeverOverlap(registry, steps, repo)
    ensures NeverSentBack(registry, steps, repo) && OneAtATime(Run(registry, EMPTY, steps).value, repo)
  {
    if steps != [] {
      var most := steps[..|steps| - 1];
      NeverOverlapBefore(registry, steps, repo);
      OneByOneNeverSendsBack(registry, most, repo);
      TagsAreFresh(registry, most);
      OneAtATimeStep(registry, Run(registry, EMPTY, most).value, steps[|steps| - 1], repo);
      NeverSentBackNext(registry, steps, repo);
    }
  }

  lemma NeverOverlapBefore(registry: Registry, steps: seq<Step>, repo: string)
    requires steps != [] && NeverOverlap(registry, steps, repo)
    ensures NeverOverlap(registry, steps[..|steps| - 1], repo)
  {
    forall i | 0 <= i < |steps| - 1 ensures steps[..|steps| - 1][..i] == steps[..i] {}
  }

  lemma NeverSentBackNext(registry: Registry, steps: seq<Step>, repo: string)
    requires steps != [] && NeverSentBack(registry, steps[..|steps| - 1], repo)
    requires var most := Run(registry, EMPTY, steps[..|steps| - 1]);
             most.Some? && !SendsBack(most.value, steps[|steps| - 1], repo)
    ensures NeverSentBack(registry, steps, repo)
  {
    forall i | 0 <= i < |steps| - 1 ensures steps[..|steps| - 1][..i] == steps[..i] {}
  }

  /** Where calls for a repository never overlap, a later call's tags were served no earlier than an earlier call's. */
  lemma CallsOneByOneSeeNewerTags(registry: Registry, a: seq<Step>, b: seq<Step>, c: nat, d: nat)
    requires Run(registry, EMPTY, a + b).Some? && Run(registry, EMPTY, a).Some?
    requires var s, t := Run(registry, EMPTY, a).value, Run(registry, EMPTY, a + b).value;
             ReturnedBefore(s, t, c, d) && d in t.calls && t.calls[d].phase.Done?
    requires NeverOverlap(registry, a + b, Run(registry, EMPTY, a).value.calls[c].repo)
    ensures Run(registry, EMPTY, a).value.calls[c].phase.servedAt
            <= Run(registry, EMPTY, a + b).value.calls[d].phase.servedAt
  {
    OneByOneNeverSendsBack(registry, a + b, Run(registry, EMPTY, a).value.calls[c].repo);
    LaterTagsAreNoOlder(registry, a, b, c, d);
  }

  /**
   Conversely: after a store, a call that begins at once is given tags served before the ones the
   cache held, which some call has returned, exactly when the store sent the repository back and its
   entry is not too old already.
   */
  lemma NextCallSeesOlderTagsIff(registry: Registry, steps: seq<Step>, c: nat, n: nat)
    requires Run(registry, EMPTY, steps).Some? && Enabled(Run(registry, EMPTY, steps).value, Store(c))
    requires var s := Run(registry, EMPTY, steps).value; s.calls[c].repo in s.cache && n !in s.calls
    ensures var s := Run(registry, EMPTY, steps).value;
            var repo := s.calls[c].repo;
            var run := Run(registry, EMPTY, steps + [Store(c)] + [Begin(n, repo)] + [Lookup(n)]);
            && repo in s.filledBy && s.filledBy[repo] in s.calls && s.calls[s.filledBy[repo]].phase.Done?
            && run.Some? && n in run.value.calls
            && (run.value.calls[n].phase.Done?
                && run.value.calls[n].phase.servedAt < s.calls[s.filledBy[repo]].phase.servedAt
                <==> SendsBack(s, Store(c), repo) && s.clock - s.calls[c].now < CACHE_TTL)
  {
    TagsAreFresh(registry, steps);
    var s := Run(registry, EMPTY, steps).value;
    var repo := s.calls[c].repo;
    assert EntryFilled(s, repo);
    RunNext(registry, steps, Store(c));
    RunNext(registry, steps + [Store(c)], Begin(n, repo));
    RunNext(registry, steps + [Store(c)] + [Begin(n, repo)], Lookup(n));
  }

  /** A registry whose tags change at one instant. */
  function ChangesAt(change: Time): Registry {
    (repo, at) => Some(if at < change then ["old"] else ["new"])
  }

  /** The slow request of call 0 stores its tags after call 1 has stored newer ones. */
  function SlowFetchStep(wait: nat, i: nat): Step {
    match i
    case 0 => Begin(0, "app")
    case 1 => Lookup(0)
    case 2 => Answer(0)
    case 3 => Tick(wait)
    case 4 => Begin(1, "app")
    case 5 => Lookup(1)
    case 6 => Answer(1)
    case 7 => Store(1)
    case 8 => Store(0)
    case 9 => Begin(2, "app")
    case _ => Lookup(2)
  }

  function SlowFetch(wait: nat, n: nat): seq<Step> {
    if n == 0 then [] else SlowFetch(wait, n - 1) + [SlowFetchStep(wait, n - 1)]
  }

  function SlowFetchState(wait: nat, i: nat): State {
    var slow := map[0 := Call("app", 0, Answered(["old"], 0))];
    var newer := Call("app", wait, Done(["new"], wait));
    match i
    case 0 => EMPTY
    case 1 => State(0, map[], map[], map[0 := Call("app", 0, Begun)])
    case 2 => State(0, map[], map[], map[0 := Call("app", 0, Missed)])
    case 3 => State(0, map[], map[], slow)
    case 4 => State(wait, map[], map[], slow)
    case 5 => State(wait, map[], map[], slow[1 := Call("app", wait, Begun)])
    case 6 => State(wait, map[], map[], slow[1 := Call("app", wait, Missed)])
    case 7 => State(wait, map[], map[], slow[1 := Call("app", wait, Answered(["new"], wait))])
    case 8 => State(wait, map["app" := Entry(["new"], wait)], map["app" := 1], slow[1 := newer])
    case 9 => State(wait, map["app" := Entry(["old"], 0)], map["app" := 0],
                    map[0 := Call("app", 0, Done(["old"], 0)), 1 := newer])
    case 10 => State(wait, map["app" := Entry(["old"], 0)], map["app" := 0],
                     map[0 := Call("app", 0, Done(["old"], 0)), 1 := newer, 2 := Call("app", wait, Begun)])
    case _ => State(wait, map["app" := Entry(["old"], 0)], map["app" := 0],
                    map[0 := Call("app", 0, Done(["old"], 0)), 1 := newer, 2 := Call("app", wait, Done(["old"], 0))])
  }

  lemma SlowFetchBegins(wait: nat, i: nat)
    requires 0 < wait < CACHE_TTL && i < 6
    ensures Enabled(SlowFetchState(wait, i), SlowFetchStep(wait, i))
    ensures Apply(ChangesAt(1), SlowFetchState(wait, i), SlowFetchStep(wait, i)) == SlowFetchState(wait, i + 1)
  {}

  lemma SlowFetchStores(wait: nat, i: nat)
    requires 0 < wait < CACHE_TTL && 6 <= i < 8
    ensures Enabled(SlowFetchState(wait, i), SlowFetchStep(wait, i))
    ensures Apply(ChangesAt(1), SlowFetchState(wait, i), SlowFetchStep(wait, i)) == SlowFetchState(wait, i + 1)
  {}

  lemma SlowFetchEnds(wait: nat, i: nat)
    requires 0 < wait < CACHE_TTL && 8 <= i < 11
    ensures Enabled(SlowFetchState(wait, i), SlowFetchStep(wait, i))
    ensures Apply(ChangesAt(1), SlowFetchState(wait, i), SlowFetchStep(wait, i)) == SlowFetchState(wait, i + 1)
  {}

  lemma {:induction false} SlowFetchRuns(wait: nat, n: nat)
    requires 0 < wait < CACHE_TTL && n <= 11
    ensures Run(ChangesAt(1), EMPTY, SlowFetch(wait, n)) == Some(SlowFetchState(wait, n))
  {
    if n > 0 {
      SlowFetchRuns(wait, n - 1);
      if n <= 6 {
        SlowFetchBegins(wait, n - 1);
      } else if n <= 8 {
        SlowFetchStores(wait, n - 1);
      } else {
        SlowFetchEnds(wait, n - 1);
      }
      RunOn(ChangesAt(1), SlowFetch(wait, n - 1), SlowFetchState(wait, n - 1), SlowFetchStep(wait, n - 1),
            SlowFetchState(wait, n));
    }
  }

  lemma RunOn(registry: Registry, steps: seq<Step>, s: State, step: Step, t: State)
    requires Run(registry, EMPTY, steps) == Some(s) && Enabled(s, step) && Apply(registry, s, step) == t
    ensures Run(registry, EMPTY, steps + [step]) == Some(t)
  {
    RunNext(registry, steps, step);
  }

  /**
   So calls one after the other can go back in time: call 2 begins after call 1 has returned the tags
   served from instant 1 on, and returns the ones served before it; with age = cacheTTL - 1 they
   are as old as freshness lets them be.
   */
  lemma LaterCallSeesOlderTags(age: nat)
    requires 0 < age < CACHE_TTL
    ensures Run(ChangesAt(1), EMPTY, SlowFetch(age, 11)).Some?
    ensures var s := Run(ChangesAt(1), EMPTY, SlowFetch(age, 11)).value;
            && 1 in s.calls && 2 in s.calls && s.calls[1].now == s.calls[2].now == age
            && s.calls[1].phase == Done(["new"], age) && s.calls[2].phase == Done(["old"], 0)
  {
    SlowFetchRuns(age, 11);
  }

  // ---------- The cache in memory ----------

  datatype CacheEntry = CacheEntry(tags: array<string>, fetchedAt: Time)

  class RemoteSource {
    var tagCache: map<string, CacheEntry>

    /** The arrays the cache owns. */
    ghost function Repr(): set<array<string>>
      reads this
    {
      set repo | repo in tagCache :: tagCache[repo].tags
    }

    /** The cache as the steps above see it. */
    ghost function View(): map<string, Entry>
      reads this, Repr()
    {
      map repo | repo in tagCache :: Entry(tagCache[repo].tags[..], tagCache[repo].fetchedAt)
    }

    constructor ()
      ensures View() == map[]
    {
      tagCache := map[];
    }

    /** The step under the read lock: a copy of the cached tags, or null. */
    method LookUp(repo: string, now: Time) returns (tags: array?<string>)
      ensures tags != null <==> repo in View() && now - View()[repo].fetchedAt < 300 * 1_000_000_000
      ensures tags != null ==> fresh(tags) && tags[..] == View()[repo].tags
    {
      tags := null;
      if repo in tagCache && now - tagCache[repo].fetchedAt < CACHE_TTL {
        tags := Copy(tagCache[repo].tags);
      }
    }

    /** The step under the write lock: the cache gets its own copy. */
    method StoreTags(repo: string, tags: array<string>, now: Time)
      modifies this
      ensures View() == old(View())[repo := Entry(old(tags[..]), now)]
      ensures fresh(Repr() - old(Repr())) && unchanged(tags)
    {
      var copy := Copy(tags);
      tagCache := tagCache[repo := CacheEntry(copy, now)];
    }

    /**
     tagsForRepo of one caller; answer is what the registry says if it is asked.  The tags a caller
     gets are in no array of the cache, so nothing it writes there changes what others are given.
     */
    method TagsForRepo(repo: string, now: Time, answer: Option<Tags>) returns (tags: array?<string>)
      modifies this
      ensures tags != null ==> fresh(tags) && tags !in Repr()
      ensures var hit := repo in old(View()) && now - old(View())[repo].fetchedAt < 300 * 1_000_000_000;
              if hit then tags != null && tags[..] == old(View())[repo].tags && View() == old(View())
              else if answer.None? then tags == null && View() == old(View())
              else tags != null && tags[..] == answer.value && View() == old(View())[repo := Entry(answer.value, now)]
    {
      tags := LookUp(repo, now);
      if tags != null {
        return;
      }
      if answer.None? {
        return;
      }
      tags := new string[|answer.value|](i requires 0 <= i < |answer.value| => answer.value[i]);
      assert tags[..] == answer.value;
      StoreTags(repo, tags, now);
    }
  }

  /** append([]string(nil), tags...). */
  method Copy(tags: array<string>) returns (copy: array<string>)
    ensures fresh(copy) && copy[..] == tags[..]
  {
    copy := new string[tags.Length](i requires 0 <= i < tags.Length reads tags => tags[i]);
    assert copy[..] == tags[..];
  }
}
