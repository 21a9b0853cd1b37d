/**
 ListCandidates of internal/image/remote.go after the repositories are listed: one goroutine for
 each filtered repository behind a semaphore of eight, a results channel of 64, an error channel
 of one, the goroutine that closes the results, the collecting loop, and a context that the
 caller, a failed fetch or the end of the call cancels.
 */
module TagFanout {
  import opened Model

  const MAX_FETCHES: nat := 8
  const RESULTS_BUFFER: nat := 64

  type Tags = seq<string>

  // ---------- Filters ----------

  /** strings.Contains. */
  predicate Contains(s: string, q: string) {
    exists i | 0 <= i <= |s| :: OccursAt(s, q, i)
  }

  predicate OccursAt(s: string, q: string, i: int) {
    0 <= i <= |s| - |q| && s[i..i + |q|] == q
  }

  /** The filter on repositories; strings.HasPrefix is <= on sequences. */
  predicate Wanted(repo: string, q: string, prefix: string) {
    prefix <= repo && Contains(repo, q)
  }

  /** The repositories that pass, in the catalog's order. */
  function Filtered(repos: seq<string>, q: string, prefix: string): (filtered: seq<string>) {
    if repos == [] then []
    else
      var last := repos[|repos| - 1];
      Filtered(repos[..|repos| - 1], q, prefix) + if Wanted(last, q, prefix) then [last] else []
  }

  /** The loop of ListCandidates over the catalog; an empty prefix or q filters nothing. */
  method FilterRepos(repos: seq<string>, q: string, prefix: string) returns (filtered: seq<string>)
    ensures filtered == Filtered(repos, q, prefix)
  {
    filtered := [];
    var i := 0;
    while i < |repos|
      invariant i <= |repos| && filtered == Filtered(repos[..i], q, prefix)
    {
      var repo := repos[i];
      assert repos[..i + 1][..i] == repos[..i];
      EmptyOccurs(repo);
      i := i + 1;
      if prefix != "" && !(prefix <= repo) {
        continue;
      }
      if q != "" && !Contains(repo, q) {
        continue;
      }
      filtered := filtered + [repo];
    }
    assert repos[..i] == repos;
  }

  lemma EmptyOccurs(s: string)
    ensures Contains(s, "")
  {
    assert OccursAt(s, "", 0);
  }

  /** Which repositories pass: the prefix comes first and q comes anywhere. */
  lemma WantedIff(repo: string, q: string, prefix: string)
    ensures Wanted(repo, q, prefix) <==> (exists rest :: repo == prefix + rest) && exists a, b :: repo == a + q + b
  {
    if prefix <= repo {
      assert repo == prefix + repo[|prefix|..];
    }
    if Contains(repo, q) {
      var i :| 0 <= i <= |repo| && OccursAt(repo, q, i);
      assert repo == repo[..i] + q + repo[i + |q|..];
    }
    if a, b :| repo == a + q + b {
      assert repo[|a|..|a| + |q|] == q;
      assert OccursAt(repo, q, |a|);
    }
  }

  /** Each is there as often as in the catalog. */
  lemma {:induction false} FilteredCounts(repos: seq<string>, q: string, prefix: string)
    ensures forall repo ::
              multiset(Filtered(repos, q, prefix))[repo] == if Wanted(repo, q, prefix) then multiset(repos)[repo] else 0
  {
    if repos != [] {
      var most, last := repos[..|repos| - 1], repos[|repos| - 1];
      FilteredCounts(most, q, prefix);
      assert repos == most + [last];
    }
  }

  /** They stay in the catalog's order, each once for every time it is listed there. */
  lemma {:induction false} FilteredInOrder(left: seq<string>, right: seq<string>, q: string, prefix: string)
    ensures Filtered(left + right, q, prefix) == Filtered(left, q, prefix) + Filtered(right, q, prefix)
  {
    if right == [] {
      assert left + right == left;
    } else {
      var most, last := right[..|right| - 1], right[|right| - 1];
      FilteredInOrder(left, most, q, prefix);
      FilteredNext(left + most, last, q, prefix);
      FilteredNext(most, last, q, prefix);
      assert left + right == (left + most) + [last];
      assert right == most + [last];
    }
  }

  lemma FilteredNext(left: seq<string>, repo: string, q: string, prefix: string)
    ensures Filtered(left + [repo], q, prefix)
            == Filtered(left, q, prefix) + if Wanted(repo, q, prefix) then [repo] else []
  {
    assert (left + [repo])[..|left|] == left;
  }

  /** The filter on references, on whole tag lists. */
  function Items(repo: string, tags: Tags, q: string): (items: seq<string>)
  {
    if tags == [] then []
    else
      var ref := repo + ":" + tags[|tags| - 1];
      Items(repo, tags[..|tags| - 1], q) + if Contains(ref, q) then [ref] else []
  }

  /** The references of a repository, unfiltered. */
  function Refs(repo: string, tags: Tags): (refs: seq<string>)
    ensures |refs| == |tags| && forall i | 0 <= i < |tags| :: refs[i] == repo + ":" + tags[i]
  {
    if tags == [] then [] else Refs(repo, tags[..|tags| - 1]) + [repo + ":" + tags[|tags| - 1]]
  }

  /** The second filter on q drops nothing of a repository that passed the first. */
  lemma {:induction false} SecondFilterDropsNothing(repo: string, tags: Tags, q: string)
    requires Contains(repo, q)
    ensures Items(repo, tags, q) == Refs(repo, tags)
  {
    if tags != [] {
      SecondFilterDropsNothing(repo, tags[..|tags| - 1], q);
      var ref := repo + ":" + tags[|tags| - 1];
      var i :| 0 <= i <= |repo| && OccursAt(repo, q, i);
      assert ref[i..i + |q|] == repo[i..i + |q|];
      assert OccursAt(ref, q, i);
    }
  }

  // ---------- State ----------

  /** How a goroutine ended, or is about to. */
  datatype Fate =
    | Delivered(tags: Tags)   // its items went into the results channel
    | FetchFailed
    | GaveUp                  // it saw the context done

  datatype Phase =
    | Waiting                 // for a place in the semaphore, or the context
    | Fetching                // tagsForRepo
    | Reporting               // the fetch failed: try to put the error into errCh
    | Aborting                // then cancel the context
    | Checking(tags: Tags)    // fetched: is the context done?
    | Sending(tags: Tags)     // the results channel, or the context
    | Leaving(fate: Fate)     // give the place back
    | Finished(fate: Fate)

  datatype Answer = Collecting | Listed(candidates: seq<string>) | Refused

  datatype State = State(
    workers: seq<Phase>,
    places: nat,                      // taken in the semaphore
    results: seq<seq<string>>,
    closed: bool,
    errCh: nat,                       // errors in errCh
    done: bool,                       // the context is done
    callerCancelled: bool,
    collected: seq<string>,
    answer: Answer)

  datatype Step =
    | CallerCancels
    | TakePlace(w: nat)
    | SeeDone(w: nat)                 // any select of a goroutine that ends on ctx.Done()
    | Fetch(w: nat, tags: Option<Tags>)
    | Report(w: nat)
    | CancelAll(w: nat)
    | GoOn(w: nat)                    // the check of the context after the fetch passes
    | Send(w: nat)
    | Leave(w: nat)
    | Close
    | CollectError
    | CollectItems
    | CollectClosed
    | CollectDone

  predicate Holds(p: Phase) {
    !p.Waiting? && !p.Finished?
  }

  predicate AllFinished(s: State) {
    forall i | 0 <= i < |s.workers| :: s.workers[i].Finished?
  }

  predicate At(s: State, w: nat) {
    w < |s.workers|
  }

  function Init(n: nat): State {
    State(seq(n, _ => Waiting), 0, [], false, 0, false, false, [], Collecting)
  }

  predicate Enabled(s: State, step: Step) {
    match step
    case CallerCancels => s.answer.Collecting? && !s.callerCancelled
    case TakePlace(w) => At(s, w) && s.workers[w].Waiting? && s.places < MAX_FETCHES
    case SeeDone(w) => At(s, w) && s.done && (s.workers[w].Waiting? || s.workers[w].Checking? || s.workers[w].Sending?)
    case Fetch(w, _) => At(s, w) && s.workers[w].Fetching?
    case Report(w) => At(s, w) && s.workers[w].Reporting?
    case CancelAll(w) => At(s, w) && s.workers[w].Aborting?
    case GoOn(w) => At(s, w) && s.workers[w].Checking? && !s.done
    case Send(w) => At(s, w) && s.workers[w].Sending? && |s.results| < RESULTS_BUFFER
    case Leave(w) => At(s, w) && s.workers[w].Leaving? && s.places > 0
    case Close => AllFinished(s) && !s.closed
    case CollectError => s.answer.Collecting? && s.errCh > 0
    case CollectItems => s.answer.Collecting? && s.results != []
    case CollectClosed => s.answer.Collecting? && s.results == [] && s.closed
    case CollectDone => s.answer.Collecting? && s.done
  }

  function Move(s: State, w: nat, p: Phase): State
    requires At(s, w)
  {
    s.(workers := s.workers[w := p])
  }

  /** The call returns: its deferred cancel ends the context. */
  function Return(s: State, answer: Answer): State {
    s.(answer := answer, done := true)
  }

  function Apply(repos: seq<string>, q: string, s: State, step: Step): State
    requires Enabled(s, step) && |s.workers| == |repos|
  {
    match step
    case CallerCancels => s.(callerCancelled := true, done := true)
    case TakePlace(w) => Move(s, w, Fetching).(places := s.places + 1)
    case SeeDone(w) => Move(s, w, if s.workers[w].Waiting? then Finished(GaveUp) else Leaving(GaveUp))
    case Fetch(w, tags) => Move(s, w, if tags.None? then Reporting else Checking(tags.value))
    case Report(w) => Move(s, w, Aborting).(errCh := if s.errCh < 1 then s.errCh + 1 else s.errCh)
    case CancelAll(w) => Move(s, w, Leaving(FetchFailed)).(done := true)
    case GoOn(w) => Move(s, w, Sending(s.workers[w].tags))
    case Send(w) =>
      var tags := s.workers[w].tags;
      Move(s, w, Leaving(Delivered(tags))).(results := s.results + [Items(repos[w], tags, q)])
    case Leave(w) => Move(s, w, Finished(s.workers[w].fate)).(places := s.places - 1)
    case Close => s.(closed := true)
    case CollectError => Return(s.(errCh := s.errCh - 1), Refused)
    case CollectItems => s.(collected := s.collected + s.results[0], results := s.results[1..])
    case CollectClosed =>
      if s.errCh > 0 then Return(s.(errCh := s.errCh - 1), Refused) else Return(s, Listed(s.collected))
    case CollectDone => Return(s, Refused)
  }

  function Run(repos: seq<string>, q: string, steps: seq<Step>): (s: Option<State>)
    ensures s.Some? ==> |s.value.workers| == |repos|
  {
    if steps == [] then Some(Init(|repos|))
    else
      var t :- Run(repos, q, steps[..|steps| - 1]);
      if Enabled(t, steps[|steps| - 1]) then Some(Apply(repos, q, t, steps[|steps| - 1])) else None
  }

  // ---------- Sums over the goroutines ----------

  function Total(parts: seq<nat>, n: nat): nat
    requires n <= |parts|
  {
    if n == 0 then 0 else Total(parts, n - 1) + parts[n - 1]
  }

  lemma {:induction false} TotalMove(parts: seq<nat>, w: nat, part: nat, n: nat)
    requires w < |parts| && n <= |parts|
    ensures if n <= w then Total(parts[w := part], n) == Total(parts, n)
            else Total(parts[w := part], n) + parts[w] == Total(parts, n) + part
  {
    if n > 0 {
      TotalMove(parts, w, part, n - 1);
    }
  }

  function Sum(parts: seq<multiset<string>>, n: nat): multiset<string>
    requires n <= |parts|
  {
    if n == 0 then multiset{} else Sum(parts, n - 1) + parts[n - 1]
  }

  lemma {:induction false} SumMove(parts: seq<multiset<string>>, w: nat, part: multiset<string>, n: nat)
    requires w < |parts| && n <= |parts|
    ensures if n <= w then Sum(parts[w := part], n) == Sum(parts, n)
            else Sum(parts[w := part], n) + parts[w] == Sum(parts, n) + part
  {
    if n > 0 {
      SumMove(parts, w, part, n - 1);
      if w < n - 1 {
        AddToBoth(Sum(parts[w := part], n - 1), Sum(parts, n - 1), parts[n - 1], parts[w], part);
      }
    }
  }

  lemma AddToBoth(a: multiset<string>, b: multiset<string>, c: multiset<string>, x: multiset<string>,
                  y: multiset<string>)
    requires a + x == b + y
    ensures (a + c) + x == (b + c) + y
  {
    assert (a + c) + x == (a + x) + c && (b + c) + y == (b + y) + c;
  }

  /** The places the goroutines hold in the semaphore. */
  function Held(workers: seq<Phase>): seq<nat> {
    seq(|workers|, i requires 0 <= i < |workers| => if Holds(workers[i]) then 1 else 0)
  }

  function Holding(workers: seq<Phase>): nat {
    Total(Held(workers), |workers|)
  }

  /** What a goroutine has put into the results channel. */
  function Share(repo: string, q: string, p: Phase): multiset<string> {
    if HasSent(p) then multiset(Items(repo, p.fate.tags, q)) else multiset{}
  }

  predicate HasSent(p: Phase) {
    (p.Leaving? || p.Finished?) && p.fate.Delivered?
  }

  function ShareList(repos: seq<string>, q: string, workers: seq<Phase>): seq<multiset<string>>
    requires |repos| == |workers|
  {
    seq(|repos|, i requires 0 <= i < |repos| => Share(repos[i], q, workers[i]))
  }

  function Shares(repos: seq<string>, q: string, workers: seq<Phase>): multiset<string>
    requires |repos| == |workers|
  {
    Sum(ShareList(repos, q, workers), |repos|)
  }

  function Flat(results: seq<seq<string>>): multiset<string> {
    if results == [] then multiset{} else multiset(results[0]) + Flat(results[1..])
  }

  lemma {:induction false} FlatAppend(results: seq<seq<string>>, items: seq<string>)
    ensures Flat(results + [items]) == Flat(results) + multiset(items)
  {
    if results == [] {
      assert ([items])[1..] == [];
    } else {
      FlatAppend(results[1..], items);
      assert (results + [items])[1..] == results[1..] + [items];
    }
  }

  lemma HoldingMove(workers: seq<Phase>, w: nat, p: Phase)
    requires w < |workers|
    ensures Holding(workers[w := p]) + (if Holds(workers[w]) then 1 else 0) == Holding(workers)
            + if Holds(p) then 1 else 0
  {
    var part := if Holds(p) then 1 else 0;
    TotalMove(Held(workers), w, part, |workers|);
    assert Held(workers[w := p]) == Held(workers)[w := part];
  }

  lemma SharesMove(repos: seq<string>, q: string, workers: seq<Phase>, w: nat, p: Phase)
    requires |repos| == |workers| && w < |workers|
    ensures Shares(repos, q, workers[w := p]) + Share(repos[w], q, workers[w])
            == Shares(repos, q, workers) + Share(repos[w], q, p)
  {
    SumMove(ShareList(repos, q, workers), w, Share(repos[w], q, p), |repos|);
    assert ShareList(repos, q, workers[w := p]) == ShareList(repos, q, workers)[w := Share(repos[w], q, p)];
  }

  /** A goroutine that has put nothing into the channel so far, and does not now, changes no sum. */
  lemma QuietMove(repos: seq<string>, q: string, workers: seq<Phase>, w: nat, p: Phase)
    requires |repos| == |workers| && w < |workers| && Share(repos[w], q, workers[w]) == Share(repos[w], q, p)
    ensures Shares(repos, q, workers[w := p]) == Shares(repos, q, workers)
  {
    SharesMove(repos, q, workers, w, p);
    CancelSame(Shares(repos, q, workers[w := p]), Shares(repos, q, workers), Share(repos[w], q, p));
  }

  lemma CancelSame(a: multiset<string>, b: multiset<string>, x: multiset<string>)
    requires a + x == b + x
    ensures a == b
  {
    assert a == (a + x) - x;
    assert b == (b + x) - x;
  }

  lemma {:induction false} NothingHeld(workers: seq<Phase>, n: nat)
    requires n <= |workers|
    requires forall p <- workers :: !Holds(p)
    ensures Total(Held(workers), n) == 0
  {
    if n > 0 {
      NothingHeld(workers, n - 1);
    }
  }

  lemma {:induction false} NothingShared(repos: seq<string>, q: string, n: nat)
    requires n <= |repos|
    ensures Sum(ShareList(repos, q, Init(|repos|).workers), n) == multiset{}
  {
    if n > 0 {
      NothingShared(repos, q, n - 1);
    }
  }

  // ---------- The invariant ----------

  /** The goroutine's fetch failed, and its error is on its way or has been seen. */
  predicate FetchBroke(p: Phase) {
    p.Aborting? || ((p.Leaving? || p.Finished?) && p.fate.FetchFailed?)
  }

  predicate LeftEarly(p: Phase) {
    (p.Leaving? || p.Finished?) && p.fate.GaveUp?
  }

  predicate SomeLeftEarly(workers: seq<Phase>) {
    exists i | 0 <= i < |workers| :: LeftEarly(workers[i])
  }

  predicate Broken(workers: seq<Phase>) {
    exists i | 0 <= i < |workers| :: FetchBroke(workers[i])
  }

  /** Channels within their capacity, and the semaphore counts the goroutines that hold a place. */
  predicate Bounded(s: State) {
    && s.places == Holding(s.workers) && s.places <= MAX_FETCHES
    && |s.results| <= RESULTS_BUFFER && s.errCh <= 1
  }

  /** Nothing sent is lost or doubled on the way to the collector. */
  predicate Accounted(repos: seq<string>, q: string, s: State)
    requires |repos| == |s.workers|
  {
    multiset(s.collected) + Flat(s.results) == Shares(repos, q, s.workers)
  }

  /** Why the context can be done, why a goroutine can have left early, and what an answer rests on. */
  predicate Causes(s: State) {
    && (s.closed ==> AllFinished(s))
    && (s.done && s.answer.Collecting? ==> s.callerCancelled || s.errCh > 0)
    && (!s.answer.Collecting? || s.callerCancelled ==> s.done)
    && (s.errCh > 0 ==> Broken(s.workers))
    && (Broken(s.workers) ==> s.errCh > 0 || s.answer.Refused?)
    && (SomeLeftEarly(s.workers) ==> s.done)
    && (s.answer.Listed? ==>
          && s.closed && s.results == [] && s.errCh == 0 && s.answer.candidates == s.collected
          && (s.callerCancelled || !SomeLeftEarly(s.workers)))
    && (s.answer.Refused? ==> s.callerCancelled || Broken(s.workers))
  }

  predicate Inv(repos: seq<string>, q: string, s: State) {
    |repos| == |s.workers| && Bounded(s) && Accounted(repos, q, s) && Causes(s)
  }

  lemma InitInv(repos: seq<string>, q: string)
    ensures Inv(repos, q, Init(|repos|))
  {
    NothingHeld(Init(|repos|).workers, |repos|);
    NothingShared(repos, q, |repos|);
  }

  lemma BoundedStep(repos: seq<string>, q: string, s: State, step: Step)
    requires |repos| == |s.workers| && Bounded(s) && Enabled(s, step)
    ensures Bounded(Apply(repos, q, s, step))
  {
    var t := Apply(repos, q, s, step);
    if Moves(step) {
      HoldingMove(s.workers, step.w, t.workers[step.w]);
    }
  }

  /** Items move from the goroutine's hand into the channel. */
  lemma SentAccounted(collected: multiset<string>, flat: multiset<string>, shares: multiset<string>,
                      items: multiset<string>,
                      flat': multiset<string>, shares': multiset<string>)
    requires collected + flat == shares && flat' == flat + items && shares' + multiset{} == shares + items
    ensures collected + flat' == shares'
  {
    assert shares' == shares + items;
    assert collected + (flat + items) == (collected + flat) + items;
  }

  lemma SendAccounted(repos: seq<string>, q: string, s: State, w: nat, tags: Tags)
    requires |repos| == |s.workers| && Accounted(repos, q, s) && At(s, w) && s.workers[w] == Sending(tags)
    ensures Accounted(repos, q,
                      Move(s, w, Leaving(Delivered(tags))).(results := s.results + [Items(repos[w], tags, q)]))
  {
    var items := Items(repos[w], tags, q);
    var p := Leaving(Delivered(tags));
    SharesMove(repos, q, s.workers, w, p);
    FlatAppend(s.results, items);
    SentAccounted(multiset(s.collected), Flat(s.results), Shares(repos, q, s.workers), multiset(items),
                  Flat(s.results + [items]), Shares(repos, q, s.workers[w := p]));
  }

  lemma CollectAccounted(repos: seq<string>, q: string, s: State)
    requires |repos| == |s.workers| && Accounted(repos, q, s) && s.results != []
    ensures Accounted(repos, q, s.(collected := s.collected + s.results[0], results := s.results[1..]))
  {
    var items, rest := multiset(s.results[0]), Flat(s.results[1..]);
    assert multiset(s.collected + s.results[0]) == multiset(s.collected) + items;
    assert (multiset(s.collected) + items) + rest == multiset(s.collected) + (items + rest);
  }

  /** The other steps of a goroutine touch neither what it has sent nor the results. */
  lemma QuietEffect(repos: seq<string>, q: string, s: State, step: Step)
    requires |repos| == |s.workers| && Enabled(s, step) && Moves(step) && !step.Send?
    ensures At(s, step.w)
    ensures var t := Apply(repos, q, s, step);
            var p := t.workers[step.w];
            && t.workers == s.workers[step.w := p] && t.results == s.results && t.collected == s.collected
            && HasSent(p) == HasSent(s.workers[step.w]) && (HasSent(p) ==> p.fate == s.workers[step.w].fate)
  {}

  lemma QuietAccounted(repos: seq<string>, q: string, s: State, t: State, w: nat, p: Phase)
    requires |repos| == |s.workers| && Accounted(repos, q, s) && At(s, w)
    requires t.workers == s.workers[w := p] && t.results == s.results && t.collected == s.collected
    requires HasSent(p) == HasSent(s.workers[w]) && (HasSent(p) ==> p.fate == s.workers[w].fate)
    ensures Accounted(repos, q, t)
  {
    QuietMove(repos, q, s.workers, w, p);
  }

  lemma AccountedMove(repos: seq<string>, q: string, s: State, step: Step)
    requires |repos| == |s.workers| && Accounted(repos, q, s) && Enabled(s, step) && Moves(step)
    ensures Accounted(repos, q, Apply(repos, q, s, step))
  {
    if step.Send? {
      SendAccounted(repos, q, s, step.w, s.workers[step.w].tags);
    } else {
      QuietEffect(repos, q, s, step);
      var t := Apply(repos, q, s, step);
      QuietAccounted(repos, q, s, t, step.w, t.workers[step.w]);
    }
  }

  lemma AccountedStep(repos: seq<string>, q: string, s: State, step: Step)
    requires |repos| == |s.workers| && Accounted(repos, q, s) && Enabled(s, step)
    ensures Accounted(repos, q, Apply(repos, q, s, step))
  {
    if Moves(step) {
      AccountedMove(repos, q, s, step);
    } else if step.CollectItems? {
      CollectAccounted(repos, q, s);
    }
  }

  /** The steps of a goroutine. */
  predicate Moves(step: Step) {
    !(step.CallerCancels? || step.Close? || step.CollectError? || step.CollectItems? || step.CollectClosed?
      || step.CollectDone?)
  }

  lemma FatesMove(workers: seq<Phase>, w: nat, p: Phase)
    requires w < |workers|
    ensures FetchBroke(p) ==> Broken(workers[w := p])
    ensures (FetchBroke(workers[w]) ==> FetchBroke(p)) && Broken(workers) ==> Broken(workers[w := p])
    ensures !FetchBroke(p) || FetchBroke(workers[w]) ==> Broken(workers[w := p]) ==> Broken(workers)
    ensures !LeftEarly(p) || LeftEarly(workers[w]) ==> SomeLeftEarly(workers[w := p]) ==> SomeLeftEarly(workers)
  {
    var moved := workers[w := p];
    assert moved[w] == p;
    if i :| 0 <= i < |workers| && FetchBroke(workers[i]) {
      assert i == w || moved[i] == workers[i];
    }
    if i :| 0 <= i < |workers| && FetchBroke(moved[i]) {
      assert i == w || moved[i] == workers[i];
    }
    if i :| 0 <= i < |workers| && LeftEarly(moved[i]) {
      assert i == w || moved[i] == workers[i];
    }
  }

  lemma CausesStep(repos: seq<string>, q: string, s: State, step: Step)
    requires |repos| == |s.workers| && Bounded(s) && Causes(s) && Enabled(s, step)
    ensures Causes(Apply(repos, q, s, step))
  {
    var t := Apply(repos, q, s, step);
    if Moves(step) {
      FatesMove(s.workers, step.w, t.workers[step.w]);
    }
  }

  lemma {:induction false} Reachable(repos: seq<string>, q: string, steps: seq<Step>)
    requires Run(repos, q, steps).Some?
    ensures Inv(repos, q, Run(repos, q, steps).value)
  {
    if steps == [] {
      InitInv(repos, q);
    } else {
      var most, step := steps[..|steps| - 1], steps[|steps| - 1];
      Reachable(repos, q, most);
      var s := Run(repos, q, most).value;
      BoundedStep(repos, q, s, step);
      AccountedStep(repos, q, s, step);
      CausesStep(repos, q, s, step);
    }
  }

  /** Some interleaving of the steps leads here. */
  ghost predicate Reaches(repos: seq<string>, q: string, s: State) {
    exists steps: seq<Step> :: Run(repos, q, steps) == Some(s)
  }

  lemma ReachesInv(repos: seq<string>, q: string, s: State)
    requires Reaches(repos, q, s)
    ensures Inv(repos, q, s)
  {
    var steps: seq<Step> :| Run(repos, q, steps) == Some(s);
    Reachable(repos, q, steps);
  }

  // ---------- Main results ----------

  /** Every reference of every repository, where tags[i] are the tags of repos[i]. */
  function AllRefs(repos: seq<string>, tags: seq<Tags>): multiset<string>
    requires |repos| == |tags|
  {
    Sum(RefList(repos, tags), |repos|)
  }

  function RefList(repos: seq<string>, tags: seq<Tags>): seq<multiset<string>>
    requires |repos| == |tags|
  {
    seq(|repos|, i requires 0 <= i < |repos| => multiset(Refs(repos[i], tags[i])))
  }

  /** Goroutine i fetched tags[i] and delivered them. */
  predicate AllDelivered(s: State, tags: seq<Tags>) {
    |tags| == |s.workers| && forall i | 0 <= i < |tags| :: s.workers[i] == Finished(Delivered(tags[i]))
  }

  lemma DeliveredRefs(repos: seq<string>, q: string, s: State, tags: seq<Tags>)
    requires |repos| == |s.workers| && AllDelivered(s, tags) && forall repo <- repos :: Contains(repo, q)
    ensures Shares(repos, q, s.workers) == AllRefs(repos, tags)
  {
    forall i | 0 <= i < |repos| ensures Share(repos[i], q, s.workers[i]) == multiset(Refs(repos[i], tags[i])) {
      SecondFilterDropsNothing(repos[i], tags[i], q);
    }
    assert ShareList(repos, q, s.workers) == RefList(repos, tags);
  }

  lemma EveryRepoDelivered(repos: seq<string>, q: string, s: State) returns (tags: seq<Tags>)
    requires Inv(repos, q, s) && s.answer.Listed? && !s.callerCancelled
    ensures AllDelivered(s, tags)
  {
    forall i | 0 <= i < |s.workers| ensures s.workers[i].Finished? && s.workers[i].fate.Delivered? {
      assert !FetchBroke(s.workers[i]) && !LeftEarly(s.workers[i]);
    }
    tags := seq(|s.workers|, i requires 0 <= i < |s.workers| => s.workers[i].fate.tags);
  }

  /**
   A call that answers without an error, and whose caller has not cancelled, has every fetch behind
   it and lists each wanted repository's every tag exactly as often as the registry answered it.
   */
  lemma ListingIsComplete(catalog: seq<string>, q: string, prefix: string, s: State)
    requires Reaches(Filtered(catalog, q, prefix), q, s) && s.answer.Listed? && !s.callerCancelled
    ensures var repos := Filtered(catalog, q, prefix);
            && |repos| == |s.workers|
            && exists tags: seq<Tags> :: AllDelivered(s, tags) && multiset(s.answer.candidates) == AllRefs(repos, tags)
  {
    var repos := Filtered(catalog, q, prefix);
    ReachesInv(repos, q, s);
    var tags := EveryRepoDelivered(repos, q, s);
    FilteredContain(catalog, q, prefix);
    DeliveredRefs(repos, q, s, tags);
    assert multiset(s.collected) + multiset{} == multiset(s.collected);
  }

  /** Without a cancelled caller, a call that has returned failed exactly when a fetch did. */
  lemma ErrorsHaveACause(repos: seq<string>, q: string, s: State)
    requires Reaches(repos, q, s) && !s.answer.Collecting? && !s.callerCancelled
    ensures s.answer.Refused? <==> Broken(s.workers)
  {
    ReachesInv(repos, q, s);
  }

  /** The goroutines that are fetching. */
  function Fetchers(s: State, n: nat): set<nat>
    requires n <= |s.workers|
  {
    set w: nat | w < n && s.workers[w].Fetching?
  }

  lemma {:induction false} FetchersHold(s: State, n: nat)
    requires n <= |s.workers|
    ensures |Fetchers(s, n)| <= Total(Held(s.workers), n)
  {
    if n > 0 {
      FetchersHold(s, n - 1);
      assert Fetchers(s, n) == Fetchers(s, n - 1) + if s.workers[n - 1].Fetching? then {n - 1} else {};
    }
  }

  /** At most eight goroutines fetch at once, in every reachable state. */
  lemma FetchesAreBounded(repos: seq<string>, q: string, s: State)
    requires Reaches(repos, q, s)
    ensures |Fetchers(s, |s.workers|)| <= 8
  {
    ReachesInv(repos, q, s);
    FetchersHold(s, |s.workers|);
  }

  // ---------- Progress ----------

  /** The call has returned, every goroutine has ended, and the channel is closed. */
  predicate Over(s: State) {
    !s.answer.Collecting? && s.closed
  }

  function Rank(p: Phase): nat {
    match p
    case Waiting => 6
    case Fetching => 5
    case Reporting => 4
    case Aborting => 3
    case Checking(_) => 4
    case Sending(_) => 3
    case Leaving(_) => 1
    case Finished(_) => 0
  }

  function Ranks(workers: seq<Phase>): seq<nat> {
    seq(|workers|, i requires 0 <= i < |workers| => Rank(workers[i]))
  }

  /** How many steps may still come. */
  function Fuel(s: State): nat {
    Total(Ranks(s.workers), |s.workers|) + |s.results| + (if s.closed then 0 else 1)
    + (if s.answer.Collecting? then 1 else 0) + (if s.callerCancelled then 0 else 1)
  }

  lemma FuelMove(workers: seq<Phase>, w: nat, p: Phase)
    requires w < |workers|
    ensures Total(Ranks(workers[w := p]), |workers|) + Rank(workers[w]) == Total(Ranks(workers), |workers|) + Rank(p)
  {
    TotalMove(Ranks(workers), w, Rank(p), |workers|);
    assert Ranks(workers[w := p]) == Ranks(workers)[w := Rank(p)];
  }

  /** A step of a goroutine lowers its rank, and by two if it adds to the results. */
  lemma MoveEffect(repos: seq<string>, q: string, s: State, step: Step)
    requires |repos| == |s.workers| && Enabled(s, step) && Moves(step)
    ensures At(s, step.w)
    ensures var t := Apply(repos, q, s, step);
            && t.workers == s.workers[step.w := t.workers[step.w]]
            && t.closed == s.closed && t.answer == s.answer && t.callerCancelled == s.callerCancelled
            && |t.results| + Rank(t.workers[step.w]) < |s.results| + Rank(s.workers[step.w])
  {}

  lemma FuelStep(repos: seq<string>, q: string, s: State, step: Step)
    requires |repos| == |s.workers| && Enabled(s, step)
    ensures Fuel(Apply(repos, q, s, step)) < Fuel(s)
  {
    if Moves(step) {
      MoveEffect(repos, q, s, step);
      FuelMove(s.workers, step.w, Apply(repos, q, s, step).workers[step.w]);
    }
  }

  lemma {:induction false} InitFuel(n: nat, k: nat)
    requires k <= n
    ensures Total(Ranks(Init(n).workers), k) == 6 * k
  {
    if k > 0 {
      InitFuel(n, k - 1);
    }
  }

  /** A call with n repositories is over after at most 6n + 3 steps, however they interleave. */
  lemma {:induction false} CallsEnd(repos: seq<string>, q: string, steps: seq<Step>)
    requires Run(repos, q, steps).Some?
    ensures |steps| + Fuel(Run(repos, q, steps).value) <= 6 * |repos| + 3
  {
    if steps == [] {
      InitFuel(|repos|, |repos|);
    } else {
      var most := steps[..|steps| - 1];
      CallsEnd(repos, q, most);
      FuelStep(repos, q, Run(repos, q, most).value, steps[|steps| - 1]);
    }
  }

  lemma {:induction false} SomeoneHolds(workers: seq<Phase>, n: nat) returns (w: nat)
    requires n <= |workers|
    requires Total(Held(workers), n) > 0
    ensures w < |workers| && Holds(workers[w])
  {
    if Holds(workers[n - 1]) {
      w := n - 1;
    } else {
      w := SomeoneHolds(workers, n - 1);
    }
  }

  lemma {:induction false} HoldersCount(workers: seq<Phase>, w: nat, n: nat)
    requires w < n <= |workers| && Holds(workers[w])
    ensures Total(Held(workers), n) > 0
  {
    if w < n - 1 {
      HoldersCount(workers, w, n - 1);
    }
  }

  /** A goroutine that holds a place can move, or the collector can. */
  lemma HolderMoves(repos: seq<string>, q: string, s: State, w: nat) returns (step: Step)
    requires Inv(repos, q, s) && At(s, w) && Holds(s.workers[w])
    ensures Enabled(s, step) && !step.CallerCancels?
  {
    HoldersCount(s.workers, w, |s.workers|);
    match s.workers[w]
    case Fetching => step := Fetch(w, None);
    case Reporting => step := Report(w);
    case Aborting => step := CancelAll(w);
    case Checking(_) => step := if s.done then SeeDone(w) else GoOn(w);
    case Sending(_) => step := if |s.results| < RESULTS_BUFFER then Send(w) else if s.done then SeeDone(w)
      else CollectItems;
    case Leaving(_) => step := Leave(w);
  }

  /** No reachable state is stuck before the call is over, whether or not the caller cancels. */
  lemma NeverStuck(repos: seq<string>, q: string, s: State) returns (step: Step)
    requires Reaches(repos, q, s) && !Over(s)
    ensures Enabled(s, step) && !step.CallerCancels?
  {
    ReachesInv(repos, q, s);
    if w :| 0 <= w < |s.workers| && !s.workers[w].Finished? {
      if s.places > 0 {
        var holder := SomeoneHolds(s.workers, |s.workers|);
        step := HolderMoves(repos, q, s, holder);
      } else if Holds(s.workers[w]) {
        step := HolderMoves(repos, q, s, w);
      } else {
        step := TakePlace(w);
      }
    } else {
      step := if !s.closed then Close else if s.results != [] then CollectItems else CollectClosed;
    }
  }

  // ---------- When the caller cancels ----------

  /** A listing always consists of what was delivered, and only a cancelled caller is given less than everything. */
  lemma ListingIsWhatWasDelivered(repos: seq<string>, q: string, s: State)
    requires Reaches(repos, q, s) && s.answer.Listed?
    ensures && multiset(s.answer.candidates) == Shares(repos, q, s.workers)
            && (forall i | 0 <= i < |repos| :: s.workers[i].Finished? && !s.workers[i].fate.FetchFailed?)
            && (SomeLeftEarly(s.workers) ==> s.callerCancelled)
  {
    ReachesInv(repos, q, s);
    forall i | 0 <= i < |repos| ensures s.workers[i].Finished? && !s.workers[i].fate.FetchFailed? {
      assert !FetchBroke(s.workers[i]);
    }
    assert multiset(s.collected) + multiset{} == multiset(s.collected);
  }

  /**
   The goroutines that delivered were answered tags[i] by the registry;
   what the others would have been answered is free.
   */
  predicate Answered(s: State, tags: seq<Tags>) {
    && |tags| == |s.workers|
    && forall i | 0 <= i < |tags| :: HasSent(s.workers[i]) ==> s.workers[i].fate.tags == tags[i]
  }

  /** Sums of parts that are each no more than the other's agree only where every part does. */
  lemma {:induction false} SumsAgreeIff(a: seq<multiset<string>>, b: seq<multiset<string>>, n: nat)
    requires n <= |a| == |b| && forall i | 0 <= i < n :: a[i] <= b[i]
    ensures Sum(a, n) <= Sum(b, n)
    ensures Sum(a, n) == Sum(b, n) <==> forall i | 0 <= i < n :: a[i] == b[i]
  {
    if n > 0 {
      SumsAgreeIff(a, b, n - 1);
      BothAgree(Sum(a, n - 1), Sum(b, n - 1), a[n - 1], b[n - 1]);
    }
  }

  lemma BothAgree(a: multiset<string>, b: multiset<string>, x: multiset<string>, y: multiset<string>)
    requires a <= b && x <= y
    ensures a + x == b + y <==> a == b && x == y
  {
    if a + x == b + y {
      forall k ensures a[k] == b[k] && x[k] == y[k] {
        assert (a + x)[k] == (b + y)[k];
      }
    }
  }

  /** A finished goroutine's share is its repository's references, or nothing if it left early. */
  lemma ShareOrNothing(repo: string, q: string, p: Phase, tags: Tags)
    requires Contains(repo, q) && p.Finished? && !p.fate.FetchFailed? && (HasSent(p) ==> p.fate.tags == tags)
    ensures Share(repo, q, p) == if LeftEarly(p) then multiset{} else multiset(Refs(repo, tags))
    ensures Share(repo, q, p) <= multiset(Refs(repo, tags))
    ensures Share(repo, q, p) == multiset(Refs(repo, tags)) <==> LeftEarly(p) ==> tags == []
  {
    SecondFilterDropsNothing(repo, tags, q);
    assert |multiset(Refs(repo, tags))| == |tags|;
  }

  /**
   Whoever cancels: a listing without an error is all references exactly when every goroutine that
   left early had no tags to bring; where every repository has a tag, exactly when none left early.
   */
  lemma ListingIsCompleteIff(catalog: seq<string>, q: string, prefix: string, s: State, tags: seq<Tags>)
    requires Reaches(Filtered(catalog, q, prefix), q, s) && s.answer.Listed? && Answered(s, tags)
    ensures var repos := Filtered(catalog, q, prefix);
            && |repos| == |tags|
            && (multiset(s.answer.candidates) == AllRefs(repos, tags)
                <==> forall i | 0 <= i < |tags| :: LeftEarly(s.workers[i]) ==> tags[i] == [])
            && ((forall i | 0 <= i < |tags| :: tags[i] != []) ==>
                  (multiset(s.answer.candidates) == AllRefs(repos, tags) <==> !SomeLeftEarly(s.workers)))
  {
    var repos := Filtered(catalog, q, prefix);
    ReachesInv(repos, q, s);
    ListingIsWhatWasDelivered(repos, q, s);
    FilteredContain(catalog, q, prefix);
    SharesAreAllIff(repos, q, s, tags);
  }

  lemma FilteredContain(catalog: seq<string>, q: string, prefix: string)
    ensures forall repo <- Filtered(catalog, q, prefix) :: Contains(repo, q)
  {
    FilteredCounts(catalog, q, prefix);
    forall repo | repo in Filtered(catalog, q, prefix) ensures Contains(repo, q) {
      assert multiset(Filtered(catalog, q, prefix))[repo] > 0;
    }
  }

  lemma SharesAreAllIff(repos: seq<string>, q: string, s: State, tags: seq<Tags>)
    requires |repos| == |s.workers| && Answered(s, tags) && forall repo <- repos :: Contains(repo, q)
    requires forall i | 0 <= i < |repos| :: s.workers[i].Finished? && !s.workers[i].fate.FetchFailed?
    ensures Shares(repos, q, s.workers) == AllRefs(repos, tags)
            <==> forall i | 0 <= i < |tags| :: LeftEarly(s.workers[i]) ==> tags[i] == []
  {
    var shares, refs := ShareList(repos, q, s.workers), RefList(repos, tags);
    forall i | 0 <= i < |repos| ensures shares[i] <= refs[i]
      && (shares[i] == refs[i] <==> LeftEarly(s.workers[i]) ==> tags[i] == []) {
      ShareOrNothing(repos[i], q, s.workers[i], tags[i]);
    }
    SumsAgreeIff(shares, refs, |repos|);
  }

  /** The caller has cancelled, and the first k goroutines have seen it. */
  function Cancelled(n: nat, k: nat): State {
    State(seq(n, i => if i < k then Finished(GaveUp) else Waiting), 0, [], false, 0, true, true, [], Collecting)
  }

  lemma {:induction false} AllSeeTheCancel(repos: seq<string>, q: string, k: nat) returns (steps: seq<Step>)
    requires k <= |repos|
    ensures Run(repos, q, steps) == Some(Cancelled(|repos|, k))
  {
    if k == 0 {
      steps := [] + [CallerCancels];
      assert Run(repos, q, []) == Some(Init(|repos|));
      RunNext(repos, q, [], Init(|repos|), CallerCancels);
      assert Cancelled(|repos|, 0).workers == Init(|repos|).workers;
    } else {
      steps := AllSeeTheCancel(repos, q, k - 1);
      var s := Cancelled(|repos|, k - 1);
      RunNext(repos, q, steps, s, SeeDone(k - 1));
      assert Cancelled(|repos|, k).workers == s.workers[k - 1 := Finished(GaveUp)];
      steps := steps + [SeeDone(k - 1)];
    }
  }

  /**
   Whatever there is to list, a caller that cancels can get an empty
   listing and no error, every goroutine having left early.
   */
  lemma CancelledListingCanBeEmpty(repos: seq<string>, q: string) returns (s: State)
    ensures Reaches(repos, q, s) && s.answer == Listed([])
    ensures |s.workers| == |repos| && forall i | 0 <= i < |repos| :: LeftEarly(s.workers[i])
    ensures repos != [] ==> SomeLeftEarly(s.workers)
  {
    var steps := AllSeeTheCancel(repos, q, |repos|);
    var s0 := Cancelled(|repos|, |repos|);
    RunNext(repos, q, steps, s0, Close);
    var s1 := s0.(closed := true);
    RunNext(repos, q, steps + [Close], s1, CollectClosed);
    s := s1.(answer := Listed([]));
    if repos != [] {
      assert LeftEarly(s.workers[0]);
    }
  }

  /** So every call with something to list can be answered with too little, and no error. */
  lemma CancelledListingCanBeIncomplete(catalog: seq<string>, q: string, prefix: string, tags: seq<Tags>)
    returns (s: State)
    requires var repos := Filtered(catalog, q, prefix);
             |tags| == |repos| && exists i :: 0 <= i < |repos| && tags[i] != []
    ensures var repos := Filtered(catalog, q, prefix);
            Reaches(repos, q, s) && s.answer.Listed? && Answered(s, tags)
              && multiset(s.answer.candidates) != AllRefs(repos, tags)
  {
    s := CancelledListingCanBeEmpty(Filtered(catalog, q, prefix), q);
    ListingIsCompleteIff(catalog, q, prefix, s, tags);
  }

  lemma RunNext(repos: seq<string>, q: string, steps: seq<Step>, s: State, step: Step)
    requires Run(repos, q, steps) == Some(s) && Enabled(s, step)
    ensures Run(repos, q, steps + [step]) == Some(Apply(repos, q, s, step))
  {
    assert (steps + [step])[..|steps|] == steps;
  }
}
