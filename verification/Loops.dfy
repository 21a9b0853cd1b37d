/** How the two loops of the scheduler go through the lists they have read, whatever happens in between. */
module Loops {
  import opened Lifecycle
  import opened SlotProgress

  function Scans(acts: seq<Action>): nat {
    if acts == [] then 0 else (if acts[0].ScanJob? then 1 else 0) + Scans(acts[1..])
  }

  function Spawns(acts: seq<Action>): nat {
    if acts == [] then 0 else (if acts[0].Spawn? then 1 else 0) + Spawns(acts[1..])
  }

  lemma ScanStep(s: System, a: Action)
    requires Enabled(s, a) && s.scan.Scan? && s.scan.due != [] && !a.Crash?
    requires a.ScanJob? ==> |s.scan.due| > 1
    ensures Apply(s, a).scan == Scan(s.scan.now, if a.ScanJob? then s.scan.due[1..] else s.scan.due)
  {
    if !a.ScanJob? {
      ScanUntouched(s, a);
      NoScanByCrash(s, a);
    }
  }

  lemma NoScanByCrash(s: System, a: Action)
    requires Enabled(s, a) && s.scan.Scan? && !a.ScanJob? && !a.Crash?
    ensures Apply(s, a).scan.Scan?
  {}

  /**
   The due-job loop takes the jobs in the order of its list, each once and all with the clock reading
   of the list, also when transactions fail: after k turns the first k are gone from the list.
   */
  lemma {:induction false} ScanTakesEach(s: System, acts: seq<Action>)
    requires s.scan.Scan? && Scans(acts) < |s.scan.due| && Exec(s, acts).Some?
    requires forall i | 0 <= i < |acts| :: !acts[i].Crash?
    ensures Exec(s, acts).value.scan == Scan(s.scan.now, s.scan.due[Scans(acts)..])
    decreases |acts|
  {
    if acts != [] {
      ScanStep(s, acts[0]);
      ScanTakesEach(Apply(s, acts[0]), acts[1..]);
    }
  }

  lemma RoundStep(s: System, a: Action)
    requires Enabled(s, a) && s.dispatcher.Round? && s.dispatcher.left != [] && !a.Crash? && !a.StopRound?
    requires a.Spawn? ==> |s.dispatcher.left| > 1
    ensures Apply(s, a).dispatcher == if a.Spawn? then Round(s.dispatcher.left[1..]) else s.dispatcher
  {}

  /** A round starts a worker for each run of its list, in order, unless its context ends. */
  lemma {:induction false} RoundTakesEach(s: System, acts: seq<Action>)
    requires s.dispatcher.Round? && Spawns(acts) < |s.dispatcher.left| && Exec(s, acts).Some?
    requires forall i | 0 <= i < |acts| :: !acts[i].Crash? && !acts[i].StopRound?
    ensures var s' := Exec(s, acts).value;
            && s'.dispatcher == Round(s.dispatcher.left[Spawns(acts)..])
            && forall w | Enabled(s', Spawn(w)) ::
                 Apply(s', Spawn(w)).workers == s'.workers[w := Worker(s.dispatcher.left[Spawns(acts)], Spawned)]
    decreases |acts|
  {
    if acts != [] {
      RoundStep(s, acts[0]);
      RoundTakesEach(Apply(s, acts[0]), acts[1..]);
    }
  }
}
