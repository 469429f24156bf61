/**
 The executor on the walker (Execute, internal/execution/execute.go): a run of the walk next to
 the state that the callbacks share. Nothing is taken for granted but that each callback that
 was started as it requires keeps its promise, for as long as all others do.
 */
module BuildWalks {
  import opened Labels
  import opened Digraphs
  import opened Walkers
  import E = Executors
  import opened Results
  import Reruns

  /** What a build is about, and how far its infrastructure can be relied on. */
  datatype Setting = Setting(w: E.World, settings: E.Settings, cold: map<TargetLabel, E.Cold>) {
    ghost predicate Valid() {
      w.Valid() && E.IsCold(w, cold)
    }

    ghost predicate Sound(s: E.Snapshot) {
      E.Sound(w, cold, settings.reliable, s)
    }

    ghost predicate Later(a: E.Snapshot, b: E.Snapshot) {
      E.Later(w, cold, settings.reliable, a, b)
    }

    predicate IsTarget(n: TargetLabel) {
      n in w.dependencies
    }
  }

  predicate Starts(s: Walk, s': Walk, n: TargetLabel) {
    n !in s.calls && n in s'.calls
  }

  /** Every callback that has been started finds what it requires. */
  ghost predicate AllMet(b: Setting, s: Walk, st: E.Snapshot) {
    forall n {:trigger Met(b, s, st, n)} :: Met(b, s, st, n)
  }

  ghost predicate Met(b: Setting, s: Walk, st: E.Snapshot, n: TargetLabel) {
    n in s.calls && b.IsTarget(n) ==> E.DependenciesCompleted(b.w, b.settings.minimal, st.st, n)
  }

  ghost predicate GoodAt(b: Setting, run: seq<Walk>, states: seq<E.Snapshot>, k: int)
    requires |states| == |run|
  {
    0 <= k < |run| ==> b.Sound(states[k]) && AllMet(b, run[k], states[k])
  }

  ghost predicate GoodUpTo(b: Setting, run: seq<Walk>, states: seq<E.Snapshot>, i: int)
    requires |states| == |run|
  {
    forall k {:trigger GoodAt(b, run, states, k)} :: k <= i ==> GoodAt(b, run, states, k)
  }

  /**
   The callback of a target, between its start and its return: some result that WalkCallback
   ensures. A wait for another task's re-run ends with that re-run's report, so the result is
   never that a wait was cut short (RerunsSucceed).
   */
  ghost predicate Keeps(b: Setting, a: E.Snapshot, z: E.Snapshot, n: TargetLabel, outcome: Outcome) {
    exists result: E.CacheResult, failure: Option<E.Failure> :: KeepsWith(b, a, z, n, outcome, result, failure)
  }

  ghost predicate KeepsWith(b: Setting, a: E.Snapshot, z: E.Snapshot, n: TargetLabel, outcome: Outcome,
                            result: E.CacheResult, failure: Option<E.Failure>)
  {
    && (outcome.Succeeded? <==> failure == None) && failure != Some(E.LeaderUnfinished)
    && (outcome.Succeeded? ==> (outcome.hit <==> result == E.CacheHit))
    && E.CallbackKeeps(b.w, b.settings, b.cold, a, z, n, result, failure)
  }

  /** Nodes other than targets complete trivially. */
  ghost predicate ReturnKept(c: Config, b: Setting, run: seq<Walk>, states: seq<E.Snapshot>, j: int, i: int,
                             n: TargetLabel, outcome: Outcome)
    requires |states| == |run|
  {
    0 <= j < i < |run| - 1 && Starts(run[j], run[j + 1], n)
    && Takes(c, run, i, Return(n, outcome)) && outcome != Interrupted ==>
      if b.IsTarget(n) then Keeps(b, states[j + 1], states[i + 1], n, outcome) else outcome == Succeeded(true)
  }

  /** Only the running callback of a target starts its command. */
  ghost predicate StartsHeld(s: Walk, n: TargetLabel, a: E.Snapshot, z: E.Snapshot) {
    !(n in s.routine && s.routine[n] == Running) ==> E.SameCount(a.starts, z.starts, n)
  }

  /** As long as all callbacks were started as they require, they keep what they promise. */
  ghost predicate Follows(c: Config, b: Setting, run: seq<Walk>, states: seq<E.Snapshot>, i: int)
    requires |states| == |run|
  {
    0 <= i < |run| - 1 && GoodUpTo(b, run, states, i) ==>
      && b.Later(states[i], states[i + 1])
      && (forall n {:trigger StartsHeld(run[i], n, states[i], states[i + 1])} ::
            StartsHeld(run[i], n, states[i], states[i + 1]))
      && forall j, n, outcome {:trigger ReturnKept(c, b, run, states, j, i, n, outcome)} ::
           ReturnKept(c, b, run, states, j, i, n, outcome)
  }

  /** A walk of the build's graph, next to the states that the callbacks of an executor go through. */
  ghost predicate IsBuild(c: Config, b: Setting, run: seq<Walk>, states: seq<E.Snapshot>) {
    && c.Valid() && b.Valid() && c.g == b.w.g
    && IsRun(c, run) && |states| == |run|
    && b.Sound(states[0]) && states[0].starts.Keys == b.w.dependencies.Keys
    && forall i {:trigger Follows(c, b, run, states, i)} :: Follows(c, b, run, states, i)
  }

  // Results come from callbacks -------------------------------------------------------------

  /** The walker has the result of `n`, recorded or about to be. */
  predicate HasResult(s: Walk, n: TargetLabel, r: Completion) {
    (n in s.completions && s.completions[n] == r) || (n in s.routine && s.routine[n] == Returned(r))
  }

  predicate Means(outcome: Outcome, r: Completion) {
    match outcome
    case Succeeded(hit) => r == Success(hit)
    case Failed => r == Failure
    case Interrupted => false
  }

  lemma ResultFromCallback(c: Config, s: Walk, s': Walk, n: TargetLabel, r: Completion) returns (outcome: Outcome)
    requires Next(c, s, s') && HasResult(s', n, r) && !HasResult(s, n, r)
    ensures Means(outcome, r) && Enabled(c, s, Return(n, outcome)) && s' == Apply(c, s, Return(n, outcome))
  {
    var step :| Enabled(c, s, step) && s' == Apply(c, s, step);
    if step.Return? {
      outcome := step.outcome;
    } else if step.Record? {
      ResultRecorded(c, s, step.n, step.descendants, n, r);
      assert false;
    } else if step.SendNext? || step.CancelOne? {
      ResultSent(c, s, step, n, r);
      assert false;
    } else {
      ResultElsewhere(c, s, step, n, r);
      assert false;
    }
  }

  lemma ResultElsewhere(c: Config, s: Walk, step: Step, n: TargetLabel, r: Completion)
    requires Enabled(c, s, step) && HasResult(Apply(c, s, step), n, r)
    requires !step.Record? && !step.Return? && !step.SendNext? && !step.CancelOne?
    ensures HasResult(s, n, r)
  {
  }

  lemma ResultRecorded(c: Config, s: Walk, m: TargetLabel, descendants: seq<TargetLabel>, n: TargetLabel, r: Completion)
    requires Enabled(c, s, Record(m, descendants)) && HasResult(Apply(c, s, Record(m, descendants)), n, r)
    ensures HasResult(s, n, r)
  {
  }

  lemma ResultSent(c: Config, s: Walk, step: Step, n: TargetLabel, r: Completion)
    requires Enabled(c, s, step) && HasResult(Apply(c, s, step), n, r) && (step.SendNext? || step.CancelOne?)
    ensures HasResult(s, n, r)
  {
  }

  /** Whatever has been started was started by some step before. */
  lemma {:induction false} StartOf(c: Config, run: seq<Walk>, i: nat, n: TargetLabel) returns (j: nat)
    requires IsRun(c, run) && i < |run| && n in run[i].calls
    ensures j < i && Starts(run[j], run[j + 1], n)
  {
    if n in run[i - 1].calls {
      j := StartOf(c, run, i - 1, n);
    } else {
      j := i - 1;
    }
  }

  // What holds at every position --------------------------------------------------------------

  ghost predicate ResultOk(b: Setting, first: E.Snapshot, s: E.Snapshot, n: TargetLabel, r: Completion) {
    match r
    case Success(hit) =>
      b.IsTarget(n) ==>
        && E.Completed(b.settings.minimal, s.st, n)
        && (!b.settings.asyncWrites ==> E.Published(b.cold, s.cache, n))
        && (b.settings.reliable && n in first.tainted ==> n in s.executed)
        && n in first.starts && n in s.starts && s.starts[n] == first.starts[n] + (if hit then 0 else 1)
        && (b.settings.reliable && b.settings.intact && E.Published(b.cold, first.cache, n) && n !in first.tainted ==>
              hit)
    case Failure =>
      && b.IsTarget(n) && (b.settings.reliable ==> n in b.cold && b.cold[n].output == "")
      && n in first.starts && n in s.starts && s.starts[n] <= first.starts[n] + 1
  }

  lemma ResultStays(b: Setting, first: E.Snapshot, s: E.Snapshot, s': E.Snapshot, n: TargetLabel, r: Completion)
    requires ResultOk(b, first, s, n, r) && b.Later(s, s') && E.SameCount(s.starts, s'.starts, n)
    ensures ResultOk(b, first, s', n, r)
  {
    if r.Success? && b.IsTarget(n) {
      assert E.GrownAt(s.st, s'.st, n);
    }
  }

  ghost predicate ResultsOk(b: Setting, first: E.Snapshot, walk: Walk, s: E.Snapshot) {
    forall n, r {:trigger ResultOk(b, first, s, n, r)} :: HasResult(walk, n, r) ==> ResultOk(b, first, s, n, r)
  }

  /** Entries stay, a taint of the start goes away only with an execution, and only callbacks start commands. */
  ghost predicate MarksFrom(first: E.Snapshot, walk: Walk, s: E.Snapshot) {
    && first.cache.Keys <= s.cache.Keys && s.tainted <= first.tainted <= s.tainted + s.executed
    && s.starts.Keys == first.starts.Keys
    && forall n {:trigger E.SameCount(first.starts, s.starts, n)} ::
         n !in walk.calls ==> E.SameCount(first.starts, s.starts, n)
  }

  lemma MarksStay(c: Config, b: Setting, run: seq<Walk>, states: seq<E.Snapshot>, i: nat)
    requires IsBuild(c, b, run, states) && i + 1 < |run| && GoodUpTo(b, run, states, i)
    requires MarksFrom(states[0], run[i], states[i])
    ensures MarksFrom(states[0], run[i + 1], states[i + 1]) && b.Sound(states[i + 1])
  {
    assert Follows(c, b, run, states, i);
    RunInv(c, run, i);
    assert StepTaken(c, run, i);
    CallsGrow(c, run[i], run[i + 1]);
    var calls, first, before, after := run[i + 1].calls, states[0].starts, states[i].starts, states[i + 1].starts;
    forall n | n !in calls ensures E.SameCount(first, after, n) {
      assert StartsHeld(run[i], n, states[i], states[i + 1]);
      assert E.SameCount(first, before, n);
    }
  }

  lemma CallsGrow(c: Config, s: Walk, s': Walk)
    requires Next(c, s, s')
    ensures forall n :: n in s.calls ==> n in s'.calls
  {
    var step :| Enabled(c, s, step) && s' == Apply(c, s, step);
    if step.Record? || step.SendNext? || step.CancelOne? {
      CallsSame(c, s, step);
    }
  }

  lemma CallsSame(c: Config, s: Walk, step: Step)
    requires Enabled(c, s, step) && (step.Record? || step.SendNext? || step.CancelOne?)
    ensures Apply(c, s, step).calls == s.calls
  {
  }

  /** A callback that keeps its promise gives a result of this kind. */
  lemma KeptResult(b: Setting, first: E.Snapshot, walk: Walk, a: E.Snapshot, z: E.Snapshot, n: TargetLabel,
                   outcome: Outcome, r: Completion)
    requires b.Valid() && b.IsTarget(n) && Keeps(b, a, z, n, outcome) && Means(outcome, r)
    requires MarksFrom(first, walk, a) && n in first.starts && E.SameCount(first.starts, a.starts, n)
    ensures ResultOk(b, first, z, n, r)
  {
    var result: E.CacheResult, failure: Option<E.Failure> :| KeepsWith(b, a, z, n, outcome, result, failure);
  }

  lemma NewResult(c: Config, b: Setting, run: seq<Walk>, states: seq<E.Snapshot>, i: nat, n: TargetLabel,
                  outcome: Outcome, r: Completion)
    requires IsBuild(c, b, run, states) && i + 1 < |run| && GoodUpTo(b, run, states, i)
    requires forall k {:trigger states[k]} :: 0 <= k <= i ==> MarksFrom(states[0], run[k], states[k])
    requires Takes(c, run, i, Return(n, outcome)) && Means(outcome, r)
    ensures ResultOk(b, states[0], states[i + 1], n, r)
  {
    RunInv(c, run, i);
    var j := StartOf(c, run, i, n);
    assert Follows(c, b, run, states, i) && ReturnKept(c, b, run, states, j, i, n, outcome);
    if b.IsTarget(n) {
      StartedFresh(c, b, run, states, j, n);
      KeptResult(b, states[0], run[j + 1], states[j + 1], states[i + 1], n, outcome, r);
    }
  }

  /** When the callback of `n` starts, its command has not been started yet. */
  lemma StartedFresh(c: Config, b: Setting, run: seq<Walk>, states: seq<E.Snapshot>, j: nat, n: TargetLabel)
    requires IsBuild(c, b, run, states) && j + 1 < |run| && GoodUpTo(b, run, states, j)
    requires MarksFrom(states[0], run[j], states[j]) && Starts(run[j], run[j + 1], n)
    ensures E.SameCount(states[0].starts, states[j + 1].starts, n)
  {
    RunInv(c, run, j);
    assert Follows(c, b, run, states, j) && StartsHeld(run[j], n, states[j], states[j + 1]);
    assert E.SameCount(states[0].starts, states[j].starts, n);
  }

  /** The starts of the walk meet what they require if its results are right. */
  lemma StartsMet(c: Config, b: Setting, run: seq<Walk>, states: seq<E.Snapshot>, i: nat)
    requires c.Valid() && b.Valid() && c.g == b.w.g && IsRun(c, run) && |states| == |run| && i < |run|
    requires ResultsOk(b, states[0], run[i], states[i])
    ensures AllMet(b, run[i], states[i])
  {
    WalkSafety(c, run, i);
    forall n ensures Met(b, run[i], states[i], n) {
      if n in run[i].calls && b.IsTarget(n) {
        forall d | d in b.w.dependencies[n] ensures E.Completed(b.settings.minimal, states[i].st, d) {
          EdgeReaches(c.g, d, n);
          var r := run[i].completions[d];
          assert HasResult(run[i], d, r) && ResultOk(b, states[0], states[i], d, r);
        }
      }
    }
  }

  lemma NotRunning(c: Config, run: seq<Walk>, i: nat, n: TargetLabel, r: Completion)
    requires c.Valid() && IsRun(c, run) && i < |run| && HasResult(run[i], n, r)
    ensures n in run[i].routine ==> run[i].routine[n] != Running
  {
    RunInv(c, run, i);
  }

  lemma ResultAt(c: Config, b: Setting, run: seq<Walk>, states: seq<E.Snapshot>, i: nat, n: TargetLabel, r: Completion)
    requires IsBuild(c, b, run, states) && i + 1 < |run|
    requires GoodUpTo(b, run, states, i) && ResultsOk(b, states[0], run[i], states[i])
    requires forall k {:trigger states[k]} :: 0 <= k <= i ==> MarksFrom(states[0], run[k], states[k])
    requires HasResult(run[i + 1], n, r)
    ensures ResultOk(b, states[0], states[i + 1], n, r)
  {
    assert StepTaken(c, run, i) && Follows(c, b, run, states, i);
    if HasResult(run[i], n, r) {
      NotRunning(c, run, i, n, r);
      assert StartsHeld(run[i], n, states[i], states[i + 1]) && ResultOk(b, states[0], states[i], n, r);
      ResultStays(b, states[0], states[i], states[i + 1], n, r);
    } else {
      var outcome := ResultFromCallback(c, run[i], run[i + 1], n, r);
      NewResult(c, b, run, states, i, n, outcome, r);
    }
  }

  lemma {:induction false} AllGood(c: Config, b: Setting, run: seq<Walk>, states: seq<E.Snapshot>, i: nat)
    requires IsBuild(c, b, run, states) && i < |run|
    ensures GoodUpTo(b, run, states, i) && ResultsOk(b, states[0], run[i], states[i])
    ensures forall k {:trigger states[k]} :: 0 <= k <= i ==> MarksFrom(states[0], run[k], states[k])
  {
    if i > 0 {
      AllGood(c, b, run, states, i - 1);
      MarksStay(c, b, run, states, i - 1);
      forall n, r | HasResult(run[i], n, r) ensures ResultOk(b, states[0], states[i], n, r) {
        ResultAt(c, b, run, states, i - 1, n, r);
      }
    }
    StartsMet(c, b, run, states, i);
    forall k | k <= i ensures GoodAt(b, run, states, k) {
      assert k < i ==> GoodAt(b, run, states, k);
    }
  }

  // Main results --------------------------------------------------------------------------

  /**
   At every moment of every interleaving of the walk and of the callbacks' steps, from any
   honest entries and taints: a callback that has been started finds what it requires; a
   recorded success has the hashes of a build from scratch, and is recorded as a hit exactly if
   no command was started for it; a recorded failure on reliable infrastructure is that of the
   target's own command; the entries are honest, and no dependency has been re-run successfully
   more than once.
   */
  lemma BuildMatchesCold(c: Config, b: Setting, run: seq<Walk>, states: seq<E.Snapshot>, i: nat, n: TargetLabel)
    requires IsBuild(c, b, run, states) && i < |run| && b.IsTarget(n)
    ensures n in run[i].calls ==> E.DependenciesCompleted(b.w, b.settings.minimal, states[i].st, n)
    ensures run[i].CompletedOk(n) ==>
              && E.MatchesCold(b.cold, states[i].st, n) && E.Completed(b.settings.minimal, states[i].st, n)
              && (!b.settings.asyncWrites ==> E.Published(b.cold, states[i].cache, n))
              && (b.settings.reliable && n in states[0].tainted ==> n in states[i].executed)
    ensures n in run[i].completions ==> n in states[0].starts && n in states[i].starts
    ensures run[i].CompletedOk(n) ==>
              states[i].starts[n] == states[0].starts[n] + (if run[i].completions[n].hit then 0 else 1)
    ensures run[i].CompletedOk(n) && b.settings.reliable && b.settings.intact
              && E.Published(b.cold, states[0].cache, n) && n !in states[0].tainted ==>
              run[i].completions[n].hit
    ensures run[i].CompletedBadly(n) ==> states[i].starts[n] <= states[0].starts[n] + 1
    ensures run[i].CompletedBadly(n) && b.settings.reliable ==> n in b.cold && b.cold[n].output == ""
    ensures E.HonestCache(b.w, states[i].cache) && E.RerunsOk(states[i].st, states[i].reruns)
  {
    AllGood(c, b, run, states, i);
    assert GoodAt(b, run, states, i) && Met(b, run[i], states[i], n);
    if n in run[i].completions {
      assert ResultOk(b, states[0], states[i], n, run[i].completions[n]);
      assert E.StateOk(b.w, b.cold, states[i].st, n);
    }
  }

  /** The commands of the target and of all targets that it transitively depends on succeed. */
  ghost predicate SucceedsThrough(b: Setting, n: TargetLabel)
    requires b.Valid()
  {
    forall a :: b.IsTarget(a) && (a == n || Reaches(b.w.g, a, n)) ==> b.cold[a].output != ""
  }

  /**
   A walk on reliable infrastructure that has ended uncancelled has completed exactly the
   selected targets whose own and whose dependencies' commands all succeed.
   */
  lemma BuildOutcome(c: Config, b: Setting, run: seq<Walk>, states: seq<E.Snapshot>, n: TargetLabel)
    requires IsBuild(c, b, run, states) && c.DependencyClosed() && b.settings.reliable
    requires Final(run[|run| - 1]) && !run[|run| - 1].contextCancelled
    requires n in c.selected && b.IsTarget(n)
    ensures run[|run| - 1].CompletedOk(n) <==> SucceedsThrough(b, n)
  {
    var last := |run| - 1;
    var s := run[last];
    WalkSafety(c, run, last);
    WalkOutcome(c, run);
    if s.CompletedOk(n) {
      forall a | b.IsTarget(a) && (a == n || Reaches(b.w.g, a, n)) ensures b.cold[a].output != "" {
        BuildMatchesCold(c, b, run, states, last, a);
      }
    } else {
      var a := n;
      if n !in s.completions {
        a :| s.CompletedBadly(a) && Reaches(c.g, a, n);
      }
      FailureIsTarget(c, b, run, states, last, a);
      BuildMatchesCold(c, b, run, states, last, a);
    }
  }

  lemma FailureIsTarget(c: Config, b: Setting, run: seq<Walk>, states: seq<E.Snapshot>, i: nat, n: TargetLabel)
    requires IsBuild(c, b, run, states) && i < |run| && run[i].CompletedBadly(n)
    ensures b.IsTarget(n)
  {
    AllGood(c, b, run, states, i);
    assert ResultOk(b, states[0], states[i], n, Failure);
  }

  /** Without aliases and resources these are the targets that a build from scratch gets to. */
  lemma {:induction false} ThroughIsSucceeds(b: Setting, n: TargetLabel)
    requires b.Valid() && b.w.dependencies.Keys == b.w.g.nodes && b.IsTarget(n)
    ensures SucceedsThrough(b, n) <==> E.Succeeds(b.w, b.cold, n)
    decreases Ancestors(b.w.g, n)
  {
    forall d | d in b.w.dependencies[n]
      ensures d in b.w.dependencies && (SucceedsThrough(b, d) <==> E.Succeeds(b.w, b.cold, d)) && Reaches(b.w.g, d, n)
    {
      E.DependencySmaller(b.w, d, n);
      EdgeReaches(b.w.g, d, n);
      ThroughIsSucceeds(b, d);
    }
    if SucceedsThrough(b, n) {
      forall d | d in b.w.dependencies[n] ensures SucceedsThrough(b, d) {
        forall a | b.IsTarget(a) && (a == d || Reaches(b.w.g, a, d)) ensures b.cold[a].output != "" {
          if a != d {
            ReachesTransitive(b.w.g, a, d, n);
          }
        }
      }
    }
    if E.Succeeds(b.w, b.cold, n) {
      forall a | b.IsTarget(a) && Reaches(b.w.g, a, n) ensures b.cold[a].output != "" {
        var d := LastEdge(b.w.g, a, n);
        assert SucceedsThrough(b, d);
      }
    }
  }

  /** The re-runs that callbacks of the walk may need: only the commands that fail from scratch may fail. */
  ghost predicate RerunsOf(r: Reruns.Config, b: Setting, walk: Walk)
    requires b.Valid()
  {
    && r.g == b.w.g && r.dependencies == b.w.dependencies
    && r.failing == (set l | l in b.cold && b.cold[l].output == "")
    && forall t :: t in r.tasks ==> r.tasks[t] in walk.calls && b.IsTarget(r.tasks[t])
  }

  /**
   On reliable infrastructure no callback fails for the sake of a dependency: however the tasks
   that load dependencies interleave and whichever loads fail, they all succeed in the end.
   */
  lemma RerunsSucceed(c: Config, b: Setting, run: seq<Walk>, states: seq<E.Snapshot>, i: nat,
                      r: Reruns.Config, reruns: seq<Reruns.State>, k: nat, t: nat)
    requires IsBuild(c, b, run, states) && i < |run| && RerunsOf(r, b, run[i])
    requires Reruns.IsRun(r, reruns) && k < |reruns| && t in r.tasks
    ensures t in reruns[k].tasks && reruns[k].tasks[t] != Reruns.Ended(false)
    ensures Reruns.Stuck(r, reruns[k]) ==> reruns[k].tasks[t] == Reruns.Ended(true)
  {
    Reruns.FollowersAnswered(r, reruns, k, t);
    WalkSafety(c, run, i);
    if Reruns.Blamed(r, r.tasks[t]) {
      var f :| f in r.failing && Reaches(r.g, f, r.tasks[t]);
      BuildMatchesCold(c, b, run, states, i, f);
      assert false;
    }
  }
}
