/**
 The cache protocol of the executor (internal/execution/execute.go, with
 internal/hashing/target_hasher.go and LoadOutputs of internal/output/registry.go). Other
 tasks run between any two steps of a task: Yield stands for whatever they do, restricted
 only by what every task guarantees.
 */
module Executors {
  import opened Results
  import opened Labels
  import opened Digraphs

  // The build as a function -------------------------------------------------------------

  datatype OutputRef = OutputRef(definition: string, digest: string)

  /**
   What a build computes from: the graph, its targets with their direct dependencies that
   are targets, their declared outputs, and three functions. `changeHash` covers a target's
   definition, its input files and its dependencies' output hashes; `run` gives the outputs a
   command produces for a change hash, or its failure; `hashOutputs` does not depend on their
   order.
   */
  datatype World = World(
    g: Digraph,
    dependencies: map<TargetLabel, seq<TargetLabel>>,
    declared: map<TargetLabel, seq<string>>,
    changeHash: (TargetLabel, seq<string>) -> string,
    run: string -> Option<seq<OutputRef>>,
    hashOutputs: multiset<OutputRef> -> string)
  {
    ghost predicate GraphOk() {
      && g.Valid() && Acyclic(g)
      && dependencies.Keys <= g.nodes && declared.Keys == dependencies.Keys
      && (forall l, d :: l in dependencies && d in dependencies[l] ==> g.Edge(d, l) && d in dependencies)
      && (forall l, d {:trigger g.Edge(d, l)} :: l in dependencies && d in dependencies && g.Edge(d, l) ==>
            d in dependencies[l])
    }

    /** Hashes are never empty, and a command that succeeds leaves exactly the declared outputs. */
    ghost predicate Valid() {
      && GraphOk()
      && (forall l, hs :: changeHash(l, hs) != "")
      && (forall os :: hashOutputs(os) != "")
      && (forall l, hs :: l in declared ==> LeavesDeclared(l, changeHash(l, hs)))
    }

    ghost predicate LeavesDeclared(l: TargetLabel, change: string) {
      l in declared && (run(change).Some? ==> multiset(Definitions(run(change).value)) == multiset(declared[l]))
    }
  }

  function Definitions(outputs: seq<OutputRef>): (ds: seq<string>)
    ensures |ds| == |outputs|
  {
    seq(|outputs|, i requires 0 <= i < |outputs| => outputs[i].definition)
  }

  lemma DependencySmaller(w: World, d: TargetLabel, l: TargetLabel)
    requires w.GraphOk() && l in w.dependencies && d in w.dependencies[l]
    ensures d in w.dependencies && Ancestors(w.g, d) < Ancestors(w.g, l)
  {
    AncestorsShrink(w.g, d, l);
  }

  /** The two hashes of a target in a build from scratch; the output hash is empty if its command fails. */
  datatype Cold = Cold(change: string, output: string)

  ghost function OutputsOf(cold: map<TargetLabel, Cold>, ds: seq<TargetLabel>): seq<string>
    requires forall d :: d in ds ==> d in cold
  {
    seq(|ds|, i requires 0 <= i < |ds| => cold[ds[i]].output)
  }

  function ResultHash(w: World, changeHash: string): string {
    match w.run(changeHash)
    case None => ""
    case Some(outputs) => OutputHash(w, changeHash, outputs)
  }

  /** The equations that a build from scratch solves, dependencies first. */
  ghost predicate IsCold(w: World, cold: map<TargetLabel, Cold>)
    requires w.GraphOk()
  {
    && cold.Keys == w.dependencies.Keys
    && forall l {:trigger ColdAt(w, cold, l)} :: l in w.dependencies.Keys ==> ColdAt(w, cold, l)
  }

  ghost predicate ColdAt(w: World, cold: map<TargetLabel, Cold>, l: TargetLabel) {
    && l in cold && l in w.dependencies
    && (forall d :: d in w.dependencies[l] ==> d in cold)
    && cold[l].change == w.changeHash(l, OutputsOf(cold, w.dependencies[l]))
    && cold[l].output == ResultHash(w, cold[l].change)
  }

  /** The equations have one solution. */
  lemma {:induction false} ColdUnique(w: World, a: map<TargetLabel, Cold>, b: map<TargetLabel, Cold>, l: TargetLabel)
    requires w.GraphOk() && IsCold(w, a) && IsCold(w, b) && l in w.dependencies.Keys
    ensures a[l] == b[l]
    decreases Ancestors(w.g, l)
  {
    var ds := w.dependencies[l];
    assert ColdAt(w, a, l) && ColdAt(w, b, l);
    forall i | 0 <= i < |ds| ensures a[ds[i]] == b[ds[i]] {
      DependencySmaller(w, ds[i], l);
      ColdUnique(w, a, b, ds[i]);
    }
    assert OutputsOf(a, ds) == OutputsOf(b, ds);
  }

  /** A solution exists: it is what executing every target after its dependencies computes. */
  lemma {:induction false} ColdExists(w: World) returns (cold: map<TargetLabel, Cold>)
    requires w.GraphOk()
    ensures IsCold(w, cold)
  {
    cold := ColdFor(w, w.dependencies.Keys);
  }

  lemma {:induction false} ColdFor(w: World, ls: set<TargetLabel>) returns (cold: map<TargetLabel, Cold>)
    requires w.GraphOk() && ls <= w.dependencies.Keys
    requires forall l, d :: l in ls && d in w.dependencies[l] ==> d in ls
    ensures cold.Keys == ls && forall l :: l in ls ==> ColdAt(w, cold, l)
    decreases |ls|
  {
    if ls == {} {
      cold := map[];
    } else {
      var last := LastOf(w, ls);
      var rest := ColdFor(w, ls - {last});
      var ds := w.dependencies[last];
      forall d | d in ds ensures d in rest {
        EdgeReaches(w.g, d, last);
      }
      var change := w.changeHash(last, OutputsOf(rest, ds));
      cold := rest[last := Cold(change, ResultHash(w, change))];
      assert OutputsOf(cold, ds) == OutputsOf(rest, ds);
      forall l | l in ls - {last} ensures ColdAt(w, cold, l) {
        assert ColdAt(w, rest, l);
        assert OutputsOf(cold, w.dependencies[l]) == OutputsOf(rest, w.dependencies[l]);
      }
    }
  }

  /** A member that no other member depends on. */
  lemma LastOf(w: World, ls: set<TargetLabel>) returns (last: TargetLabel)
    requires w.GraphOk() && ls != {} && ls <= w.dependencies.Keys
    ensures last in ls && forall l :: l in ls ==> last !in w.dependencies[l]
  {
    var start :| start in ls;
    last := Maximal(w.g, ls, start);
    forall l | l in ls ensures last !in w.dependencies[l] {
      if last in w.dependencies[l] {
        EdgeReaches(w.g, last, l);
      }
    }
  }

  /** Without outputs a target passes its change hash on. */
  function OutputHash(w: World, changeHash: string, outputs: seq<OutputRef>): string {
    if outputs == [] then changeHash else w.hashOutputs(multiset(outputs))
  }

  // State ---------------------------------------------------------------------------------

  datatype TargetState = TargetState(changeHash: string, outputHash: string, outputsLoaded: bool, hasCacheHit: bool)

  datatype TargetResult = TargetResult(changeHash: string, outputHash: string, outputs: seq<OutputRef>)

  datatype Failure = MissingDependencyHash | HashFailed | LoadFailed | ResourceFailed | CommandFailed | WriteFailed
    | LeaderUnfinished // the run ends while another task still leads the awaited re-run

  datatype CacheResult = CacheHit | CacheMiss

  /**
   An entry records a real execution: the outputs, in any order, that its change hash leads to.
   */
  ghost predicate Honest(w: World, changeHash: string, entry: TargetResult) {
    && entry.changeHash == changeHash
    && w.run(changeHash).Some?
    && multiset(entry.outputs) == multiset(w.run(changeHash).value)
    && entry.outputHash == OutputHash(w, changeHash, w.run(changeHash).value)
  }

  ghost predicate HonestCache(w: World, cache: map<string, TargetResult>) {
    forall h {:trigger cache[h]} :: h in cache ==> Honest(w, h, cache[h])
  }

  ghost predicate AllHashed(st: map<TargetLabel, TargetState>, ds: seq<TargetLabel>) {
    forall d :: d in ds ==> d in st && st[d].outputHash != ""
  }

  ghost predicate DependenciesHashed(w: World, st: map<TargetLabel, TargetState>, l: TargetLabel) {
    l in w.dependencies && AllHashed(st, w.dependencies[l])
  }

  /** What a command may rely on when it runs. */
  ghost predicate DependenciesLoaded(w: World, st: map<TargetLabel, TargetState>, l: TargetLabel) {
    l in w.dependencies && AllLoaded(st, w.dependencies[l]) && AllHashed(st, w.dependencies[l])
  }

  /** A completed target: its dependants may start. */
  predicate Completed(minimal: bool, st: map<TargetLabel, TargetState>, l: TargetLabel) {
    l in st && st[l].outputHash != "" && (!minimal ==> st[l].outputsLoaded)
  }

  ghost predicate DependenciesCompleted(w: World, minimal: bool, st: map<TargetLabel, TargetState>, l: TargetLabel) {
    l in w.dependencies && forall d :: d in w.dependencies[l] ==> Completed(minimal, st, d)
  }

  /** Whatever is known about a target is what a build from scratch computes. */
  ghost predicate StateOk(w: World, cold: map<TargetLabel, Cold>, st: map<TargetLabel, TargetState>, l: TargetLabel) {
    l in st && l in cold &&
    var s := st[l];
    && (s.changeHash != "" ==> s.changeHash == cold[l].change && DependenciesHashed(w, st, l))
    && (s.outputHash != "" ==> s.changeHash != "" && s.outputHash == cold[l].output)
    && (s.outputsLoaded ==> s.outputHash != "")
  }

  ghost predicate StatesOk(w: World, cold: map<TargetLabel, Cold>, st: map<TargetLabel, TargetState>) {
    && st.Keys == w.dependencies.Keys
    && forall l {:trigger StateOk(w, cold, st, l)} :: l in st ==> StateOk(w, cold, st, l)
  }

  /** One target's state may be replaced by one that knows more. */
  ghost predicate Improves(s: TargetState, s': TargetState) {
    && (s.changeHash != "" ==> s'.changeHash == s.changeHash)
    && (s.outputHash != "" ==> s'.outputHash == s.outputHash)
    && (s.outputsLoaded ==> s'.outputsLoaded)
  }

  ghost predicate GrownAt(st: map<TargetLabel, TargetState>, st': map<TargetLabel, TargetState>, l: TargetLabel) {
    l in st && l in st' && Improves(st[l], st'[l])
  }

  /** What no task ever undoes. */
  ghost predicate Grows(st: map<TargetLabel, TargetState>, st': map<TargetLabel, TargetState>) {
    st'.Keys == st.Keys && forall l {:trigger GrownAt(st, st', l)} :: l in st ==> GrownAt(st, st', l)
  }

  /** Successful re-executions are counted; each leaves the outputs loaded. */
  ghost predicate RerunOk(st: map<TargetLabel, TargetState>, reruns: map<TargetLabel, nat>, l: TargetLabel) {
    l in st && l in reruns && reruns[l] <= 1 && (reruns[l] == 1 ==> st[l].outputsLoaded)
  }

  ghost predicate RerunsOk(st: map<TargetLabel, TargetState>, reruns: map<TargetLabel, nat>) {
    reruns.Keys == st.Keys && forall l {:trigger RerunOk(st, reruns, l)} :: l in st ==> RerunOk(st, reruns, l)
  }

  lemma CountRerun(st: map<TargetLabel, TargetState>, reruns: map<TargetLabel, nat>, d: TargetLabel)
    requires RerunsOk(st, reruns) && d in st && st[d].outputsLoaded
    ensures RerunsOk(st, reruns[d := 1])
  {
    forall l | l in st ensures RerunOk(st, reruns[d := 1], l) {
      assert RerunOk(st, reruns, l);
    }
  }

  /** The counters of the flights a task leads stay as they are while other tasks run. */
  ghost predicate SameReruns(mine: set<TargetLabel>, reruns: map<TargetLabel, nat>, reruns': map<TargetLabel, nat>) {
    forall m :: m in mine ==> m in reruns && m in reruns' && reruns'[m] == reruns[m]
  }

  lemma GrowsReflexive(st: map<TargetLabel, TargetState>)
    ensures Grows(st, st)
  {
  }

  lemma GrowsTransitive(a: map<TargetLabel, TargetState>, b: map<TargetLabel, TargetState>,
                        c: map<TargetLabel, TargetState>)
    requires Grows(a, b) && Grows(b, c)
    ensures Grows(a, c)
  {
    forall l | l in a ensures GrownAt(a, c, l) {
      assert GrownAt(a, b, l) && GrownAt(b, c, l);
    }
  }

  lemma HashedStays(a: map<TargetLabel, TargetState>, b: map<TargetLabel, TargetState>, ds: seq<TargetLabel>)
    requires Grows(a, b) && AllHashed(a, ds)
    ensures AllHashed(b, ds)
  {
    forall d | d in ds ensures d in b && b[d].outputHash != "" {
      assert GrownAt(a, b, d);
    }
  }

  lemma HashedNext(st: map<TargetLabel, TargetState>, ds: seq<TargetLabel>, i: nat)
    requires i < |ds| && AllHashed(st, ds[..i]) && ds[i] in st && st[ds[i]].outputHash != ""
    ensures AllHashed(st, ds[..i + 1])
  {
    assert ds[..i + 1] == ds[..i] + [ds[i]];
  }

  lemma CompletedStays(w: World, minimal: bool, a: map<TargetLabel, TargetState>, b: map<TargetLabel, TargetState>,
                       l: TargetLabel)
    requires Grows(a, b) && DependenciesCompleted(w, minimal, a, l)
    ensures DependenciesCompleted(w, minimal, b, l) && DependenciesHashed(w, b, l)
    ensures !minimal ==> DependenciesLoaded(w, b, l)
  {
    forall d | d in w.dependencies[l] ensures Completed(minimal, b, d) {
      assert Completed(minimal, a, d) && GrownAt(a, b, d);
    }
  }

  ghost predicate AllLoaded(st: map<TargetLabel, TargetState>, ds: seq<TargetLabel>) {
    forall d :: d in ds ==> d in st && st[d].outputsLoaded
  }

  lemma LoadedStays(a: map<TargetLabel, TargetState>, b: map<TargetLabel, TargetState>, ds: seq<TargetLabel>)
    requires Grows(a, b) && AllLoaded(a, ds)
    ensures AllLoaded(b, ds)
  {
    forall d | d in ds ensures d in b && b[d].outputsLoaded {
      assert GrownAt(a, b, d);
    }
  }

  lemma LoadedNext(st: map<TargetLabel, TargetState>, ds: seq<TargetLabel>, i: nat)
    requires i < |ds| && AllLoaded(st, ds[..i]) && ds[i] in st && st[ds[i]].outputsLoaded
    ensures AllLoaded(st, ds[..i + 1])
  {
    assert ds[..i + 1] == ds[..i] + [ds[i]];
  }

  /** A task waits only for flights of strict ancestors of the flights it leads. */
  ghost predicate WaitsBelow(g: Digraph, mine: set<TargetLabel>, d: TargetLabel) {
    forall m :: m in mine ==> Reaches(g, d, m)
  }

  /** Task i leads `leads[i]` and waits for a flight of task i + 1; the last one waits for task 0. */
  ghost predicate WaitCycle(g: Digraph, leads: seq<set<TargetLabel>>, waits: seq<TargetLabel>) {
    && 0 < |waits| == |leads|
    && (forall i :: 0 <= i < |waits| ==> WaitsBelow(g, leads[i], waits[i]))
    && (forall i :: 0 <= i < |waits| ==> waits[i] in leads[if i == |waits| - 1 then 0 else i + 1])
  }

  /** So re-runs never deadlock. */
  lemma NoWaitCycle(g: Digraph, leads: seq<set<TargetLabel>>, waits: seq<TargetLabel>)
    requires Acyclic(g)
    ensures !WaitCycle(g, leads, waits)
  {
    if WaitCycle(g, leads, waits) {
      var last := |waits| - 1;
      assert WaitsBelow(g, leads[0], waits[0]) && waits[last] in leads[0];
      WaitsReach(g, leads, waits, last);
      if last > 0 {
        ReachesTransitive(g, waits[0], waits[last], waits[0]);
      }
      assert false;
    }
  }

  lemma {:induction false} WaitsReach(g: Digraph, leads: seq<set<TargetLabel>>, waits: seq<TargetLabel>, i: nat)
    requires WaitCycle(g, leads, waits) && i < |waits|
    ensures i > 0 ==> Reaches(g, waits[i], waits[0])
  {
    if i > 0 {
      assert WaitsBelow(g, leads[i], waits[i]) && waits[i - 1] in leads[i];
      WaitsReach(g, leads, waits, i - 1);
      if i > 1 {
        ReachesTransitive(g, waits[i], waits[i - 1], waits[0]);
      }
    }
  }

  lemma BelowDependency(w: World, d: TargetLabel, l: TargetLabel, mine: set<TargetLabel>)
    requires w.GraphOk() && l in w.dependencies && d in w.dependencies[l]
    requires forall m :: m in mine ==> m == l || Reaches(w.g, l, m)
    ensures WaitsBelow(w.g, mine, d)
  {
    EdgeReaches(w.g, d, l);
    forall m | m in mine ensures Reaches(w.g, d, m) {
      if m != l {
        ReachesTransitive(w.g, d, l, m);
      }
    }
  }

  lemma Improve(w: World, cold: map<TargetLabel, Cold>, st: map<TargetLabel, TargetState>,
                reruns: map<TargetLabel, nat>, l: TargetLabel, s: TargetState)
    requires StatesOk(w, cold, st) && RerunsOk(st, reruns) && l in st
    requires StateOk(w, cold, st[l := s], l) && Improves(st[l], s)
    ensures StatesOk(w, cold, st[l := s]) && RerunsOk(st[l := s], reruns) && Grows(st, st[l := s])
  {
    var st' := st[l := s];
    assert Grows(st, st');
    forall k | k in st' ensures StateOk(w, cold, st', k) {
      if k != l {
        assert StateOk(w, cold, st, k);
        if st[k].changeHash != "" {
          HashedStays(st, st', w.dependencies[k]);
        }
      }
    }
    forall k | k in st' ensures RerunOk(st', reruns, k) {
      assert RerunOk(st, reruns, k);
    }
  }

  /** The entry of a target's change hash carries the output hash of a build from scratch. */
  lemma EntryMatchesCold(w: World, cold: map<TargetLabel, Cold>, st: map<TargetLabel, TargetState>, l: TargetLabel,
                         entry: TargetResult)
    requires w.Valid() && IsCold(w, cold) && StatesOk(w, cold, st) && l in st
    requires st[l].changeHash != "" && Honest(w, st[l].changeHash, entry)
    ensures entry.outputHash != "" && entry.outputHash == cold[l].output
  {
    assert StateOk(w, cold, st, l) && ColdAt(w, cold, l);
  }

  function Without(outputs: seq<OutputRef>, i: nat): seq<OutputRef>
    requires i < |outputs|
  {
    outputs[..i] + outputs[i + 1..]
  }

  lemma WithoutCounts(outputs: seq<OutputRef>, i: nat)
    requires i < |outputs|
    ensures multiset(outputs) == multiset(Without(outputs, i)) + multiset{outputs[i]}
    ensures multiset(Definitions(outputs)) ==
            multiset(Definitions(Without(outputs, i))) + multiset{outputs[i].definition}
  {
    assert outputs == outputs[..i] + [outputs[i]] + outputs[i + 1..];
    var ds := Definitions(outputs);
    assert Definitions(Without(outputs, i)) == ds[..i] + ds[i + 1..];
    assert ds == ds[..i] + [ds[i]] + ds[i + 1..];
  }

  lemma {:induction false} DefinitionsPermute(a: seq<OutputRef>, b: seq<OutputRef>)
    requires multiset(a) == multiset(b)
    ensures multiset(Definitions(a)) == multiset(Definitions(b))
    decreases |a|
  {
    SameLength(a, b);
    if a != [] {
      assert a[0] in multiset(b);
      var i :| 0 <= i < |b| && b[i] == a[0];
      WithoutCounts(a, 0);
      WithoutCounts(b, i);
      assert multiset(Without(a, 0)) == multiset(a) - multiset{a[0]};
      assert multiset(Without(b, i)) == multiset(b) - multiset{b[i]};
      DefinitionsPermute(Without(a, 0), Without(b, i));
    }
  }

  /** The outputs of an honest entry are the declared ones, so the validation never rejects it. */
  lemma EntryFitsTarget(w: World, cold: map<TargetLabel, Cold>, st: map<TargetLabel, TargetState>, l: TargetLabel,
                        entry: TargetResult)
    requires w.Valid() && IsCold(w, cold) && StatesOk(w, cold, st) && l in st
    requires st[l].changeHash != "" && Honest(w, st[l].changeHash, entry)
    ensures l in w.declared && multiset(Definitions(entry.outputs)) == multiset(w.declared[l])
  {
    assert StateOk(w, cold, st, l) && ColdAt(w, cold, l);
    assert w.LeavesDeclared(l, st[l].changeHash);
    DefinitionsPermute(entry.outputs, w.run(st[l].changeHash).value);
  }

  /** All that may go wrong when hashing, resources, commands and writes do not fail by themselves. */
  predicate Forgivable(failure: Option<Failure>) {
    failure == None || failure == Some(LeaderUnfinished)
  }

  ghost predicate ReportOk(reliable: bool, st: map<TargetLabel, TargetState>,
                           reports: map<TargetLabel, Option<Failure>>, d: TargetLabel)
  {
    && d in st && d in reports
    && (reports[d] == None ==> st[d].outputsLoaded)
    && (reliable ==> Forgivable(reports[d]))
  }

  ghost predicate ReportsOk(reliable: bool, st: map<TargetLabel, TargetState>,
                            reports: map<TargetLabel, Option<Failure>>)
  {
    forall d {:trigger ReportOk(reliable, st, reports, d)} :: d in reports ==> ReportOk(reliable, st, reports, d)
  }

  lemma ReportsStay(reliable: bool, a: map<TargetLabel, TargetState>, b: map<TargetLabel, TargetState>,
                    reports: map<TargetLabel, Option<Failure>>)
    requires Grows(a, b) && ReportsOk(reliable, a, reports)
    ensures ReportsOk(reliable, b, reports)
  {
    forall d | d in reports ensures ReportOk(reliable, b, reports, d) {
      assert ReportOk(reliable, a, reports, d) && GrownAt(a, b, d);
    }
  }

  /** A flight ends only with a report, and the latest report stays readable. */
  ghost predicate Reported(flights: set<TargetLabel>, reports: set<TargetLabel>, flights': set<TargetLabel>,
                           reports': set<TargetLabel>)
  {
    flights <= flights' + reports' && reports <= reports'
  }

  /**
   During a build nobody taints a target or deletes an entry, and a taint goes away only when
   its target has been executed and its outputs are written.
   */
  ghost predicate MarksStay(tainted: set<TargetLabel>, executed: set<TargetLabel>, entries: set<string>,
                            tainted': set<TargetLabel>, executed': set<TargetLabel>, entries': set<string>)
  {
    tainted' <= tainted <= tainted' + executed' && executed <= executed' && entries <= entries'
  }

  datatype Settings = Settings(minimal: bool, asyncWrites: bool, reliable: bool, intact: bool)

  /** What all tasks of a build share, at one moment. */
  datatype Snapshot = Snapshot(
    st: map<TargetLabel, TargetState>,
    cache: map<string, TargetResult>,
    tainted: set<TargetLabel>,
    flights: set<TargetLabel>,
    reports: map<TargetLabel, Option<Failure>>,
    reruns: map<TargetLabel, nat>,
    executed: set<TargetLabel>,
    starts: map<TargetLabel, nat>,
    loads: map<TargetLabel, nat>)

  ghost predicate Sound(w: World, cold: map<TargetLabel, Cold>, reliable: bool, s: Snapshot) {
    && StatesOk(w, cold, s.st) && HonestCache(w, s.cache) && RerunsOk(s.st, s.reruns)
    && s.flights <= s.st.Keys && ReportsOk(reliable, s.st, s.reports)
  }

  /** What any number of steps of tasks does to the shared state. */
  ghost predicate Later(w: World, cold: map<TargetLabel, Cold>, reliable: bool, a: Snapshot, b: Snapshot) {
    && Sound(w, cold, reliable, b) && Grows(a.st, b.st)
    && Reported(a.flights, a.reports.Keys, b.flights, b.reports.Keys)
    && MarksStay(a.tainted, a.executed, a.cache.Keys, b.tainted, b.executed, b.cache.Keys)
    && a.starts.Keys == b.starts.Keys && a.loads.Keys == b.loads.Keys
  }

  function OneMore(starts: map<TargetLabel, nat>, l: TargetLabel): map<TargetLabel, nat> {
    if l in starts then starts[l := starts[l] + 1] else starts
  }

  ghost predicate SameCount(a: map<TargetLabel, nat>, b: map<TargetLabel, nat>, l: TargetLabel) {
    (l in a <==> l in b) && (l in a ==> b[l] == a[l])
  }

  ghost predicate SameElsewhere(a: map<TargetLabel, nat>, b: map<TargetLabel, nat>, l: TargetLabel) {
    a.Keys == b.Keys && forall k {:trigger SameCount(a, b, k)} :: k != l ==> SameCount(a, b, k)
  }

  lemma SameElsewhereTransitive(a: map<TargetLabel, nat>, b: map<TargetLabel, nat>, c: map<TargetLabel, nat>,
                                l: TargetLabel)
    requires SameElsewhere(a, b, l) && SameElsewhere(b, c, l)
    ensures SameElsewhere(a, c, l)
  {
    forall k | k != l ensures SameCount(a, c, k) {
      assert SameCount(a, b, k) && SameCount(b, c, k);
    }
  }

  /**
   A callback starts the command of its target once or not at all: not for a cache hit, and
   once for a success that is not a hit.
   */
  ghost predicate StartsOk(l: TargetLabel, before: map<TargetLabel, nat>, after: map<TargetLabel, nat>,
                           result: CacheResult, failure: Option<Failure>)
  {
    && (after == before || after == OneMore(before, l))
    && (result == CacheHit ==> failure == None && after == before)
    && (result == CacheMiss && failure == None ==> after == OneMore(before, l))
  }

  ghost predicate CountOk(before: nat, after: nat, result: CacheResult, failure: Option<Failure>) {
    && before <= after <= before + 1
    && (result == CacheHit ==> failure == None && after == before)
    && (result == CacheMiss && failure == None ==> after == before + 1)
  }

  /** What the callback of a target promises between its start and its return. */
  ghost predicate CallbackKeeps(w: World, settings: Settings, cold: map<TargetLabel, Cold>, a: Snapshot, b: Snapshot,
                                l: TargetLabel, result: CacheResult, failure: Option<Failure>)
  {
    && Later(w, cold, settings.reliable, a, b)
    && (l in a.starts && l in b.starts ==> CountOk(a.starts[l], b.starts[l], result, failure))
    && (failure == None ==> Completed(settings.minimal, b.st, l))
    && (failure == None && !settings.asyncWrites ==> Published(cold, b.cache, l))
    && (settings.reliable && settings.intact && Published(cold, a.cache, l) && l !in a.tainted ==> result == CacheHit)
    && (failure == None && settings.reliable && l in a.tainted ==> l in b.executed)
    && (settings.reliable && l in cold && cold[l].output != "" ==>
          Forgivable(failure) && (!settings.minimal ==> failure == None))
  }

  lemma LaterTransitive(w: World, cold: map<TargetLabel, Cold>, reliable: bool, a: Snapshot, m: Snapshot, b: Snapshot)
    requires Later(w, cold, reliable, a, m) && Later(w, cold, reliable, m, b)
    ensures Later(w, cold, reliable, a, b)
  {
    GrowsTransitive(a.st, m.st, b.st);
  }

  lemma KeepsFromEarlier(w: World, settings: Settings, cold: map<TargetLabel, Cold>, a: Snapshot, m: Snapshot,
                         b: Snapshot, l: TargetLabel, result: CacheResult, failure: Option<Failure>)
    requires Later(w, cold, settings.reliable, a, m) && m.starts == a.starts
    requires CallbackKeeps(w, settings, cold, m, b, l, result, failure)
    ensures CallbackKeeps(w, settings, cold, a, b, l, result, failure)
  {
    LaterTransitive(w, cold, settings.reliable, a, m, b);
  }

  class Executor {
    const w: World
    const minimal: bool
    const asyncWrites: bool
    /** Hashing, resources, commands and cache writes fail only if the command itself fails. */
    const reliable: bool
    /** Entries that are present can be read and their outputs loaded. */
    const intact: bool
    /** The hashes of a build from scratch. */
    ghost const cold: map<TargetLabel, Cold>
    var st: map<TargetLabel, TargetState>
    var cache: map<string, TargetResult>
    var tainted: set<TargetLabel>
    /** Dependencies whose re-run some task leads at the moment (the singleflight group). */
    var flights: set<TargetLabel>
    /** What the last finished flight of a dependency delivered to the tasks waiting for it. */
    var reports: map<TargetLabel, Option<Failure>>
    ghost var reruns: map<TargetLabel, nat>
    /** Targets whose command has run successfully in this build and whose outputs are written. */
    ghost var executed: set<TargetLabel>
    /**
     How often callbacks have started the command of their target, for the targets whose
     callbacks this walk runs; `reruns` has the re-executions for dependants.
     */
    ghost var starts: map<TargetLabel, nat>
    /** How often these callbacks have loaded outputs, of their target or a dependency, or asked for a re-run. */
    ghost var loads: map<TargetLabel, nat>

    ghost predicate WorldOk() {
      w.Valid() && IsCold(w, cold)
    }

    function Mode(): Settings {
      Settings(minimal, asyncWrites, reliable, intact)
    }

    ghost function Now(): Snapshot
      reads this
    {
      Snapshot(st, cache, tainted, flights, reports, reruns, executed, starts, loads)
    }

    ghost predicate Valid()
      reads this
    {
      Sound(w, cold, reliable, Now())
    }

    /** A build starts with blank targets and whatever entries and taints earlier builds left. */
    constructor (w: World, settings: Settings, cache: map<string, TargetResult>, tainted: set<TargetLabel>,
                 ghost cold: map<TargetLabel, Cold>, ghost own: set<TargetLabel>)
      requires w.Valid() && IsCold(w, cold) && HonestCache(w, cache)
      ensures starts == (map l | l in own :: 0) && loads == starts
      ensures WorldOk() && Valid() && this.w == w && this.cold == cold
      ensures Mode() == settings
      ensures this.cache == cache && this.tainted == tainted && flights == {}
      ensures st == map l | l in w.dependencies.Keys :: TargetState("", "", false, false)
    {
      this.w, this.cold := w, cold;
      minimal, asyncWrites := settings.minimal, settings.asyncWrites;
      reliable, intact := settings.reliable, settings.intact;
      this.cache, this.tainted, flights, reports := cache, tainted, {}, map[];
      st := map l | l in w.dependencies.Keys :: TargetState("", "", false, false);
      reruns, executed := map l | l in w.dependencies.Keys :: 0, {};
      starts, loads := map l | l in own :: 0, map l | l in own :: 0;
    }

    // Atomic steps ------------------------------------------------------------------------

    /**
     What one step of a task that leads the flights `theirs` and runs the callbacks of `runs`
     does to the state all tasks share.
     */
    twostate predicate Guarantee(theirs: set<TargetLabel>, runs: set<TargetLabel>)
      reads this
    {
      && (forall l {:trigger SameCount(old(starts), starts, l)} :: l !in runs ==> SameCount(old(starts), starts, l))
      && (forall l {:trigger SameCount(old(loads), loads, l)} :: l !in runs ==> SameCount(old(loads), loads, l))
      && Later(w, cold, reliable, old(Now()), Now())
      && old(flights) - theirs <= flights
      && SameReruns(old(flights) - theirs, old(reruns), reruns)
    }

    /** What a task that leads the flights `mine` may rely on while others run: they count nothing for it. */
    twostate predicate Kept(mine: set<TargetLabel>)
      reads this
    {
      Proceeds(mine) && starts == old(starts) && loads == old(loads)
    }

    twostate predicate Proceeds(mine: set<TargetLabel>)
      reads this
    {
      Later(w, cold, reliable, old(Now()), Now()) && mine <= flights && SameReruns(mine, old(reruns), reruns)
    }

    /**
     Any step of any other task is one that this task may rely on: no flight has two leaders,
     and no target has two callbacks.
     */
    twostate lemma GuaranteeIsRely(theirs: set<TargetLabel>, runs: set<TargetLabel>, mine: set<TargetLabel>)
      requires Guarantee(theirs, runs) && theirs !! mine && mine <= old(flights)
      requires runs !! old(starts).Keys && runs !! old(loads).Keys
      ensures Kept(mine)
    {
      forall l | l in starts ensures starts[l] == old(starts)[l] {
        assert SameCount(old(starts), starts, l);
      }
      forall l | l in loads ensures loads[l] == old(loads)[l] {
        assert SameCount(old(loads), loads, l);
      }
    }

    /**
     Anything other tasks do meanwhile. A caller learns no more than this contract, so it is
     proved against every interference made of steps that keep Guarantee.
     */
    method Yield(ghost mine: set<TargetLabel>)
      requires Valid() && mine <= flights
      modifies this
      ensures Kept(mine)
    {
      GrowsReflexive(st);
    }

    /** Interference of any length is still of that kind. */
    method YieldAgain(ghost mine: set<TargetLabel>)
      requires Valid() && mine <= flights
      modifies this
      ensures Kept(mine)
    {
      Yield(mine);
      ghost var before := st;
      Yield(mine);
      GrowsTransitive(old(st), before, st);
    }

    method Store(l: TargetLabel, s: TargetState, ghost mine: set<TargetLabel>)
      requires Valid() && l in st && Improves(st[l], s) && StateOk(w, cold, st[l := s], l)
      modifies `st
      ensures st == old(st)[l := s] && Guarantee(mine, {})
    {
      Improve(w, cold, st, reruns, l, s);
      ReportsStay(reliable, st, st[l := s], reports);
      st := st[l := s];
    }

    /** The write of an entry, at once or later by a worker of the I/O pool. */
    method Publish(entry: TargetResult, ghost mine: set<TargetLabel>)
      requires Valid() && Honest(w, entry.changeHash, entry)
      modifies `cache
      ensures cache == old(cache)[entry.changeHash := entry] && Guarantee(mine, {})
    {
      GrowsReflexive(st);
      cache := cache[entry.changeHash := entry];
    }

    ghost method NoteExecution(l: TargetLabel, mine: set<TargetLabel>)
      requires Valid()
      modifies `executed
      ensures executed == old(executed) + {l} && Guarantee(mine, {})
    {
      GrowsReflexive(st);
      executed := executed + {l};
    }

    ghost method CountStart(l: TargetLabel, mine: set<TargetLabel>)
      requires Valid()
      modifies `starts
      ensures starts == OneMore(old(starts), l) && Guarantee(mine, {l})
    {
      GrowsReflexive(st);
      starts := OneMore(starts, l);
    }

    ghost method CountLoad(l: TargetLabel, mine: set<TargetLabel>)
      requires Valid()
      modifies `loads
      ensures loads == OneMore(old(loads), l) && Guarantee(mine, {l})
    {
      GrowsReflexive(st);
      loads := OneMore(loads, l);
    }

    method ClearTaint(l: TargetLabel, ghost mine: set<TargetLabel>)
      requires Valid() && l in executed
      modifies `tainted
      ensures tainted == old(tainted) - {l} && Guarantee(mine, {})
    {
      GrowsReflexive(st);
      tainted := tainted - {l};
    }

    method BeginFlight(d: TargetLabel, ghost mine: set<TargetLabel>)
      requires Valid() && d in st && d !in flights
      modifies `flights
      ensures flights == old(flights) + {d} && Guarantee(mine, {})
    {
      GrowsReflexive(st);
      flights := flights + {d};
    }

    /** The waiting tasks get `failure`; `reran` tells whether the leader executed the command. */
    method EndFlight(d: TargetLabel, failure: Option<Failure>, ghost reran: bool, ghost mine: set<TargetLabel>)
      requires Valid() && d in flights && d in mine && d in reruns
      requires (failure == None ==> st[d].outputsLoaded) && (reliable ==> Forgivable(failure))
      requires reran ==> failure == None && reruns[d] == 0
      modifies `flights, `reports, `reruns
      ensures flights == old(flights) - {d} && reports == old(reports)[d := failure] && Guarantee(mine, {})
      ensures reruns == if reran then old(reruns)[d := 1] else old(reruns)
    {
      GrowsReflexive(st);
      ghost var reports' := reports[d := failure];
      forall k | k in reports' ensures ReportOk(reliable, st, reports', k) {
        assert k != d ==> ReportOk(reliable, st, reports, k);
      }
      flights, reports := flights - {d}, reports[d := failure];
      if reran {
        CountRerun(st, reruns, d);
        reruns := reruns[d := 1];
      }
    }

    // Hashing -----------------------------------------------------------------------------

    /** SetTargetChangeHash: the first call computes the hash, later calls keep it. */
    method SetTargetChangeHash(l: TargetLabel, ghost mine: set<TargetLabel>) returns (failure: Option<Failure>)
      requires WorldOk() && Valid() && mine <= flights && l in st
      modifies this
      ensures Kept(mine)
      ensures failure == None ==> st[l].changeHash != "" && st[l].changeHash == cold[l].change
      ensures old(DependenciesHashed(w, st, l)) ==>
                failure != Some(MissingDependencyHash) && (reliable ==> failure == None)
    {
      GrowsReflexive(st);
      if st[l].changeHash != "" {
        assert StateOk(w, cold, st, l);
        return None;
      }
      var hashes;
      hashes, failure := DependencyHashes(l, mine);
      if failure == None {
        var readable: bool := *;
        if !readable && !reliable {
          return Some(HashFailed);
        }
        ghost var before := st;
        assert StateOk(w, cold, st, l) && ColdAt(w, cold, l);
        Store(l, st[l].(changeHash := w.changeHash(l, hashes)), mine);
        GrowsTransitive(old(st), before, st);
      }
    }

    method DependencyHashes(l: TargetLabel, ghost mine: set<TargetLabel>)
      returns (hashes: seq<string>, failure: Option<Failure>)
      requires cold.Keys == w.dependencies.Keys && Valid() && mine <= flights
      requires l in w.dependencies && forall d :: d in w.dependencies[l] ==> d in w.dependencies
      modifies this
      ensures Kept(mine)
      ensures failure == None ==> DependenciesHashed(w, st, l) && hashes == OutputsOf(cold, w.dependencies[l])
      ensures failure == None || failure == Some(MissingDependencyHash)
      ensures old(DependenciesHashed(w, st, l)) ==> failure == None
    {
      var dependencies := w.dependencies[l];
      GrowsReflexive(st);
      hashes := [];
      for i := 0 to |dependencies|
        invariant Kept(mine)
        invariant HashedUpTo(dependencies, i, hashes)
      {
        ghost var before := st;
        assert GrownAt(old(st), before, dependencies[i]);
        hashes, failure := NextHash(dependencies, i, hashes, mine);
        GrowsTransitive(old(st), before, st);
        if failure != None {
          return;
        }
      }
      assert dependencies[..|dependencies|] == dependencies;
      failure := None;
    }

    /** The first `i` dependencies have these hashes, which are those of a build from scratch. */
    ghost predicate HashedUpTo(ds: seq<TargetLabel>, i: nat, hashes: seq<string>)
      requires forall d :: d in ds ==> d in cold
      reads this
    {
      i <= |ds| && hashes == OutputsOf(cold, ds)[..i] && AllHashed(st, ds[..i])
    }

    method NextHash(ds: seq<TargetLabel>, i: nat, before: seq<string>, ghost mine: set<TargetLabel>)
      returns (hashes: seq<string>, failure: Option<Failure>)
      requires Valid() && mine <= flights && i < |ds| && forall d :: d in ds ==> d in cold && d in st
      requires HashedUpTo(ds, i, before)
      modifies this
      ensures Kept(mine)
      ensures failure == None ==> HashedUpTo(ds, i + 1, hashes)
      ensures failure == None || failure == Some(MissingDependencyHash)
      ensures old(st[ds[i]].outputHash) != "" ==> failure == None
    {
      var hash := ReadHash(ds[i], mine);
      if hash == "" {
        return [], Some(MissingDependencyHash);
      }
      HashedStays(old(st), st, ds[..i]);
      HashedNext(st, ds, i);
      hashes, failure := before + [hash], None;
    }

    method ReadHash(d: TargetLabel, ghost mine: set<TargetLabel>) returns (hash: string)
      requires Valid() && mine <= flights && d in st
      modifies this
      ensures Kept(mine)
      ensures hash == "" || (d in cold && hash == cold[d].output && d in st && st[d].outputHash != "")
      ensures old(st[d].outputHash) != "" ==> hash != ""
    {
      Yield(mine);
      assert GrownAt(old(st), st, d) && StateOk(w, cold, st, d);
      hash := st[d].outputHash;
    }

    // Loading and executing ---------------------------------------------------------------

    /** LoadOutputs: validates the entry and loads every output, any of which may fail; `asker` needs them. */
    method LoadOutputs(l: TargetLabel, entry: TargetResult, ghost asker: TargetLabel, ghost mine: set<TargetLabel>)
      returns (failure: Option<Failure>)
      requires WorldOk() && Valid() && mine <= flights && l in st
      requires st[l].changeHash != "" && Honest(w, st[l].changeHash, entry)
      requires asker == l || (asker in w.dependencies && l in w.dependencies[asker])
      modifies this
      ensures Proceeds(mine) && LoadsOnly(asker, mine) && (loads == old(loads) || LoadsOneMore(asker, mine))
      ensures failure == None ==> st[l].outputsLoaded
      ensures intact ==> failure == None
    {
      GrowsReflexive(st);
      if st[l].outputsLoaded {
        return None;
      }
      EntryFitsTarget(w, cold, st, l, entry);
      if multiset(Definitions(entry.outputs)) != multiset(w.declared[l]) {
        return Some(LoadFailed);
      }
      Yield(mine);
      assert GrownAt(old(st), st, l);
      ghost var before := st;
      failure := Fetch(l, entry, asker, mine);
      GrowsTransitive(old(st), before, st);
    }

    /** The outputs themselves. */
    method Fetch(l: TargetLabel, entry: TargetResult, ghost asker: TargetLabel, ghost mine: set<TargetLabel>)
      returns (failure: Option<Failure>)
      requires WorldOk() && Valid() && mine <= flights && l in st
      requires st[l].changeHash != "" && Honest(w, st[l].changeHash, entry)
      modifies this
      ensures Proceeds(mine) && LoadsOnly(asker, mine) && (loads == old(loads) || LoadsOneMore(asker, mine))
      ensures failure == None ==> st[l].outputsLoaded
      ensures intact ==> failure == None
    {
      GrowsReflexive(st);
      if asker !in mine {
        CountLoad(asker, mine);
      }
      var missing: bool := *;
      if missing && !intact {
        return Some(LoadFailed);
      }
      Conclude(l, entry, mine);
      return None;
    }

    /** Loads count for the callback that asks for them, but not inside a flight. */
    twostate predicate LoadsOneMore(asker: TargetLabel, mine: set<TargetLabel>)
      reads this
    {
      asker !in mine && loads == OneMore(old(loads), asker)
    }

    /** No command is counted, and loads for no other callback. */
    twostate predicate LoadsOnly(asker: TargetLabel, mine: set<TargetLabel>)
      reads this
    {
      starts == old(starts) && if asker in mine then loads == old(loads) else SameElsewhere(old(loads), loads, asker)
    }

    /** The end of loading or executing: the outputs are in place and their hash is known. */
    method Conclude(l: TargetLabel, entry: TargetResult, ghost mine: set<TargetLabel>)
      requires WorldOk() && Valid() && mine <= flights && l in st
      requires st[l].changeHash != "" && Honest(w, st[l].changeHash, entry)
      modifies `st
      ensures Guarantee(mine, {}) && Kept(mine)
      ensures st == old(st)[l := old(st)[l].(outputsLoaded := true, outputHash := entry.outputHash)]
    {
      EntryMatchesCold(w, cold, st, l, entry);
      assert StateOk(w, cold, st, l);
      Store(l, st[l].(outputsLoaded := true, outputHash := entry.outputHash), mine);
    }

    /** executeTarget: needed resources, the command, then OnTargetComplete. */
    method ExecuteTarget(l: TargetLabel, isTainted: bool, ghost mine: set<TargetLabel>)
      returns (failure: Option<Failure>)
      requires WorldOk() && Valid() && mine <= flights && l in st && st[l].changeHash != ""
      requires DependenciesLoaded(w, st, l)
      modifies this
      ensures Proceeds(mine) && Started(l, l in mine, failure == None) && loads == old(loads)
      ensures failure == None ==> st[l].outputsLoaded && l in executed && (WritesNow(l) ==> st[l].changeHash in cache)
      ensures reliable && cold[l].output != "" ==> failure == None
    {
      var outputs;
      outputs, failure := RunCommand(l, mine);
      if failure != None {
        return;
      }
      ghost var before := st;
      assert GrownAt(old(st), before, l);
      failure := AfterCommand(l, outputs, isTainted, mine);
      GrowsTransitive(old(st), before, st);
    }

    method AfterCommand(l: TargetLabel, outputs: seq<OutputRef>, isTainted: bool, ghost mine: set<TargetLabel>)
      returns (failure: Option<Failure>)
      requires WorldOk() && Valid() && mine <= flights && l in st && st[l].changeHash != ""
      requires w.run(st[l].changeHash) == Some(outputs)
      modifies this
      ensures Kept(mine)
      ensures failure == None ==> st[l].outputsLoaded && l in executed && (WritesNow(l) ==> st[l].changeHash in cache)
      ensures reliable ==> failure == None
    {
      failure := OnTargetComplete(l, outputs, mine);
      if failure == None {
        Settle(l, isTainted, mine);
      }
    }

    /** The command counts as executed, and the taint goes, unless clearing it fails. */
    method Settle(l: TargetLabel, isTainted: bool, ghost mine: set<TargetLabel>)
      requires Valid() && mine <= flights && l in st
      modifies `tainted, `executed
      ensures Kept(mine) && l in executed
    {
      NoteExecution(l, mine);
      var cleared: bool := *;
      if isTainted && cleared {
        ClearTaint(l, mine);
      }
    }

    /**
     A command that a flight re-runs is not counted; that of a callback is, at most once and if
     it `must` have run.
     */
    twostate predicate Started(l: TargetLabel, rerun: bool, must: bool)
      reads this
    {
      if rerun then starts == old(starts)
      else starts == OneMore(old(starts), l) || (!must && starts == old(starts))
    }

    /** An entry of `l` is written at once: in synchronous mode, or when there is nothing to upload. */
    predicate WritesNow(l: TargetLabel) {
      !asyncWrites || (l in w.declared && w.declared[l] == [])
    }

    /** The needed resources and the command, either of which may fail. */
    method RunCommand(l: TargetLabel, ghost mine: set<TargetLabel>)
      returns (outputs: seq<OutputRef>, failure: Option<Failure>)
      requires WorldOk() && Valid() && mine <= flights && l in st && st[l].changeHash != ""
      modifies this
      ensures Proceeds(mine) && Started(l, l in mine, failure == None) && loads == old(loads)
      ensures failure == None ==> w.run(old(st[l].changeHash)) == Some(outputs)
      ensures reliable && cold[l].output != "" ==> failure == None
    {
      GrowsReflexive(st);
      assert StateOk(w, cold, st, l) && ColdAt(w, cold, l);
      var started, interrupted: bool := *, *;
      if !started && !reliable {
        return [], Some(ResourceFailed);
      }
      if l !in mine {
        CountStart(l, mine);
      }
      var outcome := w.run(st[l].changeHash);
      if outcome == None || (interrupted && !reliable) {
        return [], Some(CommandFailed);
      }
      Yield(mine);
      return outcome.value, None;
    }

    /** OnTargetComplete: `written` may be collected in any order. */
    method OnTargetComplete(l: TargetLabel, written: seq<OutputRef>, ghost mine: set<TargetLabel>)
      returns (failure: Option<Failure>)
      requires WorldOk() && Valid() && mine <= flights && l in st && st[l].changeHash != ""
      requires w.run(st[l].changeHash) == Some(written)
      modifies this
      ensures Kept(mine)
      ensures failure == None ==> st[l].outputsLoaded
      ensures failure == None && WritesNow(l) ==> st[l].changeHash in cache
      ensures reliable ==> failure == None
    {
      GrowsReflexive(st);
      assert StateOk(w, cold, st, l) && ColdAt(w, cold, l);
      assert w.LeavesDeclared(l, st[l].changeHash);
      SameLength(Definitions(written), w.declared[l]);
      var change := st[l].changeHash;
      var entry := TargetResult(change, change, []);
      if w.declared[l] != [] {
        var prepared, outputs: seq<OutputRef> := *, *;
        if !prepared && !reliable {
          return Some(WriteFailed);
        }
        if multiset(outputs) != multiset(written) {
          outputs := written;
        }
        entry := TargetResult(change, w.hashOutputs(multiset(outputs)), outputs);
      }
      Conclude(l, entry, mine);
      ghost var before := st;
      failure := PersistPreparedTarget(entry, mine);
      GrowsTransitive(old(st), before, st);
      assert GrownAt(before, st, l);
    }

    /** PersistPreparedTarget: now, or handed to the I/O pool, whose later write is Publish. */
    method PersistPreparedTarget(entry: TargetResult, ghost mine: set<TargetLabel>) returns (failure: Option<Failure>)
      requires WorldOk() && Valid() && mine <= flights && Honest(w, entry.changeHash, entry)
      modifies this
      ensures Kept(mine)
      ensures failure == None && (!asyncWrites || entry.outputs == []) ==> entry.changeHash in cache
      ensures reliable ==> failure == None
    {
      Yield(mine);
      var succeeds: bool := *;
      if !succeeds && !reliable {
        return Some(WriteFailed);
      }
      if !asyncWrites || entry.outputs == [] {
        ghost var before := st;
        Publish(entry, mine);
        GrowsTransitive(old(st), before, st);
      }
      return None;
    }

    // Dependencies ------------------------------------------------------------------------

    /** LoadDependencyOutputs: all direct dependencies are loaded, re-running those that cannot be. */
    method LoadDependencyOutputs(l: TargetLabel, ghost mine: set<TargetLabel>) returns (failure: Option<Failure>)
      requires WorldOk() && Valid() && mine <= flights && l in st && DependenciesHashed(w, st, l)
      requires forall m :: m in mine ==> m == l || Reaches(w.g, l, m)
      modifies this
      ensures Proceeds(mine) && LoadsOnly(l, mine)
      ensures failure == None ==> DependenciesLoaded(w, st, l)
      ensures reliable ==> Forgivable(failure)
      decreases Ancestors(w.g, l), 0
    {
      var dependencies := w.dependencies[l];
      GrowsReflexive(st);
      for i := 0 to |dependencies|
        invariant Proceeds(mine) && LoadsOnly(l, mine)
        invariant AllLoaded(st, dependencies[..i])
      {
        ghost var before, loaded := st, loads;
        HashedStays(old(st), st, dependencies);
        failure := LoadNext(l, i, mine);
        GrowsTransitive(old(st), before, st);
        LoadsTransitive(l, mine, old(loads), loaded, loads);
        if failure != None {
          return;
        }
      }
      assert dependencies[..|dependencies|] == dependencies;
      HashedStays(old(st), st, dependencies);
      failure := None;
    }

    lemma LoadsTransitive(asker: TargetLabel, mine: set<TargetLabel>, a: map<TargetLabel, nat>,
                          b: map<TargetLabel, nat>, c: map<TargetLabel, nat>)
      requires if asker in mine then a == b == c else SameElsewhere(a, b, asker) && SameElsewhere(b, c, asker)
      ensures if asker in mine then a == c else SameElsewhere(a, c, asker)
    {
      if asker !in mine {
        SameElsewhereTransitive(a, b, c, asker);
      }
    }

    /** One dependency of the loop, when those before it are loaded. */
    method LoadNext(l: TargetLabel, i: nat, ghost mine: set<TargetLabel>) returns (failure: Option<Failure>)
      requires WorldOk() && Valid() && mine <= flights && DependenciesHashed(w, st, l)
      requires i < |w.dependencies[l]| && AllLoaded(st, w.dependencies[l][..i])
      requires forall m :: m in mine ==> m == l || Reaches(w.g, l, m)
      modifies this
      ensures Proceeds(mine) && LoadsOnly(l, mine)
      ensures failure == None ==> AllLoaded(st, w.dependencies[l][..i + 1])
      ensures reliable ==> Forgivable(failure)
      decreases Ancestors(w.g, l), 0, 0
    {
      var d := w.dependencies[l][i];
      DependencySmaller(w, d, l);
      BelowDependency(w, d, l, mine);
      failure := LoadDependency(d, l, mine);
      if failure == None {
        LoadedStays(old(st), st, w.dependencies[l][..i]);
        LoadedNext(st, w.dependencies[l], i);
      }
    }

    method LoadDependency(d: TargetLabel, ghost asker: TargetLabel, ghost mine: set<TargetLabel>)
      returns (failure: Option<Failure>)
      requires WorldOk() && Valid() && mine <= flights && d in st && st[d].outputHash != ""
      requires asker in w.dependencies && d in w.dependencies[asker]
      requires WaitsBelow(w.g, mine, d)
      modifies this
      ensures Proceeds(mine) && LoadsOnly(asker, mine)
      ensures failure == None ==> st[d].outputsLoaded
      ensures intact && old(st[d].changeHash) in old(cache) ==> failure == None
      ensures reliable ==> Forgivable(failure)
      decreases Ancestors(w.g, d), 3
    {
      GrowsReflexive(st);
      if st[d].outputsLoaded {
        return None;
      }
      failure := LoadFromCache(d, asker, mine);
      if failure == None {
        return;
      }
      ghost var before, loaded := st, loads;
      assert GrownAt(old(st), before, d);
      failure := Rerun(d, asker, mine);
      GrowsTransitive(old(st), before, st);
      LoadsTransitive(asker, mine, old(loads), loaded, loads);
    }

    method LoadFromCache(d: TargetLabel, ghost asker: TargetLabel, ghost mine: set<TargetLabel>)
      returns (failure: Option<Failure>)
      requires WorldOk() && Valid() && mine <= flights && d in st && st[d].outputHash != ""
      requires asker in w.dependencies && d in w.dependencies[asker]
      modifies this
      ensures Proceeds(mine) && LoadsOnly(asker, mine)
      ensures failure == None ==> st[d].outputsLoaded
      ensures intact && old(st[d].changeHash) in old(cache) ==> failure == None
    {
      assert StateOk(w, cold, st, d);
      Yield(mine);
      assert GrownAt(old(st), st, d) && StateOk(w, cold, st, d);
      var readable: bool := *;
      if (!readable && !intact) || st[d].changeHash !in cache {
        return Some(LoadFailed);
      }
      ghost var before := st;
      failure := LoadOutputs(d, cache[st[d].changeHash], asker, mine);
      GrowsTransitive(old(st), before, st);
    }

    /** rerunGroup.Do: one task leads, the others wait for what it reports. */
    method Rerun(d: TargetLabel, ghost asker: TargetLabel, ghost mine: set<TargetLabel>)
      returns (failure: Option<Failure>)
      requires WorldOk() && Valid() && mine <= flights && d in st && st[d].outputHash != ""
      requires WaitsBelow(w.g, mine, d)
      modifies this
      ensures Proceeds(mine) && LoadsOnly(asker, mine)
      ensures failure == None ==> st[d].outputsLoaded
      ensures reliable ==> Forgivable(failure)
      decreases Ancestors(w.g, d), 2
    {
      if asker !in mine {
        CountLoad(asker, mine);
      }
      if d in flights {
        failure := Follow(d, mine);
      } else {
        failure := Lead(d, mine);
      }
    }

    method Follow(d: TargetLabel, ghost mine: set<TargetLabel>) returns (failure: Option<Failure>)
      requires Valid() && mine <= flights && d in flights && WaitsBelow(w.g, mine, d)
      modifies this
      ensures Kept(mine)
      ensures failure == None ==> d in st && st[d].outputsLoaded
      ensures reliable ==> Forgivable(failure)
    {
      Yield(mine);
      if d in flights {
        return Some(LeaderUnfinished);
      }
      assert ReportOk(reliable, st, reports, d);
      return reports[d];
    }

    method Lead(d: TargetLabel, ghost mine: set<TargetLabel>) returns (failure: Option<Failure>)
      requires WorldOk() && Valid() && mine <= flights && d in st && st[d].outputHash != ""
      requires d !in flights && WaitsBelow(w.g, mine, d)
      modifies this
      ensures Kept(mine)
      ensures failure == None ==> st[d].outputsLoaded
      ensures reliable ==> Forgivable(failure)
      decreases Ancestors(w.g, d), 1
    {
      BeginFlight(d, mine + {d});
      ghost var before := st;
      failure := LeadToEnd(d, mine);
      GrowsTransitive(old(st), before, st);
    }

    /** From the start of the flight to its report. */
    method LeadToEnd(d: TargetLabel, ghost mine: set<TargetLabel>) returns (failure: Option<Failure>)
      requires WorldOk() && Valid() && mine + {d} <= flights && d in st && st[d].outputHash != ""
      requires d !in mine && WaitsBelow(w.g, mine, d)
      modifies this
      ensures Kept(mine)
      ensures failure == None ==> st[d].outputsLoaded
      ensures reliable ==> Forgivable(failure)
      decreases Ancestors(w.g, d), 1, 2
    {
      ghost var reran;
      failure, reran := RerunUnlessLoaded(d, mine + {d});
      ghost var before := st;
      EndFlight(d, failure, reran, mine + {d});
      GrowsTransitive(old(st), before, st);
    }

    method RerunUnlessLoaded(d: TargetLabel, ghost mine: set<TargetLabel>)
      returns (failure: Option<Failure>, ghost reran: bool)
      requires WorldOk() && Valid() && d in mine && mine <= flights && d in st && st[d].outputHash != ""
      requires forall m :: m in mine ==> m == d || Reaches(w.g, d, m)
      modifies this
      ensures Kept(mine)
      ensures failure == None ==> st[d].outputsLoaded
      ensures reliable ==> Forgivable(failure)
      ensures reran ==> failure == None && reruns[d] == 0
      decreases Ancestors(w.g, d), 1, 1
    {
      GrowsReflexive(st);
      assert StateOk(w, cold, st, d) && RerunOk(st, reruns, d);
      if st[d].outputsLoaded {
        return None, false;
      }
      failure := Reexecute(d, mine);
      reran := failure == None;
    }

    method Reexecute(d: TargetLabel, ghost mine: set<TargetLabel>) returns (failure: Option<Failure>)
      requires WorldOk() && Valid() && d in mine && mine <= flights && d in st && st[d].outputHash != ""
      requires forall m :: m in mine ==> m == d || Reaches(w.g, d, m)
      modifies this
      ensures Kept(mine)
      ensures failure == None ==> d in st && st[d].outputsLoaded
      ensures reliable ==> Forgivable(failure)
      decreases Ancestors(w.g, d), 1, 0
    {
      assert StateOk(w, cold, st, d);
      failure := LoadDependencyOutputs(d, mine);
      if failure == None {
        ghost var before := st;
        assert GrownAt(old(st), st, d);
        failure := ExecuteTarget(d, false, mine);
        GrowsTransitive(old(st), before, st);
      }
    }

    // The walk ----------------------------------------------------------------------------

    /**
     Outputs that a callback loads: in minimal mode none for a cache hit, and otherwise those of
     its own target, at most once.
     */
    twostate predicate LoadsOk(l: TargetLabel, hit: bool)
      reads this
    {
      && SameElsewhere(old(loads), loads, l)
      && (minimal && hit ==> loads == old(loads))
      && (!minimal ==> loads == old(loads) || loads == OneMore(old(loads), l))
    }

    /** getTaskFunc: use the entry of the change hash, or execute. */
    method TaskFunc(l: TargetLabel) returns (result: CacheResult, failure: Option<Failure>)
      requires WorldOk() && Valid() && l in st && st[l].changeHash != "" && DependenciesCompleted(w, minimal, st, l)
      modifies this
      ensures Proceeds({}) && StartsOk(l, old(starts), starts, result, failure)
      ensures LoadsOk(l, result == CacheHit)
      ensures failure == None ==> Completed(minimal, st, l)
      ensures reliable && cold[l].output != "" ==> Forgivable(failure) && (!minimal ==> failure == None)
      ensures reliable && failure == None && l in old(tainted) ==> l in executed
      ensures failure == None && WritesNow(l) ==> st[l].changeHash in cache
      ensures intact && old(st[l].changeHash) in old(cache) && l !in old(tainted) ==>
                result == CacheHit && failure == None
    {
      var used, isTainted := TryCache(l);
      if used {
        return CacheHit, None;
      }
      ghost var before := st;
      assert GrownAt(old(st), before, l);
      CompletedStays(w, minimal, old(st), before, l);
      failure := Execute(l, isTainted);
      GrowsTransitive(old(st), before, st);
      result := CacheMiss;
    }

    /** The part of getTaskFunc before the command: an entry is used unless the target is tainted. */
    method TryCache(l: TargetLabel) returns (used: bool, isTainted: bool)
      requires WorldOk() && Valid() && l in st && st[l].changeHash != ""
      modifies this
      ensures Proceeds({}) && starts == old(starts) && LoadsOk(l, minimal)
      ensures used ==> Completed(minimal, st, l) && st[l].changeHash in cache
      ensures used ==> !isTainted
      ensures reliable && l in old(tainted) ==> isTainted || l in executed
      ensures intact && old(st[l].changeHash) in old(cache) && l !in old(tainted) ==> used
    {
      var entry := CheckCache(l);
      assert GrownAt(old(st), st, l);
      var unreadable: bool := *;
      isTainted := l in tainted && (reliable || !unreadable);
      used := false;
      if entry.Some? && !isTainted {
        ghost var before := st;
        used := UseEntry(l, entry.value);
        GrowsTransitive(old(st), before, st);
        assert GrownAt(before, st, l);
      }
    }

    /** The read of the target cache, which may fail even for an entry that is present. */
    method CheckCache(l: TargetLabel) returns (entry: Option<TargetResult>)
      requires Valid() && l in st && st[l].changeHash != ""
      modifies this
      ensures Kept({})
      ensures entry.Some? ==> Honest(w, old(st[l].changeHash), entry.value) && old(st[l].changeHash) in cache
      ensures intact && old(st[l].changeHash) in old(cache) ==> entry.Some?
      ensures l in st && st[l].hasCacheHit == entry.Some?
    {
      Yield({});
      assert GrownAt(old(st), st, l) && StateOk(w, cold, st, l);
      var readable: bool := *;
      entry := if (readable || intact) && st[l].changeHash in cache then Some(cache[st[l].changeHash]) else None;
      ghost var before := st;
      Store(l, st[l].(hasCacheHit := entry.Some?), {});
      GrowsTransitive(old(st), before, st);
    }

    method UseEntry(l: TargetLabel, entry: TargetResult) returns (used: bool)
      requires WorldOk() && Valid() && l in st && st[l].changeHash != "" && Honest(w, st[l].changeHash, entry)
      modifies this
      ensures Proceeds({}) && starts == old(starts) && LoadsOk(l, minimal)
      ensures used ==> Completed(minimal, st, l)
      ensures intact ==> used
    {
      GrowsReflexive(st);
      assert StateOk(w, cold, st, l);
      if minimal {
        EntryMatchesCold(w, cold, st, l, entry);
        Store(l, st[l].(outputHash := entry.outputHash), {});
        return true;
      }
      var failure := LoadOutputs(l, entry, l, {});
      assert StateOk(w, cold, st, l);
      used := failure == None;
    }

    method Execute(l: TargetLabel, isTainted: bool) returns (failure: Option<Failure>)
      requires WorldOk() && Valid() && l in st && st[l].changeHash != ""
      requires DependenciesHashed(w, st, l) && (!minimal ==> DependenciesLoaded(w, st, l))
      modifies this
      ensures Proceeds({}) && Started(l, false, failure == None)
      ensures SameElsewhere(old(loads), loads, l)
      ensures !minimal ==> loads == old(loads)
      ensures failure == None ==>
                Completed(minimal, st, l) && l in executed && (WritesNow(l) ==> st[l].changeHash in cache)
      ensures reliable && cold[l].output != "" ==> Forgivable(failure) && (!minimal ==> failure == None)
    {
      GrowsReflexive(st);
      if minimal {
        failure := LoadDependencyOutputs(l, {});
        if failure != None {
          return;
        }
      }
      ghost var before := st;
      assert GrownAt(old(st), before, l);
      failure := ExecuteTarget(l, isTainted, {});
      GrowsTransitive(old(st), before, st);
      assert l in st ==> StateOk(w, cold, st, l);
    }

    /** walkCallback: what the walker runs for a target once its dependencies have completed. */
    method WalkCallback(l: TargetLabel) returns (result: CacheResult, failure: Option<Failure>)
      requires WorldOk() && Valid() && l in st && DependenciesCompleted(w, minimal, st, l)
      modifies this
      ensures CallbackKeeps(w, Mode(), cold, old(Now()), Now(), l, result, failure)
      ensures Proceeds({}) && StartsOk(l, old(starts), starts, result, failure)
      ensures LoadsOk(l, result == CacheHit)
      ensures failure == None && WritesNow(l) ==> Published(cold, cache, l)
    {
      GrowsReflexive(st);
      CompletedStays(w, minimal, st, st, l);
      failure := SetTargetChangeHash(l, {});
      assert failure != Some(MissingDependencyHash);
      if failure != None {
        return CacheMiss, failure;
      }
      ghost var hashed := Now();
      CompletedStays(w, minimal, old(st), st, l);
      result, failure := HashedCallback(l);
      KeepsFromEarlier(w, Mode(), cold, old(Now()), hashed, Now(), l, result, failure);
    }

    /** The rest of the callback, once the change hash is set. */
    method HashedCallback(l: TargetLabel) returns (result: CacheResult, failure: Option<Failure>)
      requires WorldOk() && Valid() && l in st && st[l].changeHash != "" && DependenciesCompleted(w, minimal, st, l)
      modifies this
      ensures CallbackKeeps(w, Mode(), cold, old(Now()), Now(), l, result, failure)
      ensures Proceeds({}) && StartsOk(l, old(starts), starts, result, failure)
      ensures LoadsOk(l, result == CacheHit)
      ensures failure == None && WritesNow(l) ==> Published(cold, cache, l)
    {
      assert StateOk(w, cold, st, l);
      result, failure := TaskFunc(l);
      assert GrownAt(old(st), st, l);
    }

    /**
     A walk: callbacks run in the given order, each only if all dependencies have completed,
     and other tasks interfere throughout. `waiting` tells whether some re-run led by another
     task was still unfinished when it was needed.
     */
    method Walk(order: seq<TargetLabel>) returns (completed: set<TargetLabel>, hits: set<TargetLabel>, waiting: bool)
      requires WorldOk() && Valid()
      requires (forall l :: l in starts ==> starts[l] == 0) && forall l :: l in loads ==> loads[l] == 0
      modifies this
      ensures Proceeds({})
      ensures Walked(order, |order|, completed, hits, waiting, old(cache).Keys, old(tainted))
    {
      completed, hits, waiting := {}, {}, false;
      GrowsReflexive(st);
      NothingVisited(w, Mode(), cold, Now(), order, cache.Keys, tainted);
      for i := 0 to |order|
        invariant Proceeds({})
        invariant Walked(order, i, completed, hits, waiting, old(cache).Keys, old(tainted))
      {
        ghost var before := st;
        completed, hits, waiting := VisitNext(order, i, completed, hits, waiting, old(cache).Keys, old(tainted));
        GrowsTransitive(old(st), before, st);
      }
    }

    /** What a walk that began with these entries and taints has reached after `i` targets. */
    ghost predicate Walked(order: seq<TargetLabel>, i: nat, completed: set<TargetLabel>, hits: set<TargetLabel>,
                           waiting: bool, entries: set<string>, taints: set<TargetLabel>)
      requires WorldOk()
      reads this
    {
      WalkedTo(w, Mode(), cold, Now(), order, i, completed, hits, waiting, entries, taints)
    }

    method VisitNext(order: seq<TargetLabel>, i: nat, done: set<TargetLabel>, before: set<TargetLabel>,
                     wasWaiting: bool, ghost entries: set<string>, ghost taints: set<TargetLabel>)
      returns (completed: set<TargetLabel>, hits: set<TargetLabel>, waiting: bool)
      requires WorldOk() && Valid() && i < |order| && Walked(order, i, done, before, wasWaiting, entries, taints)
      modifies this
      ensures Proceeds({}) && Walked(order, i + 1, completed, hits, waiting, entries, taints)
    {
      ghost var earlier := Now();
      var hit, stuck;
      completed, hit, stuck := Visit(order[i], done);
      hits, waiting := if hit then before + {order[i]} else before, wasWaiting || stuck;
      WalkedByOne(w, Mode(), cold, earlier, Now(), order, i, done, before, wasWaiting, entries, taints, completed,
                  hit, stuck);
    }

    method Visit(l: TargetLabel, done: set<TargetLabel>) returns (completed: set<TargetLabel>, hit: bool, stuck: bool)
      requires WorldOk() && Valid() && AllCompleted(minimal, st, done) && ClosedUnderDependencies(w, done)
      modifies this
      ensures Proceeds({}) && Visited(w, Mode(), cold, old(Now()), Now(), l, done, completed, hit, stuck)
      ensures StartsSeen(l, old(starts), starts, l in completed - done, hit) && (hit ==> l in completed)
      ensures LoadsOk(l, hit)
    {
      completed, hit, stuck := done, false, false;
      GrowsReflexive(st);
      if l in st && Ready(w, l, done) {
        var result, failure := WalkCallback(l);
        CompletedAllStay(minimal, old(st), st, done);
        assert StateOk(w, cold, st, l);
        if failure == None {
          completed := done + {l};
          ClosedByOne(w, done, l);
        }
        hit := result == CacheHit;
        stuck := minimal && failure == Some(LeaderUnfinished);
      }
    }
  }

  /** What one visit adds to the counted starts. */
  ghost predicate StartsSeen(l: TargetLabel, before: map<TargetLabel, nat>, after: map<TargetLabel, nat>,
                             completes: bool, hit: bool)
  {
    && (after == before || after == OneMore(before, l))
    && (hit ==> after == before)
    && (completes && !hit ==> after == OneMore(before, l))
  }

  /** Among the targets visited so far, the hits are those that completed without a start of their command. */
  ghost predicate HitsCounted(order: seq<TargetLabel>, i: nat, completed: set<TargetLabel>, hits: set<TargetLabel>,
                              starts: map<TargetLabel, nat>)
    requires i <= |order|
  {
    && hits <= completed
    && (NoDuplicates(order) ==>
          && (forall l {:trigger starts[l]} :: l in starts ==> starts[l] <= if l in order[..i] then 1 else 0)
          && (forall l {:trigger l in hits} :: l in completed && l in starts ==> (l in hits <==> starts[l] == 0)))
  }

  /** In minimal mode the hits so far have loaded nothing; otherwise each target was loaded at most once. */
  ghost predicate LoadsCounted(minimal: bool, order: seq<TargetLabel>, i: nat, hits: set<TargetLabel>,
                               loads: map<TargetLabel, nat>)
    requires i <= |order|
  {
    NoDuplicates(order) ==>
      forall l {:trigger loads[l]} :: l in loads ==>
        && (l !in order[..i] ==> loads[l] == 0)
        && (minimal && l in hits ==> loads[l] == 0)
        && (!minimal ==> loads[l] <= 1)
  }

  lemma LoadedByOne(minimal: bool, order: seq<TargetLabel>, i: nat, hits: set<TargetLabel>,
                    before: map<TargetLabel, nat>, hit: bool, after: map<TargetLabel, nat>)
    requires i < |order| && LoadsCounted(minimal, order, i, hits, before)
    requires SameElsewhere(before, after, order[i]) && forall l :: l in hits ==> l in order[..i]
    requires minimal && hit ==> after == before
    requires !minimal ==> after == before || after == OneMore(before, order[i])
    ensures LoadsCounted(minimal, order, i + 1, if hit then hits + {order[i]} else hits, after)
  {
    assert order[..i + 1] == order[..i] + [order[i]];
    if NoDuplicates(order) {
      assert order[i] !in order[..i];
      forall l | l in after && l != order[i] ensures after[l] == before[l] {
        assert SameCount(before, after, l);
      }
    }
  }

  lemma CountedByOne(order: seq<TargetLabel>, i: nat, done: set<TargetLabel>, hits: set<TargetLabel>,
                     before: map<TargetLabel, nat>, completed: set<TargetLabel>, hit: bool,
                     after: map<TargetLabel, nat>)
    requires i < |order| && HitsCounted(order, i, done, hits, before)
    requires (forall l :: l in done ==> l in order[..i]) && done <= completed <= done + {order[i]}
    requires StartsSeen(order[i], before, after, order[i] in completed - done, hit) && (hit ==> order[i] in completed)
    ensures HitsCounted(order, i + 1, completed, if hit then hits + {order[i]} else hits, after)
  {
    var l := order[i];
    assert order[..i + 1] == order[..i] + [l];
    assert NoDuplicates(order) ==> l !in order[..i];
  }

  ghost predicate AllPublished(cold: map<TargetLabel, Cold>, cache: map<string, TargetResult>, ls: set<TargetLabel>) {
    forall l {:trigger Published(cold, cache, l)} :: l in ls ==> Published(cold, cache, l)
  }

  predicate Published(cold: map<TargetLabel, Cold>, cache: map<string, TargetResult>, l: TargetLabel) {
    l in cold && cold[l].change in cache
  }

  lemma PublishedByOne(cold: map<TargetLabel, Cold>, cache: map<string, TargetResult>, done: set<TargetLabel>,
                       cache': map<string, TargetResult>, completed: set<TargetLabel>)
    requires AllPublished(cold, cache, done) && cache.Keys <= cache'.Keys
    requires AllPublished(cold, cache', completed - done)
    ensures AllPublished(cold, cache', completed)
  {
    forall l | l in completed ensures Published(cold, cache', l) {
      assert l in done ==> Published(cold, cache, l);
      assert l !in done ==> l in completed - done;
    }
  }

  /** Whatever had an entry and no taint at the start completes as a cache hit. */
  ghost predicate UsedEntries(cold: map<TargetLabel, Cold>, entries: set<string>, tainted: set<TargetLabel>,
                              completed: set<TargetLabel>, hits: set<TargetLabel>)
  {
    forall l {:trigger l in hits} ::
      l in completed && l in cold && cold[l].change in entries && l !in tainted ==> l in hits
  }

  lemma UsedByOne(cold: map<TargetLabel, Cold>, entries: set<string>, tainted: set<TargetLabel>,
                  done: set<TargetLabel>, hits: set<TargetLabel>, entries': set<string>, tainted': set<TargetLabel>,
                  completed: set<TargetLabel>, hits': set<TargetLabel>)
    requires UsedEntries(cold, entries, tainted, done, hits)
    requires UsedEntries(cold, entries', tainted', completed - done, hits')
    requires entries <= entries' && tainted' <= tainted
    ensures UsedEntries(cold, entries, tainted, completed, hits + hits')
  {
    assert completed <= done + (completed - done);
  }

  predicate Ready(w: World, l: TargetLabel, done: set<TargetLabel>) {
    l in w.dependencies && forall d :: d in w.dependencies[l] ==> d in done
  }

  ghost predicate ClosedUnderDependencies(w: World, ls: set<TargetLabel>) {
    forall l {:trigger Ready(w, l, ls)} :: l in ls ==> Ready(w, l, ls)
  }

  lemma ClosedByOne(w: World, done: set<TargetLabel>, l: TargetLabel)
    requires ClosedUnderDependencies(w, done) && Ready(w, l, done)
    ensures ClosedUnderDependencies(w, done + {l})
  {
    forall k | k in done + {l} ensures Ready(w, k, done + {l}) {
      assert k != l ==> Ready(w, k, done);
    }
  }

  ghost predicate AllCompleted(minimal: bool, st: map<TargetLabel, TargetState>, ls: set<TargetLabel>) {
    forall l {:trigger Completed(minimal, st, l)} :: l in ls ==> Completed(minimal, st, l)
  }

  /** Every dependency of a target of the order comes earlier. */
  ghost predicate TargetsInOrder(w: World, order: seq<TargetLabel>) {
    forall i :: 0 <= i < |order| ==>
      order[i] in w.dependencies && forall d :: d in w.dependencies[order[i]] ==> d in order[..i]
  }

  /** A build from scratch gets to the target and its command succeeds. */
  ghost predicate Succeeds(w: World, cold: map<TargetLabel, Cold>, l: TargetLabel)
    requires w.GraphOk() && cold.Keys == w.dependencies.Keys && l in w.dependencies.Keys
    decreases Ancestors(w.g, l)
  {
    && cold[l].output != ""
    && forall d :: d in w.dependencies[l] ==> (DependencySmaller(w, d, l); Succeeds(w, cold, d))
  }

  /** What a walk that began with these entries and taints has reached after `i` targets. */
  ghost predicate WalkedTo(w: World, settings: Settings, cold: map<TargetLabel, Cold>, s: Snapshot,
                           order: seq<TargetLabel>, i: nat, completed: set<TargetLabel>, hits: set<TargetLabel>,
                           waiting: bool, entries: set<string>, taints: set<TargetLabel>)
    requires w.GraphOk() && cold.Keys == w.dependencies.Keys
  {
    && i <= |order| && (forall l :: l in completed ==> l in order[..i])
    && entries <= s.cache.Keys && s.tainted <= taints <= s.tainted + s.executed
    && HitsCounted(order, i, completed, hits, s.starts) && LoadsCounted(settings.minimal, order, i, hits, s.loads)
    && AllCompleted(settings.minimal, s.st, completed) && ClosedUnderDependencies(w, completed)
    && (settings.reliable ==> completed * taints <= s.executed)
    && (!settings.asyncWrites ==> AllPublished(cold, s.cache, completed))
    && (settings.reliable && settings.intact ==> UsedEntries(cold, entries, taints, completed, hits))
    && (waiting ==> settings.minimal)
    && (settings.reliable && !waiting && TargetsInOrder(w, order) ==>
          AsFarAsPossible(w, cold, order[..i], completed))
  }

  lemma NothingVisited(w: World, settings: Settings, cold: map<TargetLabel, Cold>, s: Snapshot,
                       order: seq<TargetLabel>, entries: set<string>, taints: set<TargetLabel>)
    requires w.GraphOk() && cold.Keys == w.dependencies.Keys
    requires (forall l :: l in s.starts ==> s.starts[l] == 0) && forall l :: l in s.loads ==> s.loads[l] == 0
    requires entries == s.cache.Keys && taints == s.tainted
    ensures WalkedTo(w, settings, cold, s, order, 0, {}, {}, false, entries, taints)
  {
  }

  lemma AllVisited(w: World, settings: Settings, cold: map<TargetLabel, Cold>, s: Snapshot, order: seq<TargetLabel>,
                   completed: set<TargetLabel>, hits: set<TargetLabel>, waiting: bool, entries: set<string>,
                   taints: set<TargetLabel>)
    requires w.GraphOk() && cold.Keys == w.dependencies.Keys
    requires WalkedTo(w, settings, cold, s, order, |order|, completed, hits, waiting, entries, taints)
    ensures forall l :: l in completed ==> l in order && Completed(settings.minimal, s.st, l)
    ensures settings.reliable ==> forall l :: l in completed && l in taints ==> l in s.executed
    ensures settings.reliable && !waiting && TargetsInOrder(w, order) ==> AsFarAsPossible(w, cold, order, completed)
  {
    assert order[..|order|] == order;
    forall l | l in completed ensures Completed(settings.minimal, s.st, l) {
    }
    forall l | settings.reliable && l in completed && l in taints ensures l in s.executed {
      assert l in completed * taints;
    }
  }

  /** What the visit of one more target adds. */
  ghost predicate Visited(w: World, settings: Settings, cold: map<TargetLabel, Cold>, a: Snapshot, b: Snapshot,
                          l: TargetLabel, done: set<TargetLabel>, completed: set<TargetLabel>, hit: bool, stuck: bool)
    requires cold.Keys == w.dependencies.Keys
  {
    && AllCompleted(settings.minimal, b.st, completed) && ClosedUnderDependencies(w, completed)
    && done <= completed <= done + {l}
    && (settings.reliable ==> (completed - done) * a.tainted <= b.executed)
    && (!settings.asyncWrites ==> AllPublished(cold, b.cache, completed - done))
    && (settings.reliable && settings.intact ==>
          UsedEntries(cold, a.cache.Keys, a.tainted, completed - done, if hit then {l} else {}))
    && (stuck ==> settings.minimal)
    && (settings.reliable && !stuck && l in w.dependencies ==>
          completed == if Ready(w, l, done) && cold[l].output != "" then done + {l} else done)
  }

  lemma WalkedByOne(w: World, settings: Settings, cold: map<TargetLabel, Cold>, a: Snapshot, b: Snapshot,
                    order: seq<TargetLabel>, i: nat, done: set<TargetLabel>, before: set<TargetLabel>,
                    wasWaiting: bool, entries: set<string>, taints: set<TargetLabel>, completed: set<TargetLabel>,
                    hit: bool, stuck: bool)
    requires w.GraphOk() && cold.Keys == w.dependencies.Keys && i < |order|
    requires WalkedTo(w, settings, cold, a, order, i, done, before, wasWaiting, entries, taints)
    requires MarksStay(a.tainted, a.executed, a.cache.Keys, b.tainted, b.executed, b.cache.Keys)
    requires StartsSeen(order[i], a.starts, b.starts, order[i] in completed - done, hit)
    requires hit ==> order[i] in completed
    requires SameElsewhere(a.loads, b.loads, order[i]) && (settings.minimal && hit ==> b.loads == a.loads)
    requires !settings.minimal ==> b.loads == a.loads || b.loads == OneMore(a.loads, order[i])
    requires Visited(w, settings, cold, a, b, order[i], done, completed, hit, stuck)
    ensures WalkedTo(w, settings, cold, b, order, i + 1, completed, if hit then before + {order[i]} else before,
                     wasWaiting || stuck, entries, taints)
  {
    assert order[..i + 1] == order[..i] + [order[i]];
    CountedByOne(order, i, done, before, a.starts, completed, hit, b.starts);
    LoadedByOne(settings.minimal, order, i, before, a.loads, hit, b.loads);
    if settings.reliable && settings.intact {
      var more := if hit then {order[i]} else {};
      UsedByOne(cold, entries, taints, done, before, a.cache.Keys, a.tainted, completed, more);
      assert before + more == if hit then before + {order[i]} else before;
    }
    if !settings.asyncWrites {
      PublishedByOne(cold, a.cache, done, b.cache, completed);
    }
    if settings.reliable && !wasWaiting && !stuck && TargetsInOrder(w, order) {
      FurtherByOne(w, cold, order, i, done, completed);
    }
  }

  /** Exactly the targets that a build from scratch completes. */
  ghost predicate AsFarAsPossible(w: World, cold: map<TargetLabel, Cold>, order: seq<TargetLabel>,
                                  completed: set<TargetLabel>)
    requires w.GraphOk() && cold.Keys == w.dependencies.Keys
  {
    forall l :: l in order ==> l in w.dependencies.Keys && (l in completed <==> Succeeds(w, cold, l))
  }

  lemma FurtherByOne(w: World, cold: map<TargetLabel, Cold>, order: seq<TargetLabel>, i: nat,
                     before: set<TargetLabel>, after: set<TargetLabel>)
    requires w.GraphOk() && cold.Keys == w.dependencies.Keys && i < |order| && TargetsInOrder(w, order)
    requires AsFarAsPossible(w, cold, order[..i], before) && forall l :: l in before ==> l in order[..i]
    requires after == if Ready(w, order[i], before) && cold[order[i]].output != "" then before + {order[i]} else before
    ensures AsFarAsPossible(w, cold, order[..i + 1], after)
  {
    var l := order[i];
    assert Succeeds(w, cold, l) <==> Ready(w, l, before) && cold[l].output != "";
    assert order[..i + 1] == order[..i] + [l];
  }

  lemma CompletedAllStay(minimal: bool, a: map<TargetLabel, TargetState>, b: map<TargetLabel, TargetState>,
                         ls: set<TargetLabel>)
    requires Grows(a, b) && AllCompleted(minimal, a, ls)
    ensures AllCompleted(minimal, b, ls)
  {
    forall l | l in ls ensures Completed(minimal, b, l) {
      assert Completed(minimal, a, l) && GrownAt(a, b, l);
    }
  }

  // Main results --------------------------------------------------------------------------

  ghost predicate MatchesCold(cold: map<TargetLabel, Cold>, st: map<TargetLabel, TargetState>, l: TargetLabel) {
    l in st && l in cold && st[l].changeHash == cold[l].change && st[l].outputHash == cold[l].output
  }

  /** What callbacks and re-runs have done in a build. */
  datatype Effects = Effects(
    reruns: map<TargetLabel, nat>,
    executed: set<TargetLabel>,
    starts: map<TargetLabel, nat>,
    loads: map<TargetLabel, nat>)

  /** What a build leaves: target states, completed targets, cache hits, a wait cut short, and entries. */
  datatype Report = Report(
    final: map<TargetLabel, TargetState>,
    completed: set<TargetLabel>,
    hits: set<TargetLabel>,
    waiting: bool,
    left: map<string, TargetResult>)

  /**
   Cached builds refine cold builds: whatever entries and taints the build starts with,
   whichever loads fail and in whichever mode it loads outputs, a completed target has the
   hashes of a build from scratch, and the entries left behind still record real executions.
   No dependency is re-executed successfully more than once on behalf of its dependants. On
   reliable infrastructure exactly the targets complete that a build from scratch completes,
   every tainted one of them after an execution, and every untainted one with an intact
   entry as a cache hit. The hits are the completed targets whose command no callback has
   started; in minimal mode they load nothing, and otherwise no callback loads twice.
   */
  method Build(w: World, settings: Settings, cache: map<string, TargetResult>, tainted: set<TargetLabel>,
               order: seq<TargetLabel>)
    returns (report: Report, ghost effects: Effects)
    requires w.Valid() && HonestCache(w, cache)
    ensures HonestCache(w, report.left)
    ensures forall l :: l in report.completed ==> l in order && Completed(settings.minimal, report.final, l)
    ensures ClosedUnderDependencies(w, report.completed)
    ensures forall cold, l :: IsCold(w, cold) && l in report.completed ==> MatchesCold(cold, report.final, l)
    ensures RerunsOk(report.final, effects.reruns)
    ensures effects.starts.Keys == effects.loads.Keys == set l | l in order
    ensures report.hits <= report.completed
    ensures NoDuplicates(order) ==>
              && (forall l :: l in order ==> effects.starts[l] <= 1)
              && (forall l :: l in report.completed ==> (l in report.hits <==> effects.starts[l] == 0))
    ensures NoDuplicates(order) ==>
              && (settings.minimal ==> forall l :: l in report.hits ==> effects.loads[l] == 0)
              && (!settings.minimal ==> forall l :: l in order ==> effects.loads[l] <= 1)
    ensures settings.reliable ==> forall l :: l in report.completed && l in tainted ==> l in effects.executed
    ensures report.waiting ==> settings.minimal
    ensures forall cold :: IsCold(w, cold) && settings.reliable && !report.waiting && TargetsInOrder(w, order) ==>
              AsFarAsPossible(w, cold, order, report.completed)
    ensures forall cold :: IsCold(w, cold) && !settings.asyncWrites ==>
              AllPublished(cold, report.left, report.completed)
    ensures forall cold :: IsCold(w, cold) && settings.reliable && settings.intact ==>
              UsedEntries(cold, cache.Keys, tainted, report.completed, report.hits)
  {
    ghost var cold := ColdExists(w);
    report, effects := RunExecutor(w, settings, cache, tainted, order, cold);
    forall other | IsCold(w, other) ensures other == cold {
      ColdSame(w, cold, other);
    }
  }

  method RunExecutor(w: World, settings: Settings, cache: map<string, TargetResult>, tainted: set<TargetLabel>,
                     order: seq<TargetLabel>, ghost cold: map<TargetLabel, Cold>)
    returns (report: Report, ghost effects: Effects)
    requires w.Valid() && IsCold(w, cold) && HonestCache(w, cache)
    ensures HonestCache(w, report.left) && RerunsOk(report.final, effects.reruns)
    ensures forall l :: l in report.completed ==> l in order && Completed(settings.minimal, report.final, l)
    ensures ClosedUnderDependencies(w, report.completed)
    ensures forall l :: l in report.completed ==> MatchesCold(cold, report.final, l)
    ensures effects.starts.Keys == effects.loads.Keys == set l | l in order
    ensures HitsCounted(order, |order|, report.completed, report.hits, effects.starts)
    ensures LoadsCounted(settings.minimal, order, |order|, report.hits, effects.loads)
    ensures settings.reliable ==> forall l :: l in report.completed && l in tainted ==> l in effects.executed
    ensures report.waiting ==> settings.minimal
    ensures settings.reliable && !report.waiting && TargetsInOrder(w, order) ==>
              AsFarAsPossible(w, cold, order, report.completed)
    ensures !settings.asyncWrites ==> AllPublished(cold, report.left, report.completed)
    ensures settings.reliable && settings.intact ==>
              UsedEntries(cold, cache.Keys, tainted, report.completed, report.hits)
  {
    var executor := new Executor(w, settings, cache, tainted, cold, set l | l in order);
    var completed, hits, waiting := executor.Walk(order);
    AllVisited(w, settings, cold, executor.Now(), order, completed, hits, waiting, cache.Keys, tainted);
    report := Report(executor.st, completed, hits, waiting, executor.cache);
    effects := Effects(executor.reruns, executor.executed, executor.starts, executor.loads);
    forall l | l in completed ensures MatchesCold(cold, report.final, l) {
      assert Completed(settings.minimal, report.final, l) && StateOk(w, cold, report.final, l);
    }
  }

  lemma ColdSame(w: World, a: map<TargetLabel, Cold>, b: map<TargetLabel, Cold>)
    requires w.GraphOk() && IsCold(w, a) && IsCold(w, b)
    ensures a == b
  {
    forall l | l in w.dependencies.Keys ensures a[l] == b[l] {
      ColdUnique(w, a, b, l);
    }
  }

  /**
   After an edit (`edited` differs from `original` in anything but what commands do for a
   change hash), an incremental build agrees with a build from an empty cache on every
   target both complete; and, if nothing but commands and cache reads fails, both complete
   the same targets.
   */
  method IncrementalBuild(original: World, edited: World, before: Settings, settings: Settings,
                          cache: map<string, TargetResult>, tainted: set<TargetLabel>,
                          orderBefore: seq<TargetLabel>, order: seq<TargetLabel>)
    returns (incremental: Report, clean: Report)
    requires original.Valid() && edited.Valid() && HonestCache(original, cache)
    requires edited.run == original.run && edited.hashOutputs == original.hashOutputs
    ensures forall l :: l in incremental.completed && l in clean.completed ==>
              && l in incremental.final && l in clean.final
              && incremental.final[l].changeHash == clean.final[l].changeHash
              && incremental.final[l].outputHash == clean.final[l].outputHash
    ensures settings.reliable && !incremental.waiting && TargetsInOrder(edited, order) ==>
              incremental.completed == clean.completed
    ensures incremental.waiting ==> settings.minimal
  {
    ghost var cold := ColdExists(edited);
    ghost var effects;
    incremental, effects := Build(original, before, cache, tainted, orderBefore);
    forall h | h in incremental.left ensures Honest(edited, h, incremental.left[h]) {
      assert Honest(original, h, incremental.left[h]);
    }
    incremental, effects := Build(edited, settings, incremental.left, tainted, order);
    clean, effects := Build(edited, settings.(minimal := false), map[], {}, order);
    forall l | l in incremental.completed && l in clean.completed
      ensures MatchesCold(cold, incremental.final, l) && MatchesCold(cold, clean.final, l)
    {
    }
  }

  /** What a build has completed, a build from scratch completes. */
  lemma {:induction false} ClosedSucceeds(w: World, cold: map<TargetLabel, Cold>, ls: set<TargetLabel>, l: TargetLabel)
    requires w.GraphOk() && cold.Keys == w.dependencies.Keys && ClosedUnderDependencies(w, ls)
    requires forall k :: k in ls ==> k in cold && cold[k].output != ""
    requires l in ls
    ensures l in w.dependencies.Keys && Succeeds(w, cold, l)
    decreases Ancestors(w.g, l)
  {
    assert Ready(w, l, ls);
    forall d | d in w.dependencies[l] ensures d in w.dependencies.Keys && Succeeds(w, cold, d) {
      DependencySmaller(w, d, l);
      ClosedSucceeds(w, cold, ls, d);
    }
  }

  /**
   Building again after a build with synchronous writes finds an entry for everything that
   completed; and over all of these targets, dependencies first, it completes them all.
   */
  method BuildAgain(w: World, first: Settings, second: Settings, cache: map<string, TargetResult>,
                    tainted: set<TargetLabel>, firstOrder: seq<TargetLabel>, secondOrder: seq<TargetLabel>)
    returns (built: Report, again: Report, ghost effects: Effects)
    requires w.Valid() && HonestCache(w, cache)
    requires !first.asyncWrites && second.reliable && second.intact
    ensures built.completed * again.completed <= again.hits
    ensures NoDuplicates(secondOrder) ==>
              forall l :: l in built.completed && l in again.completed ==>
                l in effects.starts && effects.starts[l] == 0
    ensures TargetsInOrder(w, secondOrder) && !again.waiting
              && (forall l :: l in built.completed ==> l in secondOrder) ==>
              built.completed <= again.completed
  {
    ghost var cold := ColdExists(w);
    built, effects := Build(w, first, cache, tainted, firstOrder);
    again, effects := Build(w, second, built.left, {}, secondOrder);
    assert UsedEntries(cold, built.left.Keys, {}, again.completed, again.hits);
    forall l | l in built.completed * again.completed ensures l in again.hits {
      assert Published(cold, built.left, l);
    }
    forall l | l in built.completed ensures l in w.dependencies.Keys && Succeeds(w, cold, l) {
      assert forall k :: k in built.completed ==>
               MatchesCold(cold, built.final, k) && Completed(first.minimal, built.final, k);
      ClosedSucceeds(w, cold, built.completed, l);
    }
  }

  lemma SameLength<T>(a: seq<T>, b: seq<T>)
    requires multiset(a) == multiset(b)
    ensures |a| == |b|
  {
    assert |multiset(a)| == |a| && |multiset(b)| == |b|;
  }
}
