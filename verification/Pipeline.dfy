/**
 From the loaded nodes to the walk (internal/loading/load_graph.go, internal/cmd/cmds/build.go):
 what checking the graph and selecting nodes give the walker.
 */
module Pipelines {
  import opened Labels
  import opened BuildNodes
  import opened Digraphs
  import opened Analysis
  import opened Selections
  import opened Walkers

  /** In every walk of the configuration: some goroutine can act, or everything has ended. */
  ghost predicate NeverStuck(c: Config) {
    forall run: seq<Walk>, i: nat :: IsRun(c, run) && i < |run| ==> Final(run[i]) || CanAct(c, run[i])
  }

  ghost predicate CanAct(c: Config, s: Walk) {
    exists step :: step != Interrupt && Enabled(c, s, step)
  }

  /** Every walk that ends uncancelled and without a failure has completed all selected nodes. */
  ghost predicate CompletesAll(c: Config) {
    forall run: seq<Walk> :: IsRun(c, run) && EndsWell(run[|run| - 1]) ==> Complete(c, run[|run| - 1])
  }

  ghost predicate Complete(c: Config, s: Walk) {
    s.completions.Keys == c.selected && forall n :: n in c.selected ==> s.CompletedOk(n)
  }

  ghost predicate EndsWell(s: Walk) {
    Final(s) && !s.contextCancelled && !SomeFailure(s)
  }

  /**
   Loads, checks and selects. When that succeeds, the walk is over exactly the requested
   nodes and their ancestors, it never gets stuck, and it leaves out none of them.
   */
  method PrepareWalk(nodes: map<TargetLabel, BuildNode>, s: Selector, failFast: bool)
    returns (ready: bool, ghost config: Config)
    requires WellLabelled(nodes) && forall l :: l in nodes ==> !nodes[l].isSelected
    modifies nodes.Values
    ensures ready ==> Describes(config.g, nodes) && config.failFast == failFast
    ensures ready ==> forall l :: l in config.selected <==> l in nodes && nodes[l].isSelected
    ensures ready ==> forall l :: l in config.selected ==> s.MatchesPlatform(nodes[l])
    ensures ready ==> forall l :: l in nodes && s.MatchesFilters(nodes[l]) && s.MatchesPlatform(nodes[l]) ==>
              l in config.selected
    ensures ready ==> NeverStuck(config) && CompletesAll(config)
  {
    var result;
    ghost var g;
    result, g := BuildGraph(nodes);
    config := Config(g, {}, failFast);
    if result.Err? {
      return false, config;
    }
    var graph := result.value;
    assert graph.SelectedLabels() == {};
    var selectedCount, platformSkipped, failed := SelectTargetsForBuild(s, graph);
    if failed || selectedCount == 0 {
      return false, config;
    }
    config := Config(graph.Model(), graph.SelectedLabels(), failFast);
    SelectionFitsWalker(s, graph, failFast);
    WalksWell(config);
    ready := true;
  }

  lemma WalksWell(c: Config)
    requires c.Valid() && Acyclic(c.g) && c.DependencyClosed()
    ensures NeverStuck(c) && CompletesAll(c)
  {
    forall run: seq<Walk>, i: nat | IsRun(c, run) && i < |run| ensures Final(run[i]) || CanAct(c, run[i]) {
      WalkProgress(c, run, i);
    }
    forall run: seq<Walk> | IsRun(c, run) && EndsWell(run[|run| - 1])
      ensures Complete(c, run[|run| - 1])
    {
      AllSucceed(c, run);
    }
  }
}
