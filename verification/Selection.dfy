/** Selecting nodes for a build (internal/selection/build_selection.go). */
module Selections {
  import opened Labels
  import opened Patterns
  import opened BuildNodes
  import opened Digraphs
  import opened TargetGraphs
  import opened Walkers

  /**
   Selection options. `targetMatches` stands for the type and tag filters of targets,
   `platformMatches` for their platform selectors.
   */
  datatype Selector = Selector(
    patterns: seq<TargetPattern>,
    targetMatches: TargetLabel -> bool,
    platformMatches: TargetLabel -> bool)
  {
    predicate MatchesPatterns(l: TargetLabel) {
      patterns == [] || exists p :: p in patterns && p.Matches(l)
    }

    predicate MatchesFilters(node: BuildNode) {
      MatchesPatterns(node.targetLabel) && (node.kind == TargetNode ==> targetMatches(node.targetLabel))
    }

    predicate MatchesPlatform(node: BuildNode) {
      node.kind == TargetNode ==> platformMatches(node.targetLabel)
    }
  }

  /** The nodes the options ask for. */
  ghost function Requested(s: Selector, graph: DirectedTargetGraph): set<TargetLabel>
    reads graph
  {
    set l | l in graph.nodes && s.MatchesFilters(graph.nodes[l]) && s.MatchesPlatform(graph.nodes[l])
  }

  ghost function WrongPlatform(s: Selector, graph: DirectedTargetGraph): set<TargetLabel>
    reads graph
  {
    set l | l in graph.nodes && s.MatchesFilters(graph.nodes[l]) && !s.MatchesPlatform(graph.nodes[l])
  }

  /** Several patterns ask for what each of them asks for. */
  lemma RequestedUnion(s: Selector, graph: DirectedTargetGraph, ps: seq<TargetPattern>, qs: seq<TargetPattern>)
    requires ps != [] && qs != []
    ensures Requested(s.(patterns := ps + qs), graph) ==
              Requested(s.(patterns := ps), graph) + Requested(s.(patterns := qs), graph)
    ensures WrongPlatform(s.(patterns := ps + qs), graph) ==
              WrongPlatform(s.(patterns := ps), graph) + WrongPlatform(s.(patterns := qs), graph)
  {
    forall l ensures s.(patterns := ps + qs).MatchesPatterns(l) <==>
      s.(patterns := ps).MatchesPatterns(l) || s.(patterns := qs).MatchesPatterns(l)
    {
      assert forall p :: p in ps + qs <==> p in ps || p in qs;
    }
  }

  /** One pattern asks for the labels it matches, of those that the filters let through without a pattern. */
  lemma RequestedOne(s: Selector, graph: DirectedTargetGraph, p: TargetPattern)
    requires graph.Valid()
    ensures Requested(s.(patterns := [p]), graph) ==
              set l | l in Requested(s.(patterns := []), graph) && p.Matches(l)
  {
    forall l ensures s.(patterns := [p]).MatchesPatterns(l) <==> p.Matches(l) {
      assert p in [p];
    }
  }

  ghost predicate OffPlatform(s: Selector, graph: DirectedTargetGraph, l: TargetLabel)
    reads graph
  {
    l in graph.nodes && !s.MatchesPlatform(graph.nodes[l])
  }

  /** A requested node with an ancestor that does not match the platform. */
  ghost predicate Blocked(s: Selector, graph: DirectedTargetGraph, l: TargetLabel)
    reads graph
  {
    exists a :: OffPlatform(s, graph, a) && Reaches(graph.Model(), a, l)
  }

  ghost function WithAncestors(g: Digraph, ls: set<TargetLabel>): set<TargetLabel> {
    ls + set a | a in g.nodes && exists l :: l in ls && Reaches(g, a, l)
  }

  /** Selects everything above a node, unless an ancestor is off-platform. */
  method SelectAllAncestors(s: Selector, graph: DirectedTargetGraph, l: TargetLabel) returns (blocked: bool)
    requires graph.Valid() && Acyclic(graph.Model()) && l in graph.nodes
    modifies graph.nodes.Values
    ensures blocked <==> Blocked(s, graph, l)
    ensures !blocked ==> graph.SelectedLabels() == old(graph.SelectedLabels()) + Ancestors(graph.Model(), l)
    decreases Ancestors(graph.Model(), l), 0
  {
    var g := graph.Model();
    var dependencies := graph.GetDependencies(l);
    assert dependencies[..0] == [] && UpTo(g, []) == {};
    for i := 0 to |dependencies|
      invariant forall d :: d in dependencies[..i] ==> !OffPlatform(s, graph, d) && !Blocked(s, graph, d)
      invariant graph.SelectedLabels() == old(graph.SelectedLabels()) + UpTo(g, dependencies[..i])
    {
      var a := dependencies[i];
      EdgeMirrored(g, a, l);
      AncestorsShrink(g, a, l);
      blocked := SelectDependency(s, graph, a);
      if blocked {
        BlockedAbove(s, graph, a, l);
        return;
      }
      assert dependencies[..i + 1] == dependencies[..i] + [a];
      UpToMore(g, dependencies[..i], a);
    }
    assert dependencies[..|dependencies|] == dependencies;
    AncestorsFromDependencies(g, l);
    NotBlockedAbove(s, graph, l);
    return false;
  }

  /** Selects one dependency and everything above it. */
  method SelectDependency(s: Selector, graph: DirectedTargetGraph, a: TargetLabel) returns (blocked: bool)
    requires graph.Valid() && Acyclic(graph.Model()) && a in graph.nodes
    modifies graph.nodes.Values
    ensures blocked <==> OffPlatform(s, graph, a) || Blocked(s, graph, a)
    ensures !blocked ==> graph.SelectedLabels() == old(graph.SelectedLabels()) + {a} + Ancestors(graph.Model(), a)
    decreases Ancestors(graph.Model(), a), 1
  {
    if !s.MatchesPlatform(graph.nodes[a]) {
      return true;
    }
    SelectNode(graph, a);
    blocked := SelectAllAncestors(s, graph, a);
  }

  method SelectNode(graph: DirectedTargetGraph, l: TargetLabel)
    requires graph.Valid() && l in graph.nodes
    modifies graph.nodes[l]
    ensures graph.SelectedLabels() == old(graph.SelectedLabels()) + {l}
  {
    graph.nodes[l].Select();
    forall m | m in graph.nodes && m != l ensures graph.nodes[m] != graph.nodes[l] {
    }
  }

  /** The listed nodes and all their ancestors. */
  ghost function UpTo(g: Digraph, ls: seq<TargetLabel>): set<TargetLabel> {
    set a | a in g.nodes && exists k :: 0 <= k < |ls| && (a == ls[k] || Reaches(g, a, ls[k]))
  }

  lemma UpToMore(g: Digraph, ls: seq<TargetLabel>, a: TargetLabel)
    requires a in g.nodes
    ensures UpTo(g, ls + [a]) == UpTo(g, ls) + {a} + Ancestors(g, a)
  {
    var more := ls + [a];
    forall x | x in UpTo(g, ls) + {a} + Ancestors(g, a) ensures x in UpTo(g, more) {
      if x in UpTo(g, ls) {
        var k :| 0 <= k < |ls| && (x == ls[k] || Reaches(g, x, ls[k]));
        assert more[k] == ls[k];
      } else {
        assert more[|ls|] == a;
      }
    }
  }

  lemma AncestorsFromDependencies(g: Digraph, l: TargetLabel)
    requires g.Valid()
    ensures UpTo(g, g.In(l)) == Ancestors(g, l)
  {
    forall a ensures a in UpTo(g, g.In(l)) <==> a in Ancestors(g, l) {
      AncestorsByLastEdge(g, a, l);
    }
  }

  lemma BlockedAbove(s: Selector, graph: DirectedTargetGraph, a: TargetLabel, l: TargetLabel)
    requires OffPlatform(s, graph, a) || Blocked(s, graph, a)
    requires graph.Model().Edge(a, l)
    ensures Blocked(s, graph, l)
  {
    EdgeReaches(graph.Model(), a, l);
    if !OffPlatform(s, graph, a) {
      var x :| OffPlatform(s, graph, x) && Reaches(graph.Model(), x, a);
      ReachesTransitive(graph.Model(), x, a, l);
    }
  }

  lemma NotBlockedAbove(s: Selector, graph: DirectedTargetGraph, l: TargetLabel)
    requires graph.Valid()
    requires forall d :: d in graph.GetDependencies(l) ==> !OffPlatform(s, graph, d) && !Blocked(s, graph, d)
    ensures !Blocked(s, graph, l)
  {
    if Blocked(s, graph, l) {
      var x :| OffPlatform(s, graph, x) && Reaches(graph.Model(), x, l);
      var d := LastEdge(graph.Model(), x, l);
      EdgeMirrored(graph.Model(), d, l);
      assert false;
    }
  }

  /**
   Selects the requested nodes with all their ancestors, visiting the nodes in any order.
   It fails exactly when a requested node is blocked.
   */
  method SelectTargetsForBuild(s: Selector, graph: DirectedTargetGraph)
    returns (selectedCount: nat, platformSkipped: nat, failed: bool)
    requires graph.Valid() && Acyclic(graph.Model())
    modifies graph.nodes.Values
    ensures failed <==> exists l :: l in Requested(s, graph) && Blocked(s, graph, l)
    ensures !failed ==>
              graph.SelectedLabels() == old(graph.SelectedLabels()) + WithAncestors(graph.Model(), Requested(s, graph))
    ensures !failed ==> platformSkipped == |WrongPlatform(s, graph)|
    ensures !failed ==> selectedCount == |set l | l in graph.SelectedLabels() && graph.nodes[l].kind == TargetNode|
    ensures failed ==> selectedCount == 0 && platformSkipped == 0
  {
    platformSkipped, failed := SelectRequested(s, graph);
    if failed {
      return 0, 0, true;
    }
    selectedCount := CountSelectedTargets(graph);
  }

  /** What the first loop has done once it visited some of the nodes. */
  ghost predicate SelectedUpTo(
    g: Digraph, start: set<TargetLabel>, requested: set<TargetLabel>, wrong: set<TargetLabel>,
    visited: set<TargetLabel>, selected: set<TargetLabel>, platformSkipped: nat)
  {
    && platformSkipped == |wrong * visited|
    && selected == start + WithAncestors(g, requested * visited)
  }

  lemma OneMoreSelected(
    g: Digraph, start: set<TargetLabel>, requested: set<TargetLabel>, wrong: set<TargetLabel>,
    visited: set<TargetLabel>, selected: set<TargetLabel>, platformSkipped: nat, l: TargetLabel)
    requires SelectedUpTo(g, start, requested, wrong, visited, selected, platformSkipped) && l !in visited
    ensures SelectedUpTo(g, start, requested, wrong, visited + {l},
      if l in requested then selected + {l} + Ancestors(g, l) else selected,
      if l in wrong then platformSkipped + 1 else platformSkipped)
  {
    OneMoreVisited(wrong, visited, l);
    OneMoreVisited(requested, visited, l);
    WithOneMore(g, requested * visited, l);
  }

  lemma NoneSelected(g: Digraph, start: set<TargetLabel>, requested: set<TargetLabel>, wrong: set<TargetLabel>)
    ensures SelectedUpTo(g, start, requested, wrong, {}, start, 0)
  {
    assert requested * {} == {} && wrong * {} == {};
    assert WithAncestors(g, {}) == {};
  }

  lemma AllVisited(chosen: set<TargetLabel>, visited: set<TargetLabel>)
    requires chosen <= visited
    ensures chosen * visited == chosen
  {
  }

  method SelectRequested(s: Selector, graph: DirectedTargetGraph) returns (platformSkipped: nat, failed: bool)
    requires graph.Valid() && Acyclic(graph.Model())
    modifies graph.nodes.Values
    ensures failed <==> exists l :: l in Requested(s, graph) && Blocked(s, graph, l)
    ensures !failed ==>
              graph.SelectedLabels() == old(graph.SelectedLabels()) + WithAncestors(graph.Model(), Requested(s, graph))
    ensures !failed ==> platformSkipped == |WrongPlatform(s, graph)|
    ensures failed ==> platformSkipped == 0
  {
    ghost var g, start := graph.Model(), graph.SelectedLabels();
    ghost var requested, wrong, visited := Requested(s, graph), WrongPlatform(s, graph), {};
    var all := graph.nodes.Keys;
    var todo := all;
    platformSkipped := 0;
    NoneSelected(g, start, requested, wrong);
    while todo != {}
      invariant todo <= all && visited !! todo && all <= visited + todo
      invariant forall l :: l in requested && l in visited ==> !Blocked(s, graph, l)
      invariant SelectedUpTo(g, start, requested, wrong, visited, graph.SelectedLabels(), platformSkipped)
      decreases todo
    {
      var l :| l in todo;
      todo := todo - {l};
      OneMoreSelected(g, start, requested, wrong, visited, graph.SelectedLabels(), platformSkipped, l);
      var skipped, blocked := VisitNode(s, graph, l);
      if blocked {
        return 0, true;
      }
      visited := visited + {l};
      if skipped {
        platformSkipped := platformSkipped + 1;
      }
    }
    AllVisited(requested, visited);
    AllVisited(wrong, visited);
    failed := false;
  }

  /** Selects a requested node with its ancestors; counts a platform mismatch. */
  method VisitNode(s: Selector, graph: DirectedTargetGraph, l: TargetLabel) returns (skipped: bool, blocked: bool)
    requires graph.Valid() && Acyclic(graph.Model()) && l in graph.nodes
    modifies graph.nodes.Values
    ensures skipped <==> l in WrongPlatform(s, graph)
    ensures blocked <==> l in Requested(s, graph) && Blocked(s, graph, l)
    ensures !blocked && l in Requested(s, graph) ==>
      graph.SelectedLabels() == old(graph.SelectedLabels()) + {l} + Ancestors(graph.Model(), l)
    ensures l !in Requested(s, graph) ==> graph.SelectedLabels() == old(graph.SelectedLabels())
  {
    var node := graph.nodes[l];
    skipped, blocked := false, false;
    if s.MatchesFilters(node) {
      if !s.MatchesPlatform(node) {
        skipped := true;
        return;
      }
      SelectNode(graph, l);
      blocked := SelectAllAncestors(s, graph, l);
    }
  }

  lemma OneMoreVisited(chosen: set<TargetLabel>, visited: set<TargetLabel>, l: TargetLabel)
    requires l !in visited
    ensures chosen * (visited + {l}) == if l in chosen then chosen * visited + {l} else chosen * visited
    ensures |chosen * (visited + {l})| == |chosen * visited| + if l in chosen then 1 else 0
  {
    assert chosen * (visited + {l}) == if l in chosen then chosen * visited + {l} else chosen * visited;
  }

  lemma WithOneMore(g: Digraph, ls: set<TargetLabel>, l: TargetLabel)
    ensures WithAncestors(g, ls + {l}) == WithAncestors(g, ls) + {l} + Ancestors(g, l)
  {
  }

  method CountSelectedTargets(graph: DirectedTargetGraph) returns (count: nat)
    requires graph.Valid()
    ensures count == |set l | l in graph.SelectedLabels() && graph.nodes[l].kind == TargetNode|
  {
    count := 0;
    var todo := graph.nodes.Keys;
    ghost var counted := {};
    while todo != {}
      invariant todo <= graph.nodes.Keys
      invariant counted == set l | l in graph.SelectedLabels() && l !in todo && graph.nodes[l].kind == TargetNode
      invariant count == |counted|
      decreases todo
    {
      var l :| l in todo;
      todo := todo - {l};
      if graph.nodes[l].isSelected && graph.nodes[l].kind == TargetNode {
        count := count + 1;
        counted := counted + {l};
      }
    }
    assert counted == set l | l in graph.SelectedLabels() && graph.nodes[l].kind == TargetNode;
  }

  /** What a successful selection of unselected nodes gives the walker: a closed set, all on-platform. */
  lemma SelectionFitsWalker(s: Selector, graph: DirectedTargetGraph, failFast: bool)
    requires graph.Valid()
    requires forall l :: l in Requested(s, graph) ==> !Blocked(s, graph, l)
    requires graph.SelectedLabels() == WithAncestors(graph.Model(), Requested(s, graph))
    ensures Config(graph.Model(), graph.SelectedLabels(), failFast).Valid()
    ensures Config(graph.Model(), graph.SelectedLabels(), failFast).DependencyClosed()
    ensures forall l :: l in graph.SelectedLabels() ==> s.MatchesPlatform(graph.nodes[l])
  {
    var g, selected := graph.Model(), graph.SelectedLabels();
    forall a, n | n in selected && g.Edge(a, n) ensures a in selected {
      EdgeReaches(g, a, n);
      if n !in Requested(s, graph) {
        var l :| l in Requested(s, graph) && Reaches(g, n, l);
        ReachesTransitive(g, a, n, l);
      }
    }
    forall l | l in selected ensures s.MatchesPlatform(graph.nodes[l]) {
      if l !in Requested(s, graph) {
        var r :| r in Requested(s, graph) && Reaches(g, l, r);
        assert !Blocked(s, graph, r);
        assert !OffPlatform(s, graph, l);
      }
    }
  }
}
