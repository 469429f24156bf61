/** Building and checking the graph (internal/analysis/analyze.go). */
module Analysis {
  import opened Results
  import opened Labels
  import opened BuildNodes
  import opened Digraphs
  import opened TargetGraphs
  import opened CycleSearches
  import opened OutputConflicts

  datatype BuildError =
    | DependencyNotFound(dependency: TargetLabel, node: TargetLabel)
    | DependsOnItself(node: TargetLabel)
    | CycleDetected(cycle: seq<TargetLabel>)
    | ConflictingOutputs(conflicts: seq<(Record, Record)>)

  ghost predicate WellLabelled(nodes: map<TargetLabel, BuildNode>) {
    forall l :: l in nodes ==> nodes[l].targetLabel == l
  }

  /** The graph whose dependency lists are the declared ones. */
  ghost predicate Describes(g: Digraph, nodes: map<TargetLabel, BuildNode>) {
    g.Valid() && g.nodes == nodes.Keys && forall l :: l in nodes ==> g.In(l) == nodes[l].dependencies
  }

  ghost predicate Depends(nodes: map<TargetLabel, BuildNode>, a: TargetLabel, b: TargetLabel) {
    b in nodes && a in nodes[b].dependencies
  }

  /** Declared dependencies that lead from a node back to itself. */
  ghost predicate DeclaredCycle(nodes: map<TargetLabel, BuildNode>, cycle: seq<TargetLabel>) {
    && |cycle| >= 2 && cycle[0] == cycle[|cycle| - 1]
    && forall i :: DependsAt(nodes, cycle, i)
  }

  ghost predicate DependsAt(nodes: map<TargetLabel, BuildNode>, p: seq<TargetLabel>, i: int) {
    0 <= i < |p| - 1 ==> Depends(nodes, p[i], p[i + 1])
  }

  lemma CyclesAreDeclared(g: Digraph, nodes: map<TargetLabel, BuildNode>, cycle: seq<TargetLabel>)
    requires Describes(g, nodes)
    ensures IsCycle(g, cycle) <==> DeclaredCycle(nodes, cycle)
  {
    forall i ensures StepsAlongEdge(g, cycle, i) <==> DependsAt(nodes, cycle, i) {
      if 0 <= i < |cycle| - 1 {
        EdgeMirrored(g, cycle[i], cycle[i + 1]);
      }
    }
  }

  /** The edges into the visited nodes are complete, and there are no others. */
  ghost predicate EdgesOf(g: Digraph, nodes: map<TargetLabel, BuildNode>, visited: set<TargetLabel>, l: TargetLabel,
                          upTo: nat)
  {
    && g.nodes == nodes.Keys
    && (forall n :: n in visited ==> n in nodes && g.In(n) == nodes[n].dependencies)
    && (forall n :: n !in visited && n != l ==> g.In(n) == [])
    && (l !in visited ==> l in nodes && upTo <= |nodes[l].dependencies| && g.In(l) == nodes[l].dependencies[..upTo])
  }

  /**
   Adds the edges of all nodes, in any order of the nodes. On success every dependency is a
   known node other than its dependant.
   */
  method AddAllEdges(graph: DirectedTargetGraph) returns (error: Option<BuildError>)
    requires graph.Valid() && WellLabelled(graph.nodes)
    requires graph.outEdges == map[] && graph.inEdges == map[]
    modifies graph`outEdges, graph`inEdges
    ensures graph.Valid()
    ensures error == None ==> Describes(graph.Model(), graph.nodes)
    ensures error == None ==> forall a, b :: Depends(graph.nodes, a, b) ==> a in graph.nodes && a != b
    ensures match error
      case None => true
      case Some(DependencyNotFound(a, b)) => Depends(graph.nodes, a, b) && a !in graph.nodes
      case Some(DependsOnItself(a)) => Depends(graph.nodes, a, a)
      case Some(_) => false
  {
    var todo := graph.nodes.Keys;
    ghost var visited := {};
    while todo != {}
      invariant graph.Valid()
      invariant todo <= graph.nodes.Keys && visited !! todo && graph.nodes.Keys <= visited + todo
      invariant todo != {} ==> forall l :: l in todo ==> EdgesOf(graph.Model(), graph.nodes, visited, l, 0)
      invariant todo == {} ==> Describes(graph.Model(), graph.nodes)
      invariant forall a, b :: b in visited && Depends(graph.nodes, a, b) ==> a in graph.nodes && a != b
      decreases todo
    {
      var l :| l in todo;
      todo := todo - {l};
      error := AddEdgesInto(graph, visited, l);
      if error != None {
        return;
      }
      visited := visited + {l};
    }
    error := None;
  }

  method AddEdgesInto(graph: DirectedTargetGraph, ghost visited: set<TargetLabel>, l: TargetLabel)
    returns (error: Option<BuildError>)
    requires graph.Valid() && WellLabelled(graph.nodes) && l in graph.nodes && l !in visited
    requires EdgesOf(graph.Model(), graph.nodes, visited, l, 0)
    modifies graph`outEdges, graph`inEdges
    ensures graph.Valid()
    ensures error == None ==> EdgesOf(graph.Model(), graph.nodes, visited, l, |graph.nodes[l].dependencies|)
    ensures error == None ==> forall a :: Depends(graph.nodes, a, l) ==> a in graph.nodes && a != l
    ensures match error
      case None => true
      case Some(DependencyNotFound(a, b)) => Depends(graph.nodes, a, b) && a !in graph.nodes
      case Some(DependsOnItself(a)) => Depends(graph.nodes, a, a)
      case Some(_) => false
  {
    var node := graph.nodes[l];
    var dependencies := node.dependencies;
    for i := 0 to |dependencies|
      invariant graph.Valid()
      invariant EdgesOf(graph.Model(), graph.nodes, visited, l, i)
      invariant forall a :: a in dependencies[..i] ==> a in graph.nodes && a != l
    {
      var a := dependencies[i];
      assert Depends(graph.nodes, a, l);
      if a !in graph.nodes {
        return Some(DependencyNotFound(a, l));
      }
      var edgeError := graph.AddEdge(graph.nodes[a], node);
      if edgeError != None {
        return Some(DependsOnItself(l));
      }
      assert dependencies[..i + 1] == dependencies[..i] + [a];
    }
    assert dependencies[..|dependencies|] == dependencies;
    return None;
  }

  /**
   The graph of the declared dependencies, or the first problem met. A graph comes back
   exactly when every dependency is known, nothing depends on itself, directly or through
   others, and no two unordered targets declare overlapping outputs.
   */
  method BuildGraph(nodes: map<TargetLabel, BuildNode>)
    returns (result: Result<DirectedTargetGraph, BuildError>, ghost g: Digraph)
    requires WellLabelled(nodes)
    ensures match result
      case Ok(graph) =>
        && fresh(graph) && graph.Valid() && graph.nodes == nodes && g == graph.Model()
        && Describes(g, nodes) && Acyclic(g)
        && (forall a, b :: Depends(nodes, a, b) ==> a in nodes && a != b)
        && (forall cycle :: !DeclaredCycle(nodes, cycle))
        && (forall a, b :: !Conflict(g, nodes, a, b))
      case Err(DependencyNotFound(a, b)) => Depends(nodes, a, b) && a !in nodes
      case Err(DependsOnItself(a)) => Depends(nodes, a, a)
      case Err(CycleDetected(cycle)) => DeclaredCycle(nodes, cycle)
      case Err(ConflictingOutputs(conflicts)) =>
        && Describes(g, nodes) && conflicts != []
        && forall c :: c in conflicts ==> Conflict(g, nodes, c.0, c.1)
  {
    var graph := new DirectedTargetGraph(nodes);
    g := graph.Model();
    var edgeError := AddAllEdges(graph);
    if edgeError != None {
      return Err(edgeError.value), g;
    }
    g := graph.Model();
    var cycle, hasCycle := FindCycle(graph.Model());
    CyclesAreDeclared(g, nodes, cycle);
    if hasCycle {
      return Err(CycleDetected(cycle)), g;
    }
    var conflicts := DetectOutputConflicts(graph.Model(), graph.nodes);
    if conflicts != [] {
      return Err(ConflictingOutputs(conflicts)), g;
    }
    forall c ensures !DeclaredCycle(nodes, c) {
      CyclesAreDeclared(g, nodes, c);
      CycleIffNotAcyclic(g);
    }
    return Ok(graph), g;
  }
}
