/** The depth-first search of FindCycle (internal/dag/graph.go:188-238). */
module CycleSearches {
  import opened Labels
  import opened Digraphs

  const VISITING := 1
  const VISITED := 2

  /**
   "Visiting" coincides with being on the stack, the stack is a path, and the visited
   nodes in finishing order have all their dependants before them.
   */
  ghost predicate SearchState(
    g: Digraph, visited: map<TargetLabel, int>, stack: seq<TargetLabel>, finished: seq<TargetLabel>)
  {
    && g.Valid()
    && visited.Keys <= g.nodes
    && (forall n :: n in visited ==> visited[n] == VISITING || visited[n] == VISITED)
    && NoDuplicates(stack)
    && (forall n :: n in stack <==> n in visited && visited[n] == VISITING)
    && (forall i :: StepsAlongEdge(g, stack, i))
    && NoDuplicates(finished)
    && (forall n :: n in finished <==> n in visited && visited[n] == VISITED)
    && DependantsFirst(g, finished)
  }

  lemma EnterNode(
    g: Digraph, visited: map<TargetLabel, int>, stack: seq<TargetLabel>, finished: seq<TargetLabel>, n: TargetLabel)
    requires SearchState(g, visited, stack, finished)
    requires n in g.nodes && n !in visited
    requires stack != [] ==> g.Edge(stack[|stack| - 1], n)
    ensures SearchState(g, visited[n := VISITING], stack + [n], finished)
  {
    forall i ensures StepsAlongEdge(g, stack + [n], i) {
      assert StepsAlongEdge(g, stack, i);
    }
  }

  lemma LeaveNode(
    g: Digraph, visited: map<TargetLabel, int>, stack: seq<TargetLabel>, finished: seq<TargetLabel>, n: TargetLabel)
    requires SearchState(g, visited, stack + [n], finished)
    requires forall j :: 0 <= j < |g.Out(n)| ==> g.Out(n)[j] in finished
    ensures SearchState(g, visited[n := VISITED], stack, finished + [n])
  {
    assert (stack + [n])[|stack|] == n;
    forall i ensures StepsAlongEdge(g, stack, i) {
      assert StepsAlongEdge(g, stack + [n], i);
    }
    FinishNode(g, finished, n);
    forall i | 0 <= i < |stack| ensures stack[i] == (stack + [n])[i] && stack[i] != n {
    }
    forall x | x in stack ensures x in stack + [n] {
    }
    forall x | x in stack + [n] ensures x == n || x in stack {
    }
  }

  /** The variables captured by the recursive closure in FindCycle. */
  class CycleSearch {
    const g: Digraph
    var visited: map<TargetLabel, int>
    var stack: seq<TargetLabel>
    var cycle: seq<TargetLabel>
    ghost var finished: seq<TargetLabel>

    constructor (g: Digraph)
      requires g.Valid()
      ensures Valid() && this.g == g
      ensures stack == [] && finished == [] && visited == map[]
    {
      this.g := g;
      visited, stack, cycle, finished := map[], [], [], [];
    }

    predicate Unvisited(n: TargetLabel)
      reads this
    {
      n !in visited
    }

    ghost predicate Valid()
      reads this
    {
      SearchState(g, visited, stack, finished)
    }

    /** Explores everything below an unvisited node, or stops with a cycle. */
    method DepthFirstSearch(target: TargetLabel) returns (found: bool)
      requires Valid()
      requires target in g.nodes && Unvisited(target)
      requires stack != [] ==> g.Edge(stack[|stack| - 1], target)
      modifies this
      ensures found ==> IsCycle(g, cycle)
      ensures !found ==> Valid() && stack == old(stack) && target in finished
      ensures !found ==> old(finished) <= finished
      ensures old(visited).Keys <= visited.Keys <= g.nodes
      decreases g.nodes - visited.Keys, 0
    {
      Enter(target);
      found := VisitNeighbors(target);
      if !found {
        Leave(target, old(stack));
      }
    }

    method Enter(target: TargetLabel)
      requires Valid() && target in g.nodes && Unvisited(target)
      requires stack != [] ==> g.Edge(stack[|stack| - 1], target)
      modifies this`visited, this`stack
      ensures Valid() && stack == old(stack) + [target] && visited.Keys == old(visited).Keys + {target}
    {
      EnterNode(g, visited, stack, finished, target);
      visited := visited[target := VISITING];
      stack := stack + [target];
    }

    method Leave(target: TargetLabel, ghost below: seq<TargetLabel>)
      requires Valid() && stack == below + [target] && forall n :: n in g.Out(target) ==> n in finished
      modifies this`visited, this`stack, this`finished
      ensures Valid() && stack == below && finished == old(finished) + [target] && visited.Keys == old(visited).Keys
    {
      LeaveNode(g, visited, below, finished, target);
      assert target in stack;
      stack := stack[..|stack| - 1];
      visited := visited[target := VISITED];
      finished := finished + [target];
    }

    method VisitNeighbors(target: TargetLabel) returns (found: bool)
      requires Valid()
      requires stack != [] && stack[|stack| - 1] == target
      modifies this
      ensures found ==> IsCycle(g, cycle)
      ensures !found ==> Valid() && stack == old(stack) && forall n :: n in g.Out(target) ==> n in finished
      ensures !found ==> old(finished) <= finished
      ensures old(visited).Keys <= visited.Keys <= g.nodes
      decreases g.nodes - visited.Keys, 2
    {
      var neighbors := g.Out(target);
      for i := 0 to |neighbors|
        invariant Valid() && stack == old(stack)
        invariant old(finished) <= finished
        invariant old(visited).Keys <= visited.Keys
        invariant forall j :: 0 <= j < i ==> neighbors[j] in finished
      {
        assert g.Edge(target, neighbors[i]);
        found := VisitNeighbor(target, neighbors[i]);
        if found {
          return;
        }
      }
      found := false;
    }

    /** Descends into an unvisited neighbour; a neighbour on the stack closes a cycle. */
    method VisitNeighbor(target: TargetLabel, neighbor: TargetLabel) returns (found: bool)
      requires Valid()
      requires stack != [] && stack[|stack| - 1] == target && g.Edge(target, neighbor)
      modifies this
      ensures found ==> IsCycle(g, cycle)
      ensures !found ==> Valid() && stack == old(stack) && neighbor in finished
      ensures !found ==> old(finished) <= finished
      ensures old(visited).Keys <= visited.Keys <= g.nodes
      decreases g.nodes - visited.Keys, 1
    {
      found := false;
      if Unvisited(neighbor) {
        found := DepthFirstSearch(neighbor);
      } else if visited[neighbor] == VISITING {
        CloseCycle(neighbor);
        found := true;
      }
    }

    /** Cuts the cycle out of the stack; the node being visited is always found on it. */
    method CloseCycle(neighbor: TargetLabel)
      requires Valid()
      requires neighbor in visited && visited[neighbor] == VISITING
      requires stack != [] && g.Edge(stack[|stack| - 1], neighbor)
      modifies this`cycle
      ensures IsCycle(g, cycle)
    {
      var index := -1;
      var i := |stack|;
      while i > 0
        invariant 0 <= i <= |stack|
        invariant index == -1 && neighbor !in stack[i..]
      {
        i := i - 1;
        if stack[i] == neighbor {
          index := i;
          break;
        }
      }
      if index == -1 {
        assert false;
      } else {
        cycle := stack[index..] + [neighbor];
        forall k ensures StepsAlongEdge(g, stack[index..], k) {
          assert StepsAlongEdge(g, stack, index + k);
        }
        PathExtended(g, stack[index..], neighbor);
      }
    }
  }

  lemma FinishNode(g: Digraph, finished: seq<TargetLabel>, target: TargetLabel)
    requires NoDuplicates(finished) && DependantsFirst(g, finished)
    requires target !in finished
    requires forall b :: g.Edge(target, b) ==> b in finished
    ensures NoDuplicates(finished + [target]) && DependantsFirst(g, finished + [target])
  {
    var order := finished + [target];
    forall i, b | 0 <= i < |order| && g.Edge(order[i], b) ensures b in order[..i] {
      assert order[..i] == finished[..i];
    }
  }

  /** Starts the search at every node still unvisited, in any order. */
  method FindCycle(g: Digraph) returns (cycle: seq<TargetLabel>, found: bool)
    requires g.Valid()
    ensures found ==> IsCycle(g, cycle)
    ensures found <==> !Acyclic(g)
    ensures !found ==> cycle == []
  {
    var search := new CycleSearch(g);
    var todo := g.nodes;
    while todo != {}
      invariant fresh(search) && search.g == g
      invariant search.Valid() && search.stack == []
      invariant todo <= g.nodes
      invariant forall n :: n in g.nodes - todo ==> n in search.finished
      decreases todo
    {
      var node :| node in todo;
      todo := todo - {node};
      if search.Unvisited(node) {
        var hit := search.DepthFirstSearch(node);
        if hit {
          cycle := search.cycle;
          CycleIffNotAcyclic(g);
          return cycle, true;
        }
      }
    }
    FinishingOrderAcyclic(g, search.finished);
    return [], false;
  }
}
