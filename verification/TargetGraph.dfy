/** The mutable graph of build nodes (internal/dag/graph.go). */
module TargetGraphs {
  import opened Results
  import opened Labels
  import opened BuildNodes
  import opened Digraphs

  datatype GraphError = SelfLoop | UnknownNode(missing: TargetLabel)

  function WithEdge(g: Digraph, a: TargetLabel, b: TargetLabel): Digraph {
    g.(outs := g.outs[a := g.Out(a) + [b]], ins := g.ins[b := g.In(b) + [a]])
  }

  lemma CountAppended(s: seq<TargetLabel>, last: TargetLabel, n: TargetLabel)
    ensures multiset(s + [last])[n] == multiset(s)[n] + if n == last then 1 else 0
  {
  }

  lemma WithEdgeCounts(g: Digraph, a: TargetLabel, b: TargetLabel, x: TargetLabel, y: TargetLabel)
    ensures WithEdge(g, a, b).Multiplicity(x, y) == g.Multiplicity(x, y) + if x == a && y == b then 1 else 0
    ensures multiset(WithEdge(g, a, b).In(y))[x] == multiset(g.In(y))[x] + if x == a && y == b then 1 else 0
  {
    CountAppended(g.Out(a), b, y);
    CountAppended(g.In(b), a, x);
    assert WithEdge(g, a, b).Out(x) == if x == a then g.Out(a) + [b] else g.Out(x);
    assert WithEdge(g, a, b).In(y) == if y == b then g.In(b) + [a] else g.In(y);
  }

  /** One more edge from a to b, and nothing else. */
  lemma WithEdgeValid(g: Digraph, a: TargetLabel, b: TargetLabel)
    requires g.Valid() && a in g.nodes && b in g.nodes
    ensures WithEdge(g, a, b).Valid()
    ensures forall x, y :: WithEdge(g, a, b).Edge(x, y) <==> g.Edge(x, y) || (x == a && y == b)
  {
    var h := WithEdge(g, a, b);
    forall x, y
      ensures h.Multiplicity(x, y) == multiset(h.In(y))[x]
      ensures h.Edge(x, y) <==> g.Edge(x, y) || (x == a && y == b)
    {
      WithEdgeCounts(g, a, b, x, y);
      MirroredAt(g, x, y);
      MultiplicityOfEdge(g, x, y);
      MultiplicityOfEdge(h, x, y);
    }
    EndpointsKnown(g, h, a, b);
  }

  lemma MirroredAt(g: Digraph, x: TargetLabel, y: TargetLabel)
    requires g.Valid()
    ensures g.Multiplicity(x, y) == multiset(g.In(y))[x]
  {
  }

  lemma MultiplicityOfEdge(g: Digraph, x: TargetLabel, y: TargetLabel)
    ensures g.Edge(x, y) <==> g.Multiplicity(x, y) > 0
  {
  }

  lemma EndpointsKnown(g: Digraph, h: Digraph, a: TargetLabel, b: TargetLabel)
    requires g.Valid() && a in g.nodes && b in g.nodes && h.nodes == g.nodes
    requires forall x, y :: h.Edge(x, y) <==> g.Edge(x, y) || (x == a && y == b)
    ensures forall x, y :: h.Edge(x, y) ==> x in h.nodes && y in h.nodes
  {
  }

  class DirectedTargetGraph {
    var nodes: map<TargetLabel, BuildNode>
    var outEdges: map<TargetLabel, seq<TargetLabel>>
    var inEdges: map<TargetLabel, seq<TargetLabel>>

    constructor (nodes: map<TargetLabel, BuildNode>)
      requires forall l :: l in nodes ==> nodes[l].targetLabel == l
      ensures Valid() && this.nodes == nodes
      ensures outEdges == map[] && inEdges == map[]
    {
      this.nodes := nodes;
      outEdges, inEdges := map[], map[];
    }

    function Model(): Digraph
      reads this
    {
      Digraph(nodes.Keys, outEdges, inEdges)
    }

    ghost predicate Valid()
      reads this
    {
      Model().Valid() && forall l :: l in nodes ==> nodes[l].targetLabel == l
    }

    predicate HasNode(node: BuildNode)
      reads this
    {
      node.targetLabel in nodes
    }

    method AddNode(node: BuildNode)
      requires Valid()
      modifies this`nodes
      ensures Valid()
      ensures nodes == if node.targetLabel in old(nodes) then old(nodes) else old(nodes)[node.targetLabel := node]
    {
      if !HasNode(node) {
        nodes := nodes[node.targetLabel := node];
        GrowNodes(old(Model()), Model());
      }
    }

    method AddEdge(from: BuildNode, to: BuildNode) returns (error: Option<GraphError>)
      requires Valid()
      modifies this`outEdges, this`inEdges
      ensures Valid()
      ensures error == if from == to then Some(SelfLoop)
                       else if !HasNode(from) then Some(UnknownNode(from.targetLabel))
                       else if !HasNode(to) then Some(UnknownNode(from.targetLabel))
                       else None
      ensures Model() ==
              if error == None then WithEdge(old(Model()), from.targetLabel, to.targetLabel) else old(Model())
    {
      if from == to {
        return Some(SelfLoop);
      }
      if !HasNode(from) {
        return Some(UnknownNode(from.targetLabel));
      }
      if !HasNode(to) {
        return Some(UnknownNode(from.targetLabel));
      }
      var a, b := from.targetLabel, to.targetLabel;
      WithEdgeValid(Model(), a, b);
      outEdges := outEdges[a := (if a in outEdges then outEdges[a] else []) + [b]];
      inEdges := inEdges[b := (if b in inEdges then inEdges[b] else []) + [a]];
      return None;
    }

    function GetDependencies(target: TargetLabel): seq<TargetLabel>
      reads this
    {
      Model().In(target)
    }

    /** All dependants of dependants, with repetitions along different paths. */
    method GetDescendants(target: TargetLabel) returns (descendants: seq<TargetLabel>)
      requires Valid() && Acyclic(Model())
      ensures forall d :: d in descendants <==> Reaches(Model(), target, d)
      decreases Descendants(Model(), target)
    {
      var g := Model();
      descendants := [];
      var next := g.Out(target);
      for i := 0 to |next|
        invariant forall d :: d in descendants <==>
          exists k :: 0 <= k < i && (d == next[k] || Reaches(g, next[k], d))
      {
        assert g.Edge(target, next[i]);
        DescendantsShrink(g, target, next[i]);
        var deeper := GetDescendants(next[i]);
        descendants := descendants + [next[i]] + deeper;
      }
      forall d ensures d in descendants <==> Reaches(g, target, d) {
        DescendantsByFirstEdge(g, target, d);
      }
    }

    /** All dependencies of dependencies, with repetitions along different paths. */
    method GetAncestors(target: TargetLabel) returns (ancestors: seq<TargetLabel>)
      requires Valid() && Acyclic(Model())
      ensures forall a :: a in ancestors <==> Reaches(Model(), a, target)
      decreases Ancestors(Model(), target)
    {
      var g := Model();
      ancestors := [];
      var next := g.In(target);
      for i := 0 to |next|
        invariant forall a :: a in ancestors <==>
          exists k :: 0 <= k < i && (a == next[k] || Reaches(g, a, next[k]))
      {
        EdgeMirrored(g, next[i], target);
        AncestorsShrink(g, next[i], target);
        var deeper := GetAncestors(next[i]);
        ancestors := ancestors + [next[i]] + deeper;
      }
      forall a ensures a in ancestors <==> Reaches(g, a, target) {
        AncestorsByLastEdge(g, a, target);
      }
    }

    ghost function SelectedLabels(): set<TargetLabel>
      reads this, nodes.Values
    {
      set l | l in nodes && nodes[l].isSelected
    }

    /** The other graph has exactly the selected nodes of this one. */
    ghost predicate SelectionOf(sub: DirectedTargetGraph)
      reads this, nodes.Values, sub
    {
      && sub.nodes.Keys == SelectedLabels()
      && forall l :: l in sub.nodes ==> sub.nodes[l] == nodes[l]
    }

    /** The graph on the selected nodes with every edge between two of them, as often as it occurs. */
    method GetSelectedSubgraph() returns (sub: DirectedTargetGraph)
      requires Valid()
      ensures sub.Valid() && fresh(sub)
      ensures SelectionOf(sub)
      ensures Induced(Model(), sub.Model(), SelectedLabels(), {})
    {
      sub := SelectedNodes();
      var froms := outEdges.Keys;
      while froms != {}
        invariant fresh(sub) && sub.Valid() && froms <= outEdges.Keys
        invariant SelectionOf(sub)
        invariant Induced(Model(), sub.Model(), SelectedLabels(), froms)
        decreases froms
      {
        var from :| from in froms;
        assert froms == froms - {from} + {from};
        froms := froms - {from};
        if from in nodes && nodes[from].isSelected {
          CopyEdges(sub, from, froms);
        } else {
          InducedSkip(Model(), sub.Model(), SelectedLabels(), froms, from);
        }
      }
    }

    method SelectedNodes() returns (sub: DirectedTargetGraph)
      requires Valid()
      ensures sub.Valid() && fresh(sub)
      ensures SelectionOf(sub)
      ensures Induced(Model(), sub.Model(), SelectedLabels(), outEdges.Keys)
    {
      sub := new DirectedTargetGraph(map[]);
      var todo := nodes.Keys;
      while todo != {}
        invariant fresh(sub) && sub.Valid() && sub.outEdges == map[] && sub.inEdges == map[]
        invariant todo <= nodes.Keys
        invariant sub.nodes.Keys == SelectedLabels() - todo
        invariant forall l :: l in sub.nodes ==> sub.nodes[l] == nodes[l]
        decreases todo
      {
        var l :| l in todo;
        todo := todo - {l};
        if nodes[l].isSelected {
          sub.AddNode(nodes[l]);
        }
      }
    }

    method CopyEdges(sub: DirectedTargetGraph, from: TargetLabel, ghost froms: set<TargetLabel>)
      requires Valid() && sub.Valid() && sub != this
      requires from in SelectedLabels() && from !in froms
      requires SelectionOf(sub)
      requires Induced(Model(), sub.Model(), SelectedLabels(), froms + {from})
      modifies sub`outEdges, sub`inEdges
      ensures sub.Valid() && SelectionOf(sub)
      ensures Induced(Model(), sub.Model(), SelectedLabels(), froms)
    {
      var tos := Model().Out(from);
      ghost var selected, others := SelectedLabels(), froms + {from};
      CopiedNone(Model(), sub.Model(), selected, others, from);
      assert tos[..0] == [];
      for i := 0 to |tos|
        invariant sub.Valid() && SelectionOf(sub)
        invariant Copied(Model(), sub.Model(), selected, others, from, tos[..i])
      {
        CopyNext(sub, from, tos, i, others);
      }
      assert tos[..|tos|] == tos;
      CopiedAll(Model(), sub.Model(), selected, froms, from);
    }

    method CopyNext(sub: DirectedTargetGraph, from: TargetLabel, tos: seq<TargetLabel>, i: nat,
                    ghost pending: set<TargetLabel>)
      requires Valid() && sub.Valid() && sub != this && SelectionOf(sub) && from in SelectedLabels()
      requires tos == Model().Out(from) && i < |tos|
      requires Copied(Model(), sub.Model(), SelectedLabels(), pending, from, tos[..i])
      modifies sub`outEdges, sub`inEdges
      ensures sub.Valid() && SelectionOf(sub)
      ensures Copied(Model(), sub.Model(), SelectedLabels(), pending, from, tos[..i + 1])
    {
      assert Model().Edge(from, tos[i]);
      ghost var before := sub.Model();
      CopyEdge(sub, from, tos[i]);
      CopyOne(Model(), before, sub.Model(), SelectedLabels(), pending, from, tos[..i], tos[i]);
      assert tos[..i + 1] == tos[..i] + [tos[i]];
    }

    method CopyEdge(sub: DirectedTargetGraph, from: TargetLabel, to: TargetLabel)
      requires Valid() && sub.Valid() && sub != this && SelectionOf(sub)
      requires from in SelectedLabels() && to in nodes
      modifies sub`outEdges, sub`inEdges
      ensures sub.Valid() && SelectionOf(sub)
      ensures sub.Model() ==
              if to in SelectedLabels() && to != from then WithEdge(old(sub.Model()), from, to) else old(sub.Model())
    {
      if nodes[to].isSelected {
        assert to in sub.nodes && from in sub.nodes;
        var error := sub.AddEdge(nodes[from], nodes[to]);
      }
    }
  }

  /** `h` holds the edges of `g` within the selection, self-loops and the pending sources excepted. */
  ghost predicate Induced(g: Digraph, h: Digraph, selected: set<TargetLabel>, pending: set<TargetLabel>) {
    forall a, b :: h.Multiplicity(a, b) == InducedMultiplicity(g, selected, pending, a, b)
  }

  ghost function InducedMultiplicity(
    g: Digraph, selected: set<TargetLabel>, pending: set<TargetLabel>, a: TargetLabel, b: TargetLabel): nat
  {
    if a !in pending && a in selected && b in selected && a != b then g.Multiplicity(a, b) else 0
  }

  /** As Induced, with only the first few edges out of `from` copied. */
  ghost predicate Copied(g: Digraph, h: Digraph, selected: set<TargetLabel>, pending: set<TargetLabel>,
                         from: TargetLabel, copied: seq<TargetLabel>)
  {
    forall a, b :: h.Multiplicity(a, b) == CopiedOrInduced(g, selected, pending, from, copied, a, b)
  }

  ghost function CopiedOrInduced(g: Digraph, selected: set<TargetLabel>, pending: set<TargetLabel>,
                                 from: TargetLabel, copied: seq<TargetLabel>, a: TargetLabel, b: TargetLabel): nat
  {
    if a != from then InducedMultiplicity(g, selected, pending, a, b)
    else if b in selected && b != from then multiset(copied)[b]
    else 0
  }

  lemma CopyOne(g: Digraph, h: Digraph, h': Digraph, selected: set<TargetLabel>, pending: set<TargetLabel>,
                from: TargetLabel, copied: seq<TargetLabel>, to: TargetLabel)
    requires Copied(g, h, selected, pending, from, copied)
    requires h' == if to in selected && to != from then WithEdge(h, from, to) else h
    ensures Copied(g, h', selected, pending, from, copied + [to])
  {
    forall a, b
      ensures h'.Multiplicity(a, b) == CopiedOrInduced(g, selected, pending, from, copied + [to], a, b)
    {
      assert h.Multiplicity(a, b) == CopiedOrInduced(g, selected, pending, from, copied, a, b);
      CountAppended(copied, to, b);
      WithEdgeCounts(h, from, to, a, b);
    }
  }

  lemma CopiedNone(g: Digraph, h: Digraph, selected: set<TargetLabel>, pending: set<TargetLabel>, from: TargetLabel)
    requires Induced(g, h, selected, pending) && from in pending
    ensures Copied(g, h, selected, pending, from, [])
  {
    forall a, b ensures h.Multiplicity(a, b) == CopiedOrInduced(g, selected, pending, from, [], a, b) {
      assert h.Multiplicity(a, b) == InducedMultiplicity(g, selected, pending, a, b);
    }
  }

  lemma CopiedAll(g: Digraph, h: Digraph, selected: set<TargetLabel>, pending: set<TargetLabel>, from: TargetLabel)
    requires from in selected && from !in pending
    requires Copied(g, h, selected, pending + {from}, from, g.Out(from))
    ensures Induced(g, h, selected, pending)
  {
    forall a, b ensures h.Multiplicity(a, b) == InducedMultiplicity(g, selected, pending, a, b) {
      assert h.Multiplicity(a, b) == CopiedOrInduced(g, selected, pending + {from}, from, g.Out(from), a, b);
    }
  }

  lemma InducedSkip(g: Digraph, h: Digraph, selected: set<TargetLabel>, pending: set<TargetLabel>, from: TargetLabel)
    requires Induced(g, h, selected, pending + {from}) && from !in selected
    ensures Induced(g, h, selected, pending)
  {
    forall a, b ensures h.Multiplicity(a, b) == InducedMultiplicity(g, selected, pending, a, b) {
      assert h.Multiplicity(a, b) == InducedMultiplicity(g, selected, pending + {from}, a, b);
    }
  }

  lemma GrowNodes(g: Digraph, h: Digraph)
    requires g.Valid() && h.outs == g.outs && h.ins == g.ins && g.nodes <= h.nodes
    ensures h.Valid()
  {
    forall a, b
      ensures h.Multiplicity(a, b) == multiset(h.In(b))[a] && (h.Edge(a, b) ==> a in h.nodes && b in h.nodes)
    {
      assert g.Multiplicity(a, b) == multiset(g.In(b))[a];
      assert g.Edge(a, b) == h.Edge(a, b);
    }
  }

  lemma DescendantsByFirstEdge(g: Digraph, n: TargetLabel, d: TargetLabel)
    ensures Reaches(g, n, d) <==> exists k :: 0 <= k < |g.Out(n)| && (d == g.Out(n)[k] || Reaches(g, g.Out(n)[k], d))
  {
    if Reaches(g, n, d) {
      var b := FirstEdge(g, n, d);
      var k :| 0 <= k < |g.Out(n)| && g.Out(n)[k] == b;
    }
    if k :| 0 <= k < |g.Out(n)| && (d == g.Out(n)[k] || Reaches(g, g.Out(n)[k], d)) {
      assert g.Edge(n, g.Out(n)[k]);
      EdgeReaches(g, n, g.Out(n)[k]);
      if d != g.Out(n)[k] {
        ReachesTransitive(g, n, g.Out(n)[k], d);
      }
    }
  }

  lemma AncestorsByLastEdge(g: Digraph, a: TargetLabel, n: TargetLabel)
    requires g.Valid()
    ensures Reaches(g, a, n) <==> exists k :: 0 <= k < |g.In(n)| && (a == g.In(n)[k] || Reaches(g, a, g.In(n)[k]))
  {
    if Reaches(g, a, n) {
      var b := LastEdge(g, a, n);
      EdgeMirrored(g, b, n);
      var k :| 0 <= k < |g.In(n)| && g.In(n)[k] == b;
    }
    if k :| 0 <= k < |g.In(n)| && (a == g.In(n)[k] || Reaches(g, a, g.In(n)[k])) {
      EdgeMirrored(g, g.In(n)[k], n);
      EdgeReaches(g, g.In(n)[k], n);
      if a != g.In(n)[k] {
        ReachesTransitive(g, a, g.In(n)[k], n);
      }
    }
  }

  /** Dropping nodes and edges creates no path, so the selected subgraph of an acyclic graph is acyclic. */
  lemma SubgraphAcyclic(g: Digraph, sub: Digraph, selected: set<TargetLabel>)
    requires Induced(g, sub, selected, {})
    requires Acyclic(g)
    ensures Acyclic(sub)
  {
    forall p ensures !IsCycle(sub, p) {
      if IsCycle(sub, p) {
        forall i ensures StepsAlongEdge(g, p, i) {
          assert StepsAlongEdge(sub, p, i);
          if 0 <= i < |p| - 1 {
            assert sub.Multiplicity(p[i], p[i + 1]) == InducedMultiplicity(g, selected, {}, p[i], p[i + 1]);
          }
        }
        assert IsCycle(g, p);
        CycleIffNotAcyclic(g);
      }
    }
    CycleIffNotAcyclic(sub);
  }
}
