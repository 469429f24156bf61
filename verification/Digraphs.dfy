/**
 The mathematics of a build graph: adjacency lists, paths, strict reachability and
 acyclicity. An edge points from a dependency to its dependant.
 */
module Digraphs {
  import opened Labels

  /** The three maps of a DirectedTargetGraph as values. */
  datatype Digraph = Digraph(
    nodes: set<TargetLabel>,
    outs: map<TargetLabel, seq<TargetLabel>>,
    ins: map<TargetLabel, seq<TargetLabel>>)
  {
    /** Dependants; an absent entry is an empty list. */
    function Out(n: TargetLabel): seq<TargetLabel> {
      if n in outs then outs[n] else []
    }

    /** Dependencies; an absent entry is an empty list. */
    function In(n: TargetLabel): seq<TargetLabel> {
      if n in ins then ins[n] else []
    }

    predicate Edge(a: TargetLabel, b: TargetLabel) {
      b in Out(a)
    }

    /** How often the edge was added. */
    ghost function Multiplicity(a: TargetLabel, b: TargetLabel): nat {
      multiset(Out(a))[b]
    }

    /** Both edge maps record the same edges equally often, all between nodes. */
    ghost predicate Valid() {
      && (forall a, b :: Multiplicity(a, b) == multiset(In(b))[a])
      && (forall a, b :: Edge(a, b) ==> a in nodes && b in nodes)
    }
  }

  lemma EdgeMirrored(g: Digraph, a: TargetLabel, b: TargetLabel)
    requires g.Valid()
    ensures g.Edge(a, b) <==> a in g.In(b)
  {
    assert g.Multiplicity(a, b) == multiset(g.In(b))[a];
  }

  // Paths ---------------------------------------------------------------------

  ghost predicate StepsAlongEdge(g: Digraph, p: seq<TargetLabel>, i: int) {
    0 <= i < |p| - 1 ==> g.Edge(p[i], p[i + 1])
  }

  ghost predicate IsPath(g: Digraph, p: seq<TargetLabel>) {
    |p| >= 1 && forall i :: StepsAlongEdge(g, p, i)
  }

  lemma PathTail(g: Digraph, p: seq<TargetLabel>)
    requires IsPath(g, p) && |p| > 1
    ensures g.Edge(p[0], p[1]) && IsPath(g, p[1..])
  {
    assert StepsAlongEdge(g, p, 0);
    forall i ensures StepsAlongEdge(g, p[1..], i) {
      assert StepsAlongEdge(g, p, i + 1);
    }
  }

  lemma PathFront(g: Digraph, p: seq<TargetLabel>)
    requires IsPath(g, p) && |p| > 1
    ensures g.Edge(p[|p| - 2], p[|p| - 1]) && IsPath(g, p[..|p| - 1])
  {
    assert StepsAlongEdge(g, p, |p| - 2);
    var front := p[..|p| - 1];
    forall i ensures StepsAlongEdge(g, front, i) {
      assert StepsAlongEdge(g, p, i);
    }
  }

  lemma PathExtended(g: Digraph, p: seq<TargetLabel>, n: TargetLabel)
    requires IsPath(g, p) && g.Edge(p[|p| - 1], n)
    ensures IsPath(g, p + [n])
  {
    forall i ensures StepsAlongEdge(g, p + [n], i) {
      assert StepsAlongEdge(g, p, i);
    }
  }

  ghost predicate PathBetween(g: Digraph, p: seq<TargetLabel>, a: TargetLabel, b: TargetLabel) {
    IsPath(g, p) && p[0] == a && p[|p| - 1] == b
  }

  /** A path of at least one edge leads from a to b: a is a strict ancestor of b. */
  ghost predicate Reaches(g: Digraph, a: TargetLabel, b: TargetLabel) {
    exists p :: PathBetween(g, p, a, b) && |p| >= 2
  }

  ghost predicate Acyclic(g: Digraph) {
    forall n :: !Reaches(g, n, n)
  }

  /** A closed walk with its first node repeated at the end, as FindCycle reports it. */
  ghost predicate IsCycle(g: Digraph, p: seq<TargetLabel>) {
    IsPath(g, p) && |p| >= 2 && p[0] == p[|p| - 1]
  }

  lemma CycleIffNotAcyclic(g: Digraph)
    ensures Acyclic(g) <==> !exists p :: IsCycle(g, p)
  {
    if p :| IsCycle(g, p) {
      assert PathBetween(g, p, p[0], p[0]);
      assert Reaches(g, p[0], p[0]);
    }
    if !Acyclic(g) {
      var n :| Reaches(g, n, n);
      var p :| PathBetween(g, p, n, n) && |p| >= 2;
      assert IsCycle(g, p);
    }
  }

  lemma EdgeReaches(g: Digraph, a: TargetLabel, b: TargetLabel)
    requires g.Edge(a, b)
    ensures Reaches(g, a, b)
  {
    PathExtended(g, [a], b);
    assert PathBetween(g, [a] + [b], a, b);
  }

  lemma ReachesTransitive(g: Digraph, a: TargetLabel, b: TargetLabel, c: TargetLabel)
    requires Reaches(g, a, b) && Reaches(g, b, c)
    ensures Reaches(g, a, c)
  {
    var p :| PathBetween(g, p, a, b) && |p| >= 2;
    var q :| PathBetween(g, q, b, c) && |q| >= 2;
    var r := p + q[1..];
    forall i ensures StepsAlongEdge(g, r, i) {
      assert StepsAlongEdge(g, p, i) && StepsAlongEdge(g, q, i - |p| + 1);
    }
    assert PathBetween(g, r, a, c);
  }

  lemma EdgeThenReaches(g: Digraph, a: TargetLabel, b: TargetLabel, c: TargetLabel)
    requires g.Edge(a, b) && Reaches(g, b, c)
    ensures Reaches(g, a, c)
  {
    EdgeReaches(g, a, b);
    ReachesTransitive(g, a, b, c);
  }

  /** The first edge of a path. */
  lemma FirstEdge(g: Digraph, a: TargetLabel, c: TargetLabel) returns (b: TargetLabel)
    requires Reaches(g, a, c)
    ensures g.Edge(a, b) && (b == c || Reaches(g, b, c))
  {
    var p :| PathBetween(g, p, a, c) && |p| >= 2;
    b := p[1];
    PathTail(g, p);
    if |p| > 2 {
      assert PathBetween(g, p[1..], b, c);
    }
  }

  /** The last edge of a path. */
  lemma LastEdge(g: Digraph, a: TargetLabel, c: TargetLabel) returns (b: TargetLabel)
    requires Reaches(g, a, c)
    ensures g.Edge(b, c) && (a == b || Reaches(g, a, b))
  {
    var p :| PathBetween(g, p, a, c) && |p| >= 2;
    b := p[|p| - 2];
    PathFront(g, p);
    if |p| > 2 {
      assert PathBetween(g, p[..|p| - 1], a, b);
    }
  }

  lemma ReachesNodes(g: Digraph, a: TargetLabel, c: TargetLabel)
    requires g.Valid() && Reaches(g, a, c)
    ensures a in g.nodes && c in g.nodes
  {
    var first := FirstEdge(g, a, c);
    var last := LastEdge(g, a, c);
  }

  /** A set that contains every dependency of its members contains all their ancestors. */
  lemma {:induction false} ClosedUnderIn(g: Digraph, s: set<TargetLabel>, p: seq<TargetLabel>)
    requires forall a, b :: b in s && g.Edge(a, b) ==> a in s
    requires IsPath(g, p) && p[|p| - 1] in s
    ensures p[0] in s
  {
    if |p| > 1 {
      PathFront(g, p);
      ClosedUnderIn(g, s, p[..|p| - 1]);
    }
  }

  lemma AncestorStaysIn(g: Digraph, s: set<TargetLabel>, a: TargetLabel, c: TargetLabel)
    requires forall x, y :: y in s && g.Edge(x, y) ==> x in s
    requires c in s && Reaches(g, a, c)
    ensures a in s
  {
    var p :| PathBetween(g, p, a, c) && |p| >= 2;
    ClosedUnderIn(g, s, p);
  }

  // Ancestor sets -------------------------------------------------------------

  /** The strict ancestors: all transitive dependencies. */
  ghost function Ancestors(g: Digraph, n: TargetLabel): set<TargetLabel> {
    set a | a in g.nodes && Reaches(g, a, n)
  }

  /** The strict descendants: all transitive dependants. */
  ghost function Descendants(g: Digraph, n: TargetLabel): set<TargetLabel> {
    set d | d in g.nodes && Reaches(g, n, d)
  }

  /** Along an edge of an acyclic graph the ancestor set strictly grows. */
  lemma AncestorsShrink(g: Digraph, a: TargetLabel, b: TargetLabel)
    requires g.Valid() && Acyclic(g) && g.Edge(a, b)
    ensures Ancestors(g, a) < Ancestors(g, b)
  {
    EdgeReaches(g, a, b);
    forall x | x in Ancestors(g, a) ensures x in Ancestors(g, b) {
      ReachesTransitive(g, x, a, b);
    }
    assert a in Ancestors(g, b) && a !in Ancestors(g, a);
  }

  lemma DescendantsShrink(g: Digraph, a: TargetLabel, b: TargetLabel)
    requires g.Valid() && Acyclic(g) && g.Edge(a, b)
    ensures Descendants(g, b) < Descendants(g, a)
  {
    EdgeReaches(g, a, b);
    forall x | x in Descendants(g, b) ensures x in Descendants(g, a) {
      ReachesTransitive(g, a, b, x);
    }
    assert b in Descendants(g, a) && b !in Descendants(g, b);
  }

  /** In an acyclic graph every non-empty set has a member without ancestors in the set. */
  lemma {:induction false} Minimal(g: Digraph, s: set<TargetLabel>, start: TargetLabel) returns (m: TargetLabel)
    requires g.Valid() && Acyclic(g)
    requires start in s
    ensures m in s && forall a :: a in s ==> !Reaches(g, a, m)
    decreases Ancestors(g, start)
  {
    if a :| a in s && Reaches(g, a, start) {
      ReachesNodes(g, a, start);
      forall x | x in Ancestors(g, a) ensures x in Ancestors(g, start) {
        ReachesTransitive(g, x, a, start);
      }
      assert a in Ancestors(g, start) && a !in Ancestors(g, a);
      m := Minimal(g, s, a);
    } else {
      m := start;
    }
  }

  /** In an acyclic graph every non-empty set has a member without descendants in the set. */
  lemma {:induction false} Maximal(g: Digraph, s: set<TargetLabel>, start: TargetLabel) returns (m: TargetLabel)
    requires g.Valid() && Acyclic(g)
    requires start in s
    ensures m in s && forall d :: d in s ==> !Reaches(g, m, d)
    decreases Descendants(g, start)
  {
    if d :| d in s && Reaches(g, start, d) {
      ReachesNodes(g, start, d);
      forall x | x in Descendants(g, d) ensures x in Descendants(g, start) {
        ReachesTransitive(g, start, d, x);
      }
      assert d in Descendants(g, start) && d !in Descendants(g, d);
      m := Maximal(g, s, d);
    } else {
      m := start;
    }
  }

  // Topological orders ----------------------------------------------------------

  ghost predicate NoDuplicates(s: seq<TargetLabel>) {
    forall i, j :: 0 <= i < j < |s| ==> s[i] != s[j]
  }

  /** Every edge within the listed nodes and into them comes from an earlier entry. */
  ghost predicate DependenciesFirst(g: Digraph, order: seq<TargetLabel>) {
    forall i, a :: 0 <= i < |order| && g.Edge(a, order[i]) ==> a in order[..i]
  }

  /** A listing of all nodes in which dependencies come first rules out cycles. */
  lemma TopologicalOrderAcyclic(g: Digraph, order: seq<TargetLabel>)
    requires g.Valid() && NoDuplicates(order) && DependenciesFirst(g, order)
    requires forall n :: n in g.nodes ==> n in order
    ensures Acyclic(g)
  {
    forall n ensures !Reaches(g, n, n) {
      if Reaches(g, n, n) {
        ReachesNodes(g, n, n);
        var i :| 0 <= i < |order| && order[i] == n;
        EarlierAncestors(g, order, i, n);
        assert false;
      }
    }
  }

  lemma {:induction false} EarlierAncestors(g: Digraph, order: seq<TargetLabel>, i: nat, a: TargetLabel)
    requires NoDuplicates(order) && DependenciesFirst(g, order)
    requires i < |order| && Reaches(g, a, order[i])
    ensures a in order[..i]
    decreases i
  {
    var b := LastEdge(g, a, order[i]);
    assert b in order[..i];
    if a != b {
      var j :| 0 <= j < i && order[j] == b;
      EarlierAncestors(g, order, j, a);
      assert order[..j] <= order[..i];
    }
  }

  /** Every edge out of a listed node leads to an earlier entry, as in depth-first finishing order. */
  ghost predicate DependantsFirst(g: Digraph, order: seq<TargetLabel>) {
    forall i, b :: 0 <= i < |order| && g.Edge(order[i], b) ==> b in order[..i]
  }

  lemma FinishingOrderAcyclic(g: Digraph, order: seq<TargetLabel>)
    requires g.Valid() && NoDuplicates(order) && DependantsFirst(g, order)
    requires forall n :: n in g.nodes ==> n in order
    ensures Acyclic(g)
  {
    forall n ensures !Reaches(g, n, n) {
      if Reaches(g, n, n) {
        ReachesNodes(g, n, n);
        var i :| 0 <= i < |order| && order[i] == n;
        EarlierDescendants(g, order, i, n);
        assert false;
      }
    }
  }

  lemma {:induction false} EarlierDescendants(g: Digraph, order: seq<TargetLabel>, i: nat, d: TargetLabel)
    requires NoDuplicates(order) && DependantsFirst(g, order)
    requires i < |order| && Reaches(g, order[i], d)
    ensures d in order[..i]
    decreases i
  {
    var b := FirstEdge(g, order[i], d);
    assert b in order[..i];
    if d != b {
      var j :| 0 <= j < i && order[j] == b;
      EarlierDescendants(g, order, j, d);
      assert order[..j] <= order[..i];
    }
  }
}
