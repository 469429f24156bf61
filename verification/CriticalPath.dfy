/**
 The longest path of FindCriticalPath (internal/dag/graph.go:246-351): Kahn's algorithm
 followed by dynamic programming over the order it produces.
 */
module CriticalPaths {
  import opened Labels
  import opened Digraphs

  /** Execution and cache durations per node; nodes that are not targets count zero. */
  datatype Durations = Durations(exec: map<TargetLabel, int>, cache: map<TargetLabel, int>) {
    function Exec(n: TargetLabel): int {
      if n in exec then exec[n] else 0
    }

    function Cache(n: TargetLabel): int {
      if n in cache then cache[n] else 0
    }

    function Total(n: TargetLabel): int {
      Exec(n) + Cache(n)
    }

    ghost predicate NonNegative() {
      forall n :: Total(n) >= 0
    }
  }

  datatype CriticalPath = CriticalPath(nodes: seq<TargetLabel>, exec: int, cache: int) {
    function Total(): int {
      exec + cache
    }
  }

  function ExecSum(d: Durations, p: seq<TargetLabel>): int {
    if p == [] then 0 else ExecSum(d, p[..|p| - 1]) + d.Exec(p[|p| - 1])
  }

  function CacheSum(d: Durations, p: seq<TargetLabel>): int {
    if p == [] then 0 else CacheSum(d, p[..|p| - 1]) + d.Cache(p[|p| - 1])
  }

  function PathTotal(d: Durations, p: seq<TargetLabel>): int {
    ExecSum(d, p) + CacheSum(d, p)
  }

  // Kahn's algorithm ------------------------------------------------------------

  /** How many entries of a dependency list are not processed yet. */
  ghost function Pending(dependencies: seq<TargetLabel>, done: set<TargetLabel>): nat {
    if dependencies == [] then 0
    else (if dependencies[0] in done then 0 else 1) + Pending(dependencies[1..], done)
  }

  lemma {:induction false} PendingAfter(dependencies: seq<TargetLabel>, done: set<TargetLabel>, n: TargetLabel)
    requires n !in done
    ensures Pending(dependencies, done) == Pending(dependencies, done + {n}) + multiset(dependencies)[n]
  {
    if dependencies != [] {
      PendingAfter(dependencies[1..], done, n);
      assert dependencies == [dependencies[0]] + dependencies[1..];
    }
  }

  lemma {:induction false} PendingZero(dependencies: seq<TargetLabel>, done: set<TargetLabel>)
    ensures Pending(dependencies, done) == 0 <==> forall a :: a in dependencies ==> a in done
    ensures Pending(dependencies, {}) == |dependencies|
  {
    if dependencies != [] {
      PendingZero(dependencies[1..], done);
      assert dependencies == [dependencies[0]] + dependencies[1..];
    }
  }

  ghost function Entries(s: seq<TargetLabel>): set<TargetLabel> {
    set n | n in s
  }

  /** The indegree map counts the unprocessed dependencies, `extra` edges included. */
  ghost predicate Counts(
    g: Digraph, indegree: map<TargetLabel, int>, done: set<TargetLabel>, extra: seq<TargetLabel>)
  {
    && indegree.Keys == g.nodes
    && forall n :: n in g.nodes ==> indegree[n] == Pending(g.In(n), done) + multiset(extra)[n]
  }

  /** Queued and ordered nodes are exactly those whose count dropped to zero. */
  ghost predicate Ready(
    g: Digraph, indegree: map<TargetLabel, int>, order: seq<TargetLabel>, queue: seq<TargetLabel>)
    requires indegree.Keys == g.nodes
  {
    && NoDuplicates(order + queue)
    && forall n :: n in order + queue <==> n in g.nodes && indegree[n] == 0
  }

  method CountEdges(g: Digraph) returns (indegree: map<TargetLabel, int>, queue: seq<TargetLabel>)
    requires g.Valid()
    ensures Counts(g, indegree, {}, [])
    ensures Ready(g, indegree, [], queue)
  {
    indegree := map n | n in g.nodes :: |g.In(n)|;
    InitialCounts(g, indegree);
    queue := QueueSources(g.nodes, indegree);
    assert [] + queue == queue;
  }

  /** The nodes without dependencies, in the order of some map iteration. */
  method QueueSources(nodes: set<TargetLabel>, indegree: map<TargetLabel, int>) returns (queue: seq<TargetLabel>)
    requires indegree.Keys == nodes
    ensures NoDuplicates(queue) && forall n :: n in queue <==> n in nodes && indegree[n] == 0
  {
    queue := [];
    var todo := nodes;
    while todo != {}
      invariant todo <= nodes
      invariant NoDuplicates(queue)
      invariant forall n :: n in queue <==> n in nodes - todo && indegree[n] == 0
      decreases todo
    {
      var n :| n in todo;
      todo := todo - {n};
      if indegree[n] == 0 {
        queue := queue + [n];
      }
    }
  }

  lemma InitialCounts(g: Digraph, indegree: map<TargetLabel, int>)
    requires indegree.Keys == g.nodes && forall n :: n in g.nodes ==> indegree[n] == |g.In(n)|
    ensures Counts(g, indegree, {}, [])
  {
    forall n | n in g.nodes ensures indegree[n] == Pending(g.In(n), {}) {
      PendingZero(g.In(n), {});
    }
  }

  /** Removes one processed node's edges; a neighbour is queued when its last edge goes. */
  method ReleaseNeighbors(g: Digraph, indegree: map<TargetLabel, int>, order: seq<TargetLabel>, queue: seq<TargetLabel>,
                          ghost done: set<TargetLabel>, node: TargetLabel)
    returns (indegree': map<TargetLabel, int>, queue': seq<TargetLabel>)
    requires g.Valid() && node !in done
    requires Counts(g, indegree, done, []) && Ready(g, indegree, order, queue)
    ensures Counts(g, indegree', done + {node}, []) && Ready(g, indegree', order, queue')
  {
    indegree', queue' := indegree, queue;
    var neighbors := g.Out(node);
    ReleaseStart(g, indegree, done, node);
    assert neighbors[0..] == neighbors;
    for i := 0 to |neighbors|
      invariant Counts(g, indegree', done + {node}, neighbors[i..])
      invariant Ready(g, indegree', order, queue')
    {
      var n := neighbors[i];
      assert neighbors[i..] == [n] + neighbors[i + 1..];
      assert n in g.nodes by { assert g.Edge(node, n); }
      ReleaseOne(g, indegree', done + {node}, n, neighbors[i + 1..]);
      EnqueueOne(g, indegree', order, queue', n);
      indegree' := indegree'[n := indegree'[n] - 1];
      if indegree'[n] == 0 {
        queue' := queue' + [n];
      }
    }
  }

  lemma ReleaseStart(g: Digraph, indegree: map<TargetLabel, int>, done: set<TargetLabel>, node: TargetLabel)
    requires g.Valid() && node !in done
    requires Counts(g, indegree, done, [])
    ensures Counts(g, indegree, done + {node}, g.Out(node))
  {
    forall n | n in g.nodes
      ensures indegree[n] == Pending(g.In(n), done + {node}) + multiset(g.Out(node))[n]
    {
      PendingAfter(g.In(n), done, node);
      assert g.Multiplicity(node, n) == multiset(g.In(n))[node];
    }
  }

  lemma ReleaseOne(g: Digraph, indegree: map<TargetLabel, int>, done: set<TargetLabel>, n: TargetLabel,
                   rest: seq<TargetLabel>)
    requires Counts(g, indegree, done, [n] + rest) && n in g.nodes
    ensures indegree[n] >= 1 && Counts(g, indegree[n := indegree[n] - 1], done, rest)
  {
    assert multiset([n] + rest) == multiset{n} + multiset(rest);
  }

  lemma EnqueueOne(g: Digraph, indegree: map<TargetLabel, int>, order: seq<TargetLabel>, queue: seq<TargetLabel>,
                   n: TargetLabel)
    requires indegree.Keys == g.nodes && Ready(g, indegree, order, queue)
    requires n in g.nodes && indegree[n] >= 1
    ensures Ready(g, indegree[n := indegree[n] - 1], order, if indegree[n] == 1 then queue + [n] else queue)
  {
    assert order + (queue + [n]) == (order + queue) + [n];
    assert n !in order + queue;
  }

  /** Moves the head of the queue to the order and releases its dependants. */
  lemma OneMoreEntry(g: Digraph, order: seq<TargetLabel>, n: TargetLabel)
    requires n in g.nodes && n !in order
    ensures Entries(order + [n]) == Entries(order) + {n}
    ensures g.nodes - Entries(order + [n]) < g.nodes - Entries(order)
  {
    assert n in g.nodes - Entries(order);
  }

  method ProcessNext(g: Digraph, indegree: map<TargetLabel, int>, order: seq<TargetLabel>, queue: seq<TargetLabel>)
    returns (indegree': map<TargetLabel, int>, order': seq<TargetLabel>, queue': seq<TargetLabel>)
    requires g.Valid() && queue != []
    requires Counts(g, indegree, Entries(order), []) && Ready(g, indegree, order, queue)
    requires DependenciesFirst(g, order)
    ensures Counts(g, indegree', Entries(order'), []) && Ready(g, indegree', order', queue')
    ensures DependenciesFirst(g, order')
    ensures g.nodes - Entries(order') < g.nodes - Entries(order)
  {
    DequeueOne(g, indegree, order, queue);
    OneMoreEntry(g, order, queue[0]);
    order' := order + [queue[0]];
    indegree', queue' := ReleaseNeighbors(g, indegree, order', queue[1..], Entries(order), queue[0]);
  }

  /** A listing with dependencies first of every node that is not on or behind a cycle. */
  method KahnOrder(g: Digraph) returns (order: seq<TargetLabel>)
    requires g.Valid()
    ensures NoDuplicates(order) && Entries(order) <= g.nodes && DependenciesFirst(g, order)
    ensures Entries(order) == g.nodes <==> Acyclic(g)
  {
    var indegree, queue := CountEdges(g);
    order := [];
    assert Entries([]) == {};
    while queue != []
      invariant Counts(g, indegree, Entries(order), []) && Ready(g, indegree, order, queue)
      invariant DependenciesFirst(g, order)
      decreases g.nodes - Entries(order)
    {
      indegree, order, queue := ProcessNext(g, indegree, order, queue);
    }
    OrderComplete(g, indegree, order);
  }

  lemma OrderComplete(g: Digraph, indegree: map<TargetLabel, int>, order: seq<TargetLabel>)
    requires g.Valid() && DependenciesFirst(g, order)
    requires Counts(g, indegree, Entries(order), []) && Ready(g, indegree, order, [])
    ensures NoDuplicates(order) && Entries(order) <= g.nodes
    ensures Entries(order) == g.nodes <==> Acyclic(g)
  {
    assert order + [] == order;
    if Entries(order) == g.nodes {
      TopologicalOrderAcyclic(g, order);
    }
    LeftoverHasCycle(g, order, indegree);
  }

  lemma DequeueOne(g: Digraph, indegree: map<TargetLabel, int>, order: seq<TargetLabel>, queue: seq<TargetLabel>)
    requires g.Valid() && Counts(g, indegree, Entries(order), []) && DependenciesFirst(g, order)
    requires Ready(g, indegree, order, queue) && queue != []
    ensures Ready(g, indegree, order + [queue[0]], queue[1..])
    ensures queue[0] !in order && queue[0] in g.nodes
    ensures DependenciesFirst(g, order + [queue[0]])
  {
    assert (order + queue)[|order|] == queue[0];
    assert order + queue == (order + [queue[0]]) + queue[1..];
    forall i | 0 <= i < |order| ensures order[i] != queue[0] {
      assert (order + queue)[i] == order[i];
    }
    EnqueuedLast(g, order, queue[0], indegree);
  }

  lemma EnqueuedLast(g: Digraph, order: seq<TargetLabel>, node: TargetLabel, indegree: map<TargetLabel, int>)
    requires g.Valid() && Counts(g, indegree, Entries(order), []) && DependenciesFirst(g, order)
    requires node in g.nodes && indegree[node] == 0
    ensures DependenciesFirst(g, order + [node])
  {
    PendingZero(g.In(node), Entries(order));
    var longer := order + [node];
    forall i, a | 0 <= i < |longer| && g.Edge(a, longer[i]) ensures a in longer[..i] {
      EdgeMirrored(g, a, longer[i]);
      assert longer[..i] == order[..i];
      if i == |order| {
        assert order[..i] == order;
      }
    }
  }

  lemma LeftoverHasCycle(g: Digraph, order: seq<TargetLabel>, indegree: map<TargetLabel, int>)
    requires g.Valid() && Counts(g, indegree, Entries(order), []) && Ready(g, indegree, order, [])
    ensures Acyclic(g) ==> g.nodes <= Entries(order)
  {
    var rest := g.nodes - Entries(order);
    forall m | m in rest ensures exists a :: a in rest && Reaches(g, a, m) {
      var a := PendingDependency(g, order, indegree, m);
    }
    EveryMemberBehindAnother(g, rest);
    forall n | n in g.nodes ensures n in Entries(order) || n in rest {
    }
  }

  lemma EveryMemberBehindAnother(g: Digraph, rest: set<TargetLabel>)
    requires g.Valid()
    requires forall m :: m in rest ==> exists a :: a in rest && Reaches(g, a, m)
    ensures Acyclic(g) ==> rest == {}
  {
    if Acyclic(g) && rest != {} {
      var n :| n in rest;
      var m := Minimal(g, rest, n);
      assert false;
    }
  }

  lemma PendingDependency(g: Digraph, order: seq<TargetLabel>, indegree: map<TargetLabel, int>, m: TargetLabel)
    returns (a: TargetLabel)
    requires g.Valid() && Counts(g, indegree, Entries(order), []) && Ready(g, indegree, order, [])
    requires m in g.nodes && m !in order
    ensures a in g.nodes - Entries(order) && Reaches(g, a, m)
  {
    assert order + [] == order;
    PendingZero(g.In(m), Entries(order));
    a :| a in g.In(m) && a !in Entries(order);
    EdgeMirrored(g, a, m);
    EdgeReaches(g, a, m);
  }

  // Dynamic programming ---------------------------------------------------------

  /** A recorded path really leads to its node, and its durations are its sums. */
  ghost predicate Recorded(g: Digraph, d: Durations, n: TargetLabel, info: CriticalPath) {
    && IsPath(g, info.nodes) && info.nodes[|info.nodes| - 1] == n
    && (forall m :: m in info.nodes ==> m in g.nodes)
    && info.exec == ExecSum(d, info.nodes)
    && info.cache == CacheSum(d, info.nodes)
  }

  ghost predicate AllRecorded(g: Digraph, d: Durations, best: map<TargetLabel, CriticalPath>) {
    best.Keys <= g.nodes && forall n :: n in best ==> Recorded(g, d, n, best[n])
  }

  /**
   The records after the extended path was offered to the nodes in `offered`: they have at
   least its total, nothing got worse and nothing else changed.
   */
  ghost predicate Offered(d: Durations, before: map<TargetLabel, CriticalPath>, after: map<TargetLabel, CriticalPath>,
                          current: CriticalPath, offered: seq<TargetLabel>)
  {
    && after.Keys == before.Keys + Entries(offered)
    && (forall n :: n in before && n !in offered ==> after[n] == before[n])
    && (forall n :: n in before ==> after[n].Total() >= before[n].Total())
    && (forall n :: n in offered ==> after[n].Total() >= current.Total() + d.Total(n))
  }

  function Extend(d: Durations, current: CriticalPath, n: TargetLabel): CriticalPath {
    CriticalPath(current.nodes + [n], current.exec + d.Exec(n), current.cache + d.Cache(n))
  }

  /** Offers the extended path to every neighbour; a strictly larger total wins. */
  method ExtendToNeighbors(g: Digraph, d: Durations, best: map<TargetLabel, CriticalPath>, node: TargetLabel,
                           current: CriticalPath)
    returns (best': map<TargetLabel, CriticalPath>)
    requires g.Valid() && AllRecorded(g, d, best) && Recorded(g, d, node, current)
    ensures AllRecorded(g, d, best') && Offered(d, best, best', current, g.Out(node))
  {
    best' := best;
    var neighbors := g.Out(node);
    for i := 0 to |neighbors|
      invariant AllRecorded(g, d, best') && Offered(d, best, best', current, neighbors[..i])
    {
      var neighbor := neighbors[i];
      ExtendRecorded(g, d, node, current, neighbor);
      assert neighbors[..i + 1] == neighbors[..i] + [neighbor];
      OfferOne(d, best, best', current, neighbors[..i], neighbor);
      if neighbor !in best' || Extend(d, current, neighbor).Total() > best'[neighbor].Total() {
        best' := best'[neighbor := Extend(d, current, neighbor)];
      }
    }
    assert neighbors[..|neighbors|] == neighbors;
  }

  lemma OfferOne(d: Durations, before: map<TargetLabel, CriticalPath>, after: map<TargetLabel, CriticalPath>,
                 current: CriticalPath, offered: seq<TargetLabel>, n: TargetLabel)
    requires Offered(d, before, after, current, offered)
    ensures Offered(d, before,
      if n !in after || Extend(d, current, n).Total() > after[n].Total()
      then after[n := Extend(d, current, n)] else after,
      current, offered + [n])
  {
    assert Entries(offered + [n]) == Entries(offered) + {n};
  }

  lemma ExtendRecorded(g: Digraph, d: Durations, node: TargetLabel, current: CriticalPath, neighbor: TargetLabel)
    requires g.Valid() && Recorded(g, d, node, current) && g.Edge(node, neighbor)
    ensures neighbor in g.nodes
    ensures Recorded(g, d, neighbor, Extend(d, current, neighbor))
  {
    var longer := current.nodes + [neighbor];
    PathExtended(g, current.nodes, neighbor);
    assert longer[..|longer| - 1] == current.nodes;
  }

  /**
   After the nodes in `done` were expanded: each of them has a record that no longer
   changes, its neighbours have at least the extended total, and a node without
   dependencies has at least its own duration.
   */
  ghost predicate Expanded(g: Digraph, d: Durations, best: map<TargetLabel, CriticalPath>, done: seq<TargetLabel>) {
    && (forall a :: a in done ==> a in best)
    && (forall a :: a in done && g.In(a) == [] ==> best[a].Total() >= d.Total(a))
    && (forall a, b :: a in done && g.Edge(a, b) ==> b in best && best[b].Total() >= best[a].Total() + d.Total(b))
  }

  /** Only neighbours of expanded nodes are recorded besides the expanded nodes. */
  ghost predicate NoOthers(g: Digraph, best: map<TargetLabel, CriticalPath>, done: seq<TargetLabel>) {
    forall b :: b in best && g.In(b) == [] ==> b in done
  }

  method LongestPaths(g: Digraph, d: Durations, order: seq<TargetLabel>) returns (best: map<TargetLabel, CriticalPath>)
    requires g.Valid() && NoDuplicates(order) && Entries(order) == g.nodes && DependenciesFirst(g, order)
    ensures best.Keys == g.nodes && AllRecorded(g, d, best) && Expanded(g, d, best, order)
  {
    best := map[];
    for i := 0 to |order|
      invariant AllRecorded(g, d, best)
      invariant Expanded(g, d, best, order[..i])
      invariant NoOthers(g, best, order[..i])
    {
      var node := order[i];
      assert node in Entries(order);
      ghost var before := best;
      if node !in best {
        best := best[node := CriticalPath([node], d.Exec(node), d.Cache(node))];
        SingleRecorded(g, d, node);
      }
      ghost var mid := best;
      best := ExtendToNeighbors(g, d, best, node, best[node]);
      ExpandNode(g, d, order, i, before, mid, best);
    }
    assert order[..|order|] == order;
    assert best.Keys == g.nodes by {
      forall n | n in g.nodes ensures n in best {
        assert n in Entries(order);
      }
    }
  }

  lemma SingleRecorded(g: Digraph, d: Durations, node: TargetLabel)
    requires node in g.nodes
    ensures Recorded(g, d, node, CriticalPath([node], d.Exec(node), d.Cache(node)))
  {
    var front := [node][..|[node]| - 1];
    assert front == [] && ExecSum(d, front) == 0 && CacheSum(d, front) == 0;
  }

  /** What starting the expansion of a node does to the records. */
  ghost predicate Started(d: Durations, node: TargetLabel, before: map<TargetLabel, CriticalPath>,
                          mid: map<TargetLabel, CriticalPath>)
  {
    if node in before then mid == before
    else mid == before[node := CriticalPath([node], d.Exec(node), d.Cache(node))]
  }

  lemma ExpandNode(g: Digraph, d: Durations, order: seq<TargetLabel>, i: nat,
                   before: map<TargetLabel, CriticalPath>, mid: map<TargetLabel, CriticalPath>,
                   after: map<TargetLabel, CriticalPath>)
    requires g.Valid() && i < |order| && NoDuplicates(order) && DependenciesFirst(g, order)
    requires Expanded(g, d, before, order[..i]) && NoOthers(g, before, order[..i])
    requires Started(d, order[i], before, mid) && Offered(d, mid, after, mid[order[i]], g.Out(order[i]))
    ensures Expanded(g, d, after, order[..i + 1]) && NoOthers(g, after, order[..i + 1])
  {
    var node := order[i];
    assert order[..i + 1] == order[..i] + [node];
    forall a | a in order[..i] + [node] ensures a !in g.Out(node) {
      NotANeighbor(g, order, i, a);
    }
    assert node !in order[..i];
    if g.In(node) == [] {
      assert node !in before;
    }
    KeepExpanded(g, d, order[..i], node, before, mid, after);
    forall b | b in after && g.In(b) == [] ensures b in order[..i + 1] {
      if b in g.Out(node) {
        EdgeMirrored(g, node, b);
      }
    }
  }

  lemma KeepExpanded(g: Digraph, d: Durations, done: seq<TargetLabel>, node: TargetLabel,
                     before: map<TargetLabel, CriticalPath>, mid: map<TargetLabel, CriticalPath>,
                     after: map<TargetLabel, CriticalPath>)
    requires Expanded(g, d, before, done) && node !in done
    requires forall a :: a in done + [node] ==> a !in g.Out(node)
    requires g.In(node) == [] ==> node !in before
    requires Started(d, node, before, mid) && Offered(d, mid, after, mid[node], g.Out(node))
    ensures Expanded(g, d, after, done + [node])
  {
    forall a | a in done ensures a in before && a in mid && after[a] == mid[a] == before[a] {
      assert a in done + [node];
    }
    assert node in done + [node] && after[node] == mid[node];
    forall a, b | a in done && g.Edge(a, b) ensures b in after && after[b].Total() >= after[a].Total() + d.Total(b) {
      assert b in before && before[b].Total() >= before[a].Total() + d.Total(b);
      assert mid[b] == before[b];
    }
  }

  lemma NotANeighbor(g: Digraph, order: seq<TargetLabel>, i: nat, a: TargetLabel)
    requires i < |order| && NoDuplicates(order) && DependenciesFirst(g, order)
    requires a in order[..i + 1]
    ensures a !in g.Out(order[i])
  {
    var k :| 0 <= k < i + 1 && order[k] == a;
    assert order[i] !in order[..k];
  }

  /** No path that starts at a node without dependencies, or among non-negative durations at any node, is longer. */
  lemma {:induction false} PathBounded(g: Digraph, d: Durations, best: map<TargetLabel, CriticalPath>,
                                       order: seq<TargetLabel>, p: seq<TargetLabel>)
    requires g.Valid() && best.Keys == g.nodes && AllRecorded(g, d, best)
    requires Expanded(g, d, best, order) && Entries(order) == g.nodes
    requires IsPath(g, p) && p[0] in g.nodes
    requires g.In(p[0]) == [] || d.NonNegative()
    ensures p[|p| - 1] in g.nodes && PathTotal(d, p) <= best[p[|p| - 1]].Total()
    decreases |p|
  {
    var last := p[|p| - 1];
    var front := p[..|p| - 1];
    if |p| == 1 {
      assert front == [];
      assert ExecSum(d, front) == 0 && CacheSum(d, front) == 0;
      assert PathTotal(d, p) == d.Total(last);
      assert last in Entries(order);
      if g.In(last) != [] {
        OwnDuration(g, d, best, order, last);
      }
    } else {
      PathFront(g, p);
      PathBounded(g, d, best, order, front);
      assert front[|front| - 1] in Entries(order);
      assert PathTotal(d, p) == PathTotal(d, front) + d.Total(last);
    }
  }

  lemma OwnDuration(g: Digraph, d: Durations, best: map<TargetLabel, CriticalPath>, order: seq<TargetLabel>,
                    n: TargetLabel)
    requires g.Valid() && best.Keys == g.nodes && AllRecorded(g, d, best)
    requires Expanded(g, d, best, order) && Entries(order) == g.nodes
    requires n in g.nodes && g.In(n) != [] && d.NonNegative()
    ensures best[n].Total() >= d.Total(n)
  {
    var a := g.In(n)[0];
    EdgeMirrored(g, a, n);
    assert a in Entries(order);
    TotalNonNegative(d, best[a].nodes);
  }

  lemma {:induction false} TotalNonNegative(d: Durations, p: seq<TargetLabel>)
    requires d.NonNegative()
    ensures PathTotal(d, p) >= 0
  {
    if p != [] {
      TotalNonNegative(d, p[..|p| - 1]);
      assert d.Total(p[|p| - 1]) >= 0;
    }
  }

  // The result --------------------------------------------------------------------

  /** A real path whose durations are the sums over its nodes. */
  ghost predicate RealPath(g: Digraph, d: Durations, path: CriticalPath) {
    && IsPath(g, path.nodes)
    && (forall n :: n in path.nodes ==> n in g.nodes)
    && path.exec == ExecSum(d, path.nodes)
    && path.cache == CacheSum(d, path.nodes)
  }

  /** A path that FindCriticalPath competes with: any path when no duration is negative. */
  ghost predicate Competitor(g: Digraph, d: Durations, p: seq<TargetLabel>) {
    IsPath(g, p) && p[0] in g.nodes && (g.In(p[0]) == [] || d.NonNegative())
  }

  method FindCriticalPath(g: Digraph, d: Durations) returns (path: CriticalPath, ok: bool)
    requires g.Valid()
    ensures ok <==> g.nodes != {} && Acyclic(g)
    ensures ok ==> RealPath(g, d, path)
    ensures ok ==> forall p :: Competitor(g, d, p) ==> PathTotal(d, p) <= path.Total()
    ensures !ok ==> path == CriticalPath([], 0, 0)
  {
    if g.nodes == {} {
      return CriticalPath([], 0, 0), false;
    }
    var order := KahnOrder(g);
    OrderLength(order, g.nodes);
    if |order| == 0 || |order| != |g.nodes| {
      return CriticalPath([], 0, 0), false;
    }
    var best := LongestPaths(g, d, order);
    path := LargestTotal(g, d, best);
    forall p | Competitor(g, d, p) ensures PathTotal(d, p) <= path.Total() {
      PathBounded(g, d, best, order, p);
    }
    ok := true;
  }

  /** Picks the largest recorded total, visiting the records in any order. */
  method LargestTotal(g: Digraph, d: Durations, best: map<TargetLabel, CriticalPath>) returns (path: CriticalPath)
    requires AllRecorded(g, d, best) && best != map[]
    ensures RealPath(g, d, path)
    ensures forall n :: n in best ==> best[n].Total() <= path.Total()
  {
    var todo := best.Keys;
    var found := false;
    path := CriticalPath([], 0, 0);
    while todo != {}
      invariant todo <= best.Keys
      invariant found <==> todo != best.Keys
      invariant found ==> RealPath(g, d, path)
      invariant forall n :: n in best.Keys - todo ==> best[n].Total() <= path.Total()
      decreases todo
    {
      var n :| n in todo;
      todo := todo - {n};
      if !found || best[n].Total() > path.Total() {
        path, found := best[n], true;
      }
    }
  }

  lemma {:induction false} OrderLength(order: seq<TargetLabel>, nodes: set<TargetLabel>)
    requires NoDuplicates(order) && Entries(order) <= nodes
    ensures |order| <= |nodes|
    ensures |order| == |nodes| <==> Entries(order) == nodes
  {
    if order == [] {
      assert Entries(order) == {};
    } else {
      var last := order[|order| - 1];
      var front := order[..|order| - 1];
      assert last in Entries(order);
      assert Entries(front) == Entries(order) - {last};
      OrderLength(front, nodes - {last});
      assert Entries(order) == Entries(front) + {last};
    }
  }
}
