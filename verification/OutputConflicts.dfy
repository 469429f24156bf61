/** Conflicting outputs of unordered targets (internal/analysis/output_conflicts.go). */
module OutputConflicts {
  import opened Strings
  import opened Labels
  import opened BuildNodes
  import opened Digraphs

  // Ancestor sets -----------------------------------------------------------------

  /** The ancestor sets computed so far; all queries of one analysis share it. */
  class AncestorCache {
    const g: Digraph
    var sets: map<TargetLabel, set<TargetLabel>>

    constructor (g: Digraph)
      requires g.Valid()
      ensures Valid() && this.g == g
    {
      this.g := g;
      sets := map[];
    }

    /** Every cached set holds exactly the strict ancestors. */
    ghost predicate Valid()
      reads this
    {
      g.Valid() && forall n :: n in sets ==> sets[n] == Ancestors(g, n)
    }

    method GetAncestorSet(node: TargetLabel) returns (ancestors: set<TargetLabel>)
      requires Valid()
      modifies this
      ensures Valid() && ancestors == Ancestors(g, node)
    {
      if node in sets {
        return sets[node];
      }
      ancestors := SearchAncestors(node);
      sets := sets[node := ancestors];
    }

    /** Depth-first search with an explicit stack that takes over cached sets. */
    method SearchAncestors(node: TargetLabel) returns (ancestors: set<TargetLabel>)
      requires Valid()
      ensures ancestors == Ancestors(g, node)
    {
      ancestors := {};
      var stack := g.In(node);
      StackOfDependencies(g, node);
      while stack != []
        invariant Searched(g, node, ancestors, stack)
        decreases Ancestors(g, node) - ancestors, |stack|
      {
        var ancestor := stack[|stack| - 1];
        var rest := stack[..|stack| - 1];
        assert stack == rest + [ancestor];
        if ancestor in ancestors {
          SeenAgain(g, node, ancestors, rest, ancestor);
          stack := rest;
        } else if ancestor in sets {
          TakeCached(g, node, ancestors, rest, ancestor);
          ancestors := ancestors + {ancestor} + sets[ancestor];
          stack := rest;
        } else {
          Expand(g, node, ancestors, rest, ancestor);
          ancestors := ancestors + {ancestor};
          stack := rest + g.In(ancestor);
        }
      }
      AllFound(g, node, ancestors);
    }

    /** True when one of the two depends on the other. */
    method TargetsAreOrdered(a: TargetLabel, b: TargetLabel) returns (ordered: bool)
      requires Valid() && a in g.nodes && b in g.nodes
      modifies this
      ensures Valid() && (ordered <==> Ordered(g, a, b))
    {
      var ancestorsOfA := GetAncestorSet(a);
      if b in ancestorsOfA {
        return true;
      }
      var ancestorsOfB := GetAncestorSet(b);
      return a in ancestorsOfB;
    }
  }

  ghost predicate Ordered(g: Digraph, a: TargetLabel, b: TargetLabel) {
    Reaches(g, a, b) || Reaches(g, b, a)
  }

  /** Found and pending nodes are ancestors, and whatever they depend on is found or pending too. */
  ghost predicate Searched(g: Digraph, node: TargetLabel, found: set<TargetLabel>, stack: seq<TargetLabel>) {
    && found <= Ancestors(g, node)
    && (forall x :: x in stack ==> x in Ancestors(g, node))
    && (forall d :: g.Edge(d, node) ==> d in found || d in stack)
    && (forall x, d :: x in found && g.Edge(d, x) ==> d in found || d in stack)
  }

  lemma StackOfDependencies(g: Digraph, node: TargetLabel)
    requires g.Valid()
    ensures Searched(g, node, {}, g.In(node))
  {
    forall d ensures d in g.In(node) <==> g.Edge(d, node) {
      EdgeMirrored(g, d, node);
    }
    forall d | d in g.In(node) ensures d in Ancestors(g, node) {
      EdgeReaches(g, d, node);
    }
  }

  lemma SeenAgain(g: Digraph, node: TargetLabel, found: set<TargetLabel>, rest: seq<TargetLabel>, ancestor: TargetLabel)
    requires Searched(g, node, found, rest + [ancestor]) && ancestor in found
    ensures Searched(g, node, found, rest)
  {
    assert forall x :: x in rest ==> x in rest + [ancestor];
    assert forall x :: x in rest + [ancestor] ==> x in rest || x == ancestor;
  }

  lemma TakeCached(g: Digraph, node: TargetLabel, found: set<TargetLabel>, rest: seq<TargetLabel>,
                   ancestor: TargetLabel)
    requires g.Valid() && Searched(g, node, found, rest + [ancestor])
    ensures Searched(g, node, found + {ancestor} + Ancestors(g, ancestor), rest)
    ensures ancestor in Ancestors(g, node)
  {
    assert ancestor in rest + [ancestor];
    assert forall x :: x in rest ==> x in rest + [ancestor];
    assert forall x :: x in rest + [ancestor] ==> x in rest || x == ancestor;
    forall x | x in Ancestors(g, ancestor) ensures x in Ancestors(g, node) {
      ReachesTransitive(g, x, ancestor, node);
    }
    forall x, d | (x == ancestor || x in Ancestors(g, ancestor)) && g.Edge(d, x) ensures d in Ancestors(g, ancestor) {
      EdgeReaches(g, d, x);
      if x != ancestor {
        ReachesTransitive(g, d, x, ancestor);
      }
    }
  }

  lemma Expand(g: Digraph, node: TargetLabel, found: set<TargetLabel>, rest: seq<TargetLabel>, ancestor: TargetLabel)
    requires g.Valid() && Searched(g, node, found, rest + [ancestor])
    ensures Searched(g, node, found + {ancestor}, rest + g.In(ancestor))
    ensures ancestor in Ancestors(g, node)
  {
    assert ancestor in rest + [ancestor];
    assert forall x :: x in rest ==> x in rest + [ancestor];
    assert forall x :: x in rest + [ancestor] ==> x in rest || x == ancestor;
    forall d ensures d in g.In(ancestor) <==> g.Edge(d, ancestor) {
      EdgeMirrored(g, d, ancestor);
    }
    forall d | d in g.In(ancestor) ensures d in Ancestors(g, node) {
      EdgeThenReaches(g, d, ancestor, node);
    }
  }

  lemma AllFound(g: Digraph, node: TargetLabel, found: set<TargetLabel>)
    requires g.Valid() && Searched(g, node, found, [])
    ensures found == Ancestors(g, node)
  {
    forall a | a in Ancestors(g, node) ensures a in found {
      var d := LastEdge(g, a, node);
      if a != d {
        AncestorStaysIn(g, found, a, d);
      }
    }
  }

  // Overlaps ------------------------------------------------------------------------

  /** One declared output of one target; the index tells equal declarations apart. */
  datatype Record = Record(target: TargetLabel, index: nat, output: Output)

  predicate PathWithin(path: string, dir: string) {
    path == dir || HasPrefix(path, dir + "/")
  }

  /** A cleaned path is within a directory exactly when its segments extend the directory's. */
  lemma PathWithinBySegments(path: string, dir: string)
    ensures PathWithin(path, dir) <==> Split(dir, '/') <= Split(path, '/')
  {
    assert "/" == ['/'];
    PrefixAtSeparator(path, dir, '/');
  }

  predicate PathsOverlap(a: string, b: string) {
    PathWithin(a, b) || PathWithin(b, a)
  }

  /** The same image tag or file, nested directories, or a file inside a directory. */
  predicate Overlaps(a: Output, b: Output) {
    match (a.kind, b.kind)
    case (OciOutput, OciOutput) => a.identifier == b.identifier
    case (FileOutput, FileOutput) => a.path == b.path
    case (DirOutput, DirOutput) => PathsOverlap(a.path, b.path)
    case (DirOutput, FileOutput) => PathWithin(b.path, a.path)
    case (FileOutput, DirOutput) => PathWithin(a.path, b.path)
    case _ => false
  }

  lemma OverlapsSymmetric(a: Output, b: Output)
    ensures Overlaps(a, b) == Overlaps(b, a)
  {
  }

  /** Something that two outputs may have in common. */
  datatype Place = Image(tag: string) | Path(path: string)

  /** An image is its tag, a file its path, and a directory all paths whose segments extend its own. */
  predicate Covers(o: Output, p: Place) {
    match o.kind
    case OciOutput => p == Image(o.identifier)
    case FileOutput => p == Path(o.path)
    case DirOutput => p.Path? && Split(o.path, '/') <= Split(p.path, '/')
  }

  /** Two outputs overlap exactly when they have a place in common. */
  lemma OverlapsShare(a: Output, b: Output)
    ensures Overlaps(a, b) <==> exists p :: Covers(a, p) && Covers(b, p)
  {
    PathWithinBySegments(a.path, b.path);
    PathWithinBySegments(b.path, a.path);
    if Overlaps(a, b) {
      var shared :=
        if a.kind == OciOutput then Image(a.identifier)
        else if a.kind == FileOutput then Path(a.path)
        else if b.kind == FileOutput || PathWithin(b.path, a.path) then Path(b.path)
        else Path(a.path);
      assert Covers(a, shared) && Covers(b, shared);
    }
    forall p | Covers(a, p) && Covers(b, p) ensures Overlaps(a, b) {
      if p.Path? {
        PathWithinBySegments(p.path, a.path);
        PathWithinBySegments(p.path, b.path);
        PrefixesNested(Split(a.path, '/'), Split(b.path, '/'), Split(p.path, '/'));
      }
    }
  }

  lemma PrefixesNested<T>(a: seq<T>, b: seq<T>, whole: seq<T>)
    requires a <= whole && b <= whole
    ensures if |a| <= |b| then a <= b else b <= a
  {
  }

  /** Every declared output of every target of the graph. */
  ghost predicate Declared(nodes: map<TargetLabel, BuildNode>, r: Record) {
    && r.target in nodes && nodes[r.target].kind == TargetNode
    && r.index < |nodes[r.target].outputs| && r.output == nodes[r.target].outputs[r.index]
  }

  /** Two declarations that overlap although no dependency orders their targets. */
  ghost predicate Conflict(g: Digraph, nodes: map<TargetLabel, BuildNode>, a: Record, b: Record) {
    && Declared(nodes, a) && Declared(nodes, b) && a != b
    && Overlaps(a.output, b.output) && !Ordered(g, a.target, b.target)
  }

  // Detection -------------------------------------------------------------------------

  predicate Distinct(records: seq<Record>) {
    forall i, j :: 0 <= i < j < |records| ==> records[i] != records[j]
  }

  /** The records of one kind among the nodes visited so far. */
  ghost predicate Collected(nodes: map<TargetLabel, BuildNode>, visited: set<TargetLabel>, kind: OutputKind,
                            records: seq<Record>)
  {
    && Distinct(records)
    && forall r :: r in records <==> Declared(nodes, r) && r.target in visited && r.output.kind == kind
  }

  /** As Collected, with the first outputs of one more target. */
  ghost predicate CollectedPartly(nodes: map<TargetLabel, BuildNode>, visited: set<TargetLabel>, l: TargetLabel,
                                  upTo: nat, kind: OutputKind, records: seq<Record>)
  {
    Distinct(records) && forall r :: r in records <==>
      Declared(nodes, r) && (r.target in visited || (r.target == l && r.index < upTo)) && r.output.kind == kind
  }

  lemma CollectOne(nodes: map<TargetLabel, BuildNode>, visited: set<TargetLabel>, l: TargetLabel, upTo: nat,
                   kind: OutputKind, records: seq<Record>)
    requires CollectedPartly(nodes, visited, l, upTo, kind, records)
    requires l in nodes && l !in visited && nodes[l].kind == TargetNode && upTo < |nodes[l].outputs|
    ensures var output := nodes[l].outputs[upTo];
      CollectedPartly(nodes, visited, l, upTo + 1, kind,
        if output.kind == kind then records + [Record(l, upTo, output)] else records)
  {
    var output := nodes[l].outputs[upTo];
    assert Record(l, upTo, output) !in records;
  }

  method CollectOutputs(nodes: map<TargetLabel, BuildNode>)
    returns (oci: seq<Record>, dirs: seq<Record>, files: seq<Record>)
    ensures Collected(nodes, nodes.Keys, OciOutput, oci)
    ensures Collected(nodes, nodes.Keys, DirOutput, dirs)
    ensures Collected(nodes, nodes.Keys, FileOutput, files)
  {
    oci, dirs, files := [], [], [];
    var todo := nodes.Keys;
    ghost var visited := {};
    while todo != {}
      invariant todo <= nodes.Keys && visited !! todo && nodes.Keys <= visited + todo
      invariant Collected(nodes, visited, OciOutput, oci)
      invariant Collected(nodes, visited, DirOutput, dirs)
      invariant Collected(nodes, visited, FileOutput, files)
      decreases todo
    {
      var l :| l in todo;
      todo := todo - {l};
      if nodes[l].kind == TargetNode {
        oci, dirs, files := CollectTarget(nodes, visited, l, oci, dirs, files);
      }
      visited := visited + {l};
    }
  }

  method CollectTarget(nodes: map<TargetLabel, BuildNode>, ghost visited: set<TargetLabel>, l: TargetLabel,
                       oci0: seq<Record>, dirs0: seq<Record>, files0: seq<Record>)
    returns (oci: seq<Record>, dirs: seq<Record>, files: seq<Record>)
    requires l in nodes && l !in visited && nodes[l].kind == TargetNode
    requires Collected(nodes, visited, OciOutput, oci0)
    requires Collected(nodes, visited, DirOutput, dirs0)
    requires Collected(nodes, visited, FileOutput, files0)
    ensures Collected(nodes, visited + {l}, OciOutput, oci)
    ensures Collected(nodes, visited + {l}, DirOutput, dirs)
    ensures Collected(nodes, visited + {l}, FileOutput, files)
  {
    oci, dirs, files := oci0, dirs0, files0;
    var outputs := nodes[l].outputs;
    for i := 0 to |outputs|
      invariant CollectedPartly(nodes, visited, l, i, OciOutput, oci)
      invariant CollectedPartly(nodes, visited, l, i, DirOutput, dirs)
      invariant CollectedPartly(nodes, visited, l, i, FileOutput, files)
    {
      CollectOne(nodes, visited, l, i, OciOutput, oci);
      CollectOne(nodes, visited, l, i, DirOutput, dirs);
      CollectOne(nodes, visited, l, i, FileOutput, files);
      var record := Record(l, i, outputs[i]);
      match outputs[i].kind
      case OciOutput => oci := oci + [record];
      case DirOutput => dirs := dirs + [record];
      case FileOutput => files := files + [record];
    }
  }

  /** A pair of listed records that conflicts. */
  ghost predicate PairConflict(g: Digraph, a: Record, b: Record) {
    Overlaps(a.output, b.output) && !Ordered(g, a.target, b.target)
  }

  /** Every reported pair conflicts, and if none is reported no pair of the list does. */
  ghost predicate Checked(g: Digraph, records: seq<Record>, conflicts: seq<(Record, Record)>) {
    && (forall c :: c in conflicts ==> c.0 in records && c.1 in records && c.0 != c.1 && PairConflict(g, c.0, c.1))
    && (conflicts == [] ==> forall a, b :: a in records && b in records && a != b ==> !PairConflict(g, a, b))
  }

  function Key(r: Record): string {
    if r.output.kind == OciOutput then r.output.identifier else r.output.path
  }

  /** Buckets by image tag or file path, as the maps in the source do. */
  method GroupByKey(records: seq<Record>) returns (groups: map<string, seq<Record>>)
    requires Distinct(records)
    ensures forall k :: k in groups ==>
              Distinct(groups[k]) && forall r :: r in groups[k] <==> r in records && Key(r) == k
    ensures forall r :: r in records ==> Key(r) in groups
  {
    groups := map[];
    for i := 0 to |records|
      invariant forall k :: k in groups ==>
                Distinct(groups[k]) && forall r :: r in groups[k] <==> r in records[..i] && Key(r) == k
      invariant forall r :: r in records[..i] ==> Key(r) in groups
    {
      var r := records[i];
      assert records[..i + 1] == records[..i] + [r];
      assert r !in records[..i];
      var group := if Key(r) in groups then groups[Key(r)] else [];
      groups := groups[Key(r) := group + [r]];
    }
    assert records[..|records|] == records;
  }

  method CheckPairs(cache: AncestorCache, records: seq<Record>) returns (conflicts: seq<(Record, Record)>)
    requires cache.Valid() && Distinct(records)
    requires forall r :: r in records ==> r.target in cache.g.nodes
    modifies cache
    ensures cache.Valid() && Checked(cache.g, records, conflicts)
  {
    conflicts := [];
    for i := 0 to |records|
      invariant cache.Valid()
      invariant forall c :: c in conflicts ==>
                c.0 in records && c.1 in records && c.0 != c.1 && PairConflict(cache.g, c.0, c.1)
      invariant conflicts == [] ==> forall x, y :: 0 <= x < y < |records| && x < i ==>
                !PairConflict(cache.g, records[x], records[y])
    {
      for j := i + 1 to |records|
        invariant cache.Valid()
        invariant forall c :: c in conflicts ==>
                  c.0 in records && c.1 in records && c.0 != c.1 && PairConflict(cache.g, c.0, c.1)
        invariant conflicts == [] ==> forall x, y :: 0 <= x < y < |records| && (x < i || (x == i && y < j)) ==>
                  !PairConflict(cache.g, records[x], records[y])
      {
        var ordered := cache.TargetsAreOrdered(records[i].target, records[j].target);
        if ordered {
          continue;
        }
        if Overlaps(records[i].output, records[j].output) {
          conflicts := conflicts + [(records[i], records[j])];
        }
      }
    }
    PairsByIndex(cache.g, records, conflicts);
  }

  lemma PairsByIndex(g: Digraph, records: seq<Record>, conflicts: seq<(Record, Record)>)
    requires conflicts == [] ==> forall x, y :: 0 <= x < y < |records| ==> !PairConflict(g, records[x], records[y])
    ensures conflicts == [] ==> forall a, b :: a in records && b in records && a != b ==> !PairConflict(g, a, b)
  {
    if conflicts == [] {
      forall a, b | a in records && b in records && a != b ensures !PairConflict(g, a, b) {
        var x :| 0 <= x < |records| && records[x] == a;
        var y :| 0 <= y < |records| && records[y] == b;
        OverlapsSymmetric(a.output, b.output);
        assert !PairConflict(g, records[if x < y then x else y], records[if x < y then y else x]);
      }
    }
  }

  /** Checks each bucket; records with different keys of one such kind never overlap. */
  method CheckGroups(cache: AncestorCache, records: seq<Record>) returns (conflicts: seq<(Record, Record)>)
    requires cache.Valid() && Distinct(records)
    requires forall r :: r in records ==> r.target in cache.g.nodes
    requires (forall r :: r in records ==> r.output.kind == OciOutput)
      || (forall r :: r in records ==> r.output.kind == FileOutput)
    modifies cache
    ensures cache.Valid() && Checked(cache.g, records, conflicts)
  {
    var groups := GroupByKey(records);
    conflicts := [];
    var todo := groups.Keys;
    ghost var visited := {};
    while todo != {}
      invariant cache.Valid()
      invariant todo <= groups.Keys && visited !! todo && groups.Keys <= visited + todo
      invariant forall c :: c in conflicts ==>
                c.0 in records && c.1 in records && c.0 != c.1 && PairConflict(cache.g, c.0, c.1)
      invariant conflicts == [] ==>
                forall a, b :: a in records && b in records && a != b && Key(a) == Key(b) && Key(a) in visited ==>
                  !PairConflict(cache.g, a, b)
      decreases todo
    {
      var k :| k in todo;
      todo := todo - {k};
      var found := CheckPairs(cache, groups[k]);
      conflicts := conflicts + found;
      visited := visited + {k};
    }
  }

  method CheckDirsAgainstFiles(cache: AncestorCache, dirs: seq<Record>, files: seq<Record>)
    returns (conflicts: seq<(Record, Record)>)
    requires cache.Valid()
    requires forall r :: r in dirs ==> r.output.kind == DirOutput && r.target in cache.g.nodes
    requires forall r :: r in files ==> r.output.kind == FileOutput && r.target in cache.g.nodes
    modifies cache
    ensures cache.Valid()
    ensures forall c :: c in conflicts ==> c.0 in dirs && c.1 in files && PairConflict(cache.g, c.0, c.1)
    ensures conflicts == [] ==> forall a, b :: a in dirs && b in files ==> !PairConflict(cache.g, a, b)
  {
    conflicts := [];
    for i := 0 to |dirs|
      invariant cache.Valid()
      invariant forall c :: c in conflicts ==> c.0 in dirs && c.1 in files && PairConflict(cache.g, c.0, c.1)
      invariant conflicts == [] ==> forall x, y :: 0 <= x < i && 0 <= y < |files| ==>
                !PairConflict(cache.g, dirs[x], files[y])
    {
      for j := 0 to |files|
        invariant cache.Valid()
        invariant forall c :: c in conflicts ==> c.0 in dirs && c.1 in files && PairConflict(cache.g, c.0, c.1)
        invariant conflicts == [] ==>
                  forall x, y :: 0 <= x < |dirs| && 0 <= y < |files| && (x < i || (x == i && y < j)) ==>
                    !PairConflict(cache.g, dirs[x], files[y])
      {
        var ordered := cache.TargetsAreOrdered(dirs[i].target, files[j].target);
        if ordered {
          continue;
        }
        if PathWithin(files[j].output.path, dirs[i].output.path) {
          conflicts := conflicts + [(dirs[i], files[j])];
        }
      }
    }
  }

  /** Reports only real conflicts, and reports some whenever there are any. */
  method DetectOutputConflicts(g: Digraph, nodes: map<TargetLabel, BuildNode>)
    returns (conflicts: seq<(Record, Record)>)
    requires g.Valid() && g.nodes == nodes.Keys
    ensures forall c :: c in conflicts ==> Conflict(g, nodes, c.0, c.1)
    ensures conflicts == [] <==> forall a, b :: !Conflict(g, nodes, a, b)
  {
    var oci, dirs, files := CollectOutputs(nodes);
    var cache := new AncestorCache(g);
    var ociConflicts := CheckGroups(cache, oci);
    var fileConflicts := CheckGroups(cache, files);
    var dirConflicts := CheckPairs(cache, dirs);
    var mixedConflicts := CheckDirsAgainstFiles(cache, dirs, files);
    conflicts := ociConflicts + fileConflicts + dirConflicts + mixedConflicts;
    if conflicts == [] {
      forall a, b ensures !Conflict(g, nodes, a, b) {
        OverlapsSymmetric(a.output, b.output);
        if Declared(nodes, a) && Declared(nodes, b) && a != b {
          NoPairConflict(g, nodes, oci, dirs, files, a, b);
        }
      }
    } else {
      assert conflicts[0] in conflicts;
      assert Conflict(g, nodes, conflicts[0].0, conflicts[0].1);
    }
  }

  lemma NoPairConflict(g: Digraph, nodes: map<TargetLabel, BuildNode>, oci: seq<Record>, dirs: seq<Record>,
                       files: seq<Record>, a: Record, b: Record)
    requires Collected(nodes, nodes.Keys, OciOutput, oci) && Collected(nodes, nodes.Keys, DirOutput, dirs)
    requires Collected(nodes, nodes.Keys, FileOutput, files)
    requires Checked(g, oci, []) && Checked(g, dirs, []) && Checked(g, files, [])
    requires forall x, y :: x in dirs && y in files ==> !PairConflict(g, x, y)
    requires Declared(nodes, a) && Declared(nodes, b) && a != b
    ensures !PairConflict(g, a, b)
  {
    OverlapsSymmetric(a.output, b.output);
    match (a.output.kind, b.output.kind)
    case (OciOutput, OciOutput) => assert a in oci && b in oci;
    case (FileOutput, FileOutput) => assert a in files && b in files;
    case (DirOutput, DirOutput) => assert a in dirs && b in dirs;
    case (DirOutput, FileOutput) => assert a in dirs && b in files;
    case (FileOutput, DirOutput) => assert b in dirs && a in files; assert !PairConflict(g, b, a);
    case _ =>
  }
}
