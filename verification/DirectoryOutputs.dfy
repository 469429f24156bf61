/**
 Directory outputs as Merkle trees (internal/output/handlers/dir_output_handler.go): a
 directory is flattened into a root message and a digest-keyed list of child messages, and
 rebuilt from them.
 */
module DirectoryOutputs {
  import opened Results
  import opened Sorting

  // Messages (internal/proto/schema/directory.proto) ---------------------------------

  datatype Digest = Digest(hash: string, sizeBytes: nat)

  datatype FileNode = FileNode(name: string, digest: Digest, isExecutable: bool)

  datatype DirectoryNode = DirectoryNode(name: string, digest: Digest)

  datatype SymlinkNode = SymlinkNode(name: string, target: string)

  datatype Directory = Directory(files: seq<FileNode>, directories: seq<DirectoryNode>, symlinks: seq<SymlinkNode>)

  datatype Tree = Tree(root: Directory, children: seq<Directory>)

  /** The configured hash function and the protobuf serialisation. */
  datatype Codec = Codec(
    hash: Bytes -> string,
    directoryBytes: Directory -> Bytes,
    treeBytes: Tree -> Bytes,
    parseTree: Bytes -> Option<Tree>)
  {
    function DigestOf(bytes: Bytes): Digest {
      Digest(hash(bytes), |bytes|)
    }

    function DirectoryDigest(d: Directory): Digest {
      DigestOf(directoryBytes(d))
    }

    /** Serialisation loses nothing. */
    ghost predicate Lossless() {
      && (forall a, b :: directoryBytes(a) == directoryBytes(b) ==> a == b)
      && (forall t :: parseTree(treeBytes(t)) == Some(t))
    }

    /** No two of the given byte strings share a hash. */
    ghost predicate CollisionFree(used: set<Bytes>) {
      forall a, b :: a in used && b in used && hash(a) == hash(b) ==> a == b
    }
  }

  // File system trees -------------------------------------------------------------------

  /** What a path holds; only the executable bit of a file's mode matters. */
  datatype Node =
    | File(content: Bytes, executable: bool)
    | Dir(entries: map<string, Node>)
    | Symlink(target: string)

  /** The message of a directory: its entries sorted by name, split by kind. */
  ghost function DirectoryOf(c: Codec, node: Node): Directory
    requires node.Dir?
    decreases node, 1
  {
    var names := SortedOf(node.entries.Keys);
    Directory(FilesOf(c, node, names), DirectoriesOf(c, node, names), SymlinksOf(node, names))
  }

  ghost function FilesOf(c: Codec, node: Node, names: seq<string>): seq<FileNode>
    requires node.Dir? && forall n :: n in names ==> n in node.entries
  {
    if names == [] then []
    else
      var last := |names| - 1;
      FilesOf(c, node, names[..last]) +
      match node.entries[names[last]]
      case File(content, executable) => [FileNode(names[last], c.DigestOf(content), executable)]
      case _ => []
  }

  ghost function DirectoriesOf(c: Codec, node: Node, names: seq<string>): seq<DirectoryNode>
    requires node.Dir? && forall n :: n in names ==> n in node.entries
    decreases node, 0, |names|
  {
    if names == [] then []
    else
      var last := |names| - 1;
      DirectoriesOf(c, node, names[..last]) +
      match node.entries[names[last]]
      case Dir(_) => [DirectoryNode(names[last], c.DirectoryDigest(DirectoryOf(c, node.entries[names[last]])))]
      case _ => []
  }

  ghost function SymlinksOf(node: Node, names: seq<string>): seq<SymlinkNode>
    requires node.Dir? && forall n :: n in names ==> n in node.entries
  {
    if names == [] then []
    else
      var last := |names| - 1;
      SymlinksOf(node, names[..last]) +
      match node.entries[names[last]]
      case Symlink(target) => [SymlinkNode(names[last], target)]
      case _ => []
  }

  /** The messages of all directories strictly below. */
  ghost function DirectoriesBelow(c: Codec, node: Node): set<Directory>
    requires node.Dir?
    decreases node, 1
  {
    DirectoriesUnder(c, node, SortedOf(node.entries.Keys))
  }

  ghost function DirectoriesUnder(c: Codec, node: Node, names: seq<string>): set<Directory>
    requires node.Dir? && forall n :: n in names ==> n in node.entries
    decreases node, 0, |names|
  {
    if names == [] then {}
    else
      var last := |names| - 1;
      DirectoriesUnder(c, node, names[..last]) +
      match node.entries[names[last]]
      case Dir(_) =>
        {DirectoryOf(c, node.entries[names[last]])} + DirectoriesBelow(c, node.entries[names[last]])
      case _ => {}
  }

  /** The contents of all files below. */
  ghost function ContentsBelow(node: Node): set<Bytes>
    requires node.Dir?
    decreases node, 1
  {
    ContentsUnder(node, SortedOf(node.entries.Keys))
  }

  ghost function ContentsUnder(node: Node, names: seq<string>): set<Bytes>
    requires node.Dir? && forall n :: n in names ==> n in node.entries
    decreases node, 0, |names|
  {
    if names == [] then {}
    else
      var last := |names| - 1;
      ContentsUnder(node, names[..last]) +
      match node.entries[names[last]]
      case Dir(_) => ContentsBelow(node.entries[names[last]])
      case File(content, _) => {content}
      case Symlink(_) => {}
  }

  // Membership: what each name contributes ----------------------------------------------

  lemma {:induction false} FilesMember(c: Codec, node: Node, names: seq<string>, f: FileNode)
    requires node.Dir? && forall n :: n in names ==> n in node.entries
    ensures f in FilesOf(c, node, names) <==>
      f.name in names && node.entries[f.name].File?
      && f == FileNode(f.name, c.DigestOf(node.entries[f.name].content), node.entries[f.name].executable)
  {
    if names != [] {
      var front, name := names[..|names| - 1], names[|names| - 1];
      assert names == front + [name];
      FilesMember(c, node, front, f);
    }
  }

  lemma {:induction false} DirectoriesMember(c: Codec, node: Node, names: seq<string>, d: DirectoryNode)
    requires node.Dir? && forall n :: n in names ==> n in node.entries
    ensures d in DirectoriesOf(c, node, names) <==>
      d.name in names && node.entries[d.name].Dir?
      && d == DirectoryNode(d.name, c.DirectoryDigest(DirectoryOf(c, node.entries[d.name])))
  {
    if names != [] {
      var front, name := names[..|names| - 1], names[|names| - 1];
      assert names == front + [name];
      DirectoriesMember(c, node, front, d);
    }
  }

  lemma {:induction false} SymlinksMember(node: Node, names: seq<string>, l: SymlinkNode)
    requires node.Dir? && forall n :: n in names ==> n in node.entries
    ensures l in SymlinksOf(node, names) <==>
      l.name in names && node.entries[l.name].Symlink? && l == SymlinkNode(l.name, node.entries[l.name].target)
  {
    if names != [] {
      var front, name := names[..|names| - 1], names[|names| - 1];
      assert names == front + [name];
      SymlinksMember(node, front, l);
      var part := if node.entries[name].Symlink? then [SymlinkNode(name, node.entries[name].target)] else [];
      assert SymlinksOf(node, names) == SymlinksOf(node, front) + part;
      assert l in SymlinksOf(node, names) <==> l in SymlinksOf(node, front) || l in part;
    }
  }

  lemma {:induction false} UnderMember(c: Codec, node: Node, names: seq<string>, n: string)
    requires node.Dir? && forall n :: n in names ==> n in node.entries
    requires n in names
    ensures node.entries[n].Dir? ==>
      && DirectoryOf(c, node.entries[n]) in DirectoriesUnder(c, node, names)
      && DirectoriesBelow(c, node.entries[n]) <= DirectoriesUnder(c, node, names)
      && ContentsBelow(node.entries[n]) <= ContentsUnder(node, names)
    ensures node.entries[n].File? ==> node.entries[n].content in ContentsUnder(node, names)
  {
    var front, name := names[..|names| - 1], names[|names| - 1];
    assert names == front + [name];
    if n != name {
      UnderMember(c, node, front, n);
    }
  }

  // Writing ------------------------------------------------------------------------------

  /** A staged file: its digest and an immutable snapshot of its bytes. */
  datatype FileUpload = FileUpload(digest: Digest, content: Bytes)

  ghost predicate UploadsOf(c: Codec, uploads: seq<FileUpload>, contents: set<Bytes>) {
    && (forall u :: u in uploads ==> u.content in contents && u.digest == c.DigestOf(u.content))
    && (forall b :: b in contents ==> FileUpload(c.DigestOf(b), b) in uploads)
  }

  lemma UploadsUnion(c: Codec, u: seq<FileUpload>, a: set<Bytes>, v: seq<FileUpload>, b: set<Bytes>)
    requires UploadsOf(c, u, a) && UploadsOf(c, v, b)
    ensures UploadsOf(c, u + v, a + b)
  {
  }

  /** The child messages by hash: one of the given directories under each of their hashes. */
  ghost predicate ChildrenOf(c: Codec, children: map<string, Directory>, ds: set<Directory>) {
    && (forall d :: d in ds ==> c.DirectoryDigest(d).hash in children)
    && (forall h :: h in children ==> children[h] in ds && c.DirectoryDigest(children[h]).hash == h)
  }

  /** The message over the first names. */
  ghost function MessageUpTo(c: Codec, node: Node, names: seq<string>): Directory
    requires node.Dir? && forall n :: n in names ==> n in node.entries
  {
    Directory(FilesOf(c, node, names), DirectoriesOf(c, node, names), SymlinksOf(node, names))
  }

  ghost function WithEntry(c: Codec, entry: Node, name: string, dir: Directory): Directory {
    match entry
    case File(content, executable) => dir.(files := dir.files + [FileNode(name, c.DigestOf(content), executable)])
    case Dir(_) =>
      dir.(directories := dir.directories + [DirectoryNode(name, c.DirectoryDigest(DirectoryOf(c, entry)))])
    case Symlink(target) => dir.(symlinks := dir.symlinks + [SymlinkNode(name, target)])
  }

  ghost function EntryDirectories(c: Codec, entry: Node): set<Directory> {
    match entry
    case Dir(_) => {DirectoryOf(c, entry)} + DirectoriesBelow(c, entry)
    case _ => {}
  }

  ghost function EntryContents(entry: Node): set<Bytes> {
    match entry
    case File(content, _) => {content}
    case Dir(_) => ContentsBelow(entry)
    case Symlink(_) => {}
  }

  lemma OneMoreName(c: Codec, node: Node, names: seq<string>, i: nat, known: set<Directory>, before: set<Directory>)
    requires node.Dir? && i < |names| && forall n :: n in names ==> n in node.entries
    requires known == before + DirectoriesUnder(c, node, names[..i])
    ensures var entry := node.entries[names[i]];
      && MessageUpTo(c, node, names[..i + 1]) == WithEntry(c, entry, names[i], MessageUpTo(c, node, names[..i]))
      && before + DirectoriesUnder(c, node, names[..i + 1]) == known + EntryDirectories(c, entry)
  {
    var soFar := names[..i + 1];
    assert soFar[..|soFar| - 1] == names[..i] && soFar[|soFar| - 1] == names[i];
  }

  lemma OneMoreUpload(c: Codec, node: Node, names: seq<string>, i: nat, uploads: seq<FileUpload>, more: seq<FileUpload>)
    requires node.Dir? && i < |names| && forall n :: n in names ==> n in node.entries
    requires UploadsOf(c, uploads, ContentsUnder(node, names[..i]))
    requires UploadsOf(c, more, EntryContents(node.entries[names[i]]))
    ensures UploadsOf(c, uploads + more, ContentsUnder(node, names[..i + 1]))
  {
    var soFar := names[..i + 1];
    assert soFar[..|soFar| - 1] == names[..i] && soFar[|soFar| - 1] == names[i];
    UploadsUnion(c, uploads, ContentsUnder(node, names[..i]), more, EntryContents(node.entries[names[i]]));
  }

  class DirectoryBuilder {
    const c: Codec
    var children: map<string, Directory>

    constructor (c: Codec)
      ensures this.c == c && children == map[]
    {
      this.c := c;
      children := map[];
    }

    /**
     Reads a directory, sorts its entries and builds its message; collects the messages of
     all directories below, keyed by hash, and the files to upload.
     */
    method WriteDirectoryRecursive(node: Node, ghost before: set<Directory>)
      returns (dir: Directory, uploads: seq<FileUpload>)
      requires node.Dir? && ChildrenOf(c, children, before)
      modifies this
      ensures dir == DirectoryOf(c, node)
      ensures ChildrenOf(c, children, before + DirectoriesBelow(c, node))
      ensures UploadsOf(c, uploads, ContentsBelow(node))
      decreases node, 1
    {
      var names := SortedKeys(node.entries.Keys);
      dir, uploads := Directory([], [], []), [];
      for i := 0 to |names|
        invariant ChildrenOf(c, children, before + DirectoriesUnder(c, node, names[..i]))
        invariant UploadsOf(c, uploads, ContentsUnder(node, names[..i]))
        invariant dir == MessageUpTo(c, node, names[..i])
      {
        dir, uploads := WriteNext(node, names, i, dir, uploads, before);
      }
      assert names[..|names|] == names;
    }

    /** What the directory contributes up to name `i` grows by that name's entry. */
    method WriteNext(node: Node, names: seq<string>, i: nat, dir: Directory, uploads: seq<FileUpload>,
                     ghost before: set<Directory>)
      returns (dir': Directory, uploads': seq<FileUpload>)
      requires node.Dir? && i < |names| && forall n :: n in names ==> n in node.entries
      requires ChildrenOf(c, children, before + DirectoriesUnder(c, node, names[..i]))
      requires UploadsOf(c, uploads, ContentsUnder(node, names[..i]))
      requires dir == MessageUpTo(c, node, names[..i])
      modifies this
      ensures ChildrenOf(c, children, before + DirectoriesUnder(c, node, names[..i + 1]))
      ensures UploadsOf(c, uploads', ContentsUnder(node, names[..i + 1]))
      ensures dir' == MessageUpTo(c, node, names[..i + 1])
      decreases node, 0, 1
    {
      ghost var known := before + DirectoriesUnder(c, node, names[..i]);
      var more;
      dir', more := WriteEntry(node, names[i], dir, known);
      OneMoreName(c, node, names, i, known, before);
      OneMoreUpload(c, node, names, i, uploads, more);
      uploads' := uploads + more;
    }

    /** Adds one entry to the message; a subdirectory is written first. */
    method WriteEntry(node: Node, name: string, dir: Directory, ghost known: set<Directory>)
      returns (dir': Directory, uploads: seq<FileUpload>)
      requires node.Dir? && name in node.entries && ChildrenOf(c, children, known)
      modifies this
      ensures dir' == WithEntry(c, node.entries[name], name, dir)
      ensures ChildrenOf(c, children, known + EntryDirectories(c, node.entries[name]))
      ensures UploadsOf(c, uploads, EntryContents(node.entries[name]))
      decreases node, 0, 0
    {
      match node.entries[name]
      case Symlink(target) =>
        assert known + EntryDirectories(c, node.entries[name]) == known;
        dir', uploads := dir.(symlinks := dir.symlinks + [SymlinkNode(name, target)]), [];
      case File(content, executable) =>
        assert known + EntryDirectories(c, node.entries[name]) == known;
        dir' := dir.(files := dir.files + [FileNode(name, c.DigestOf(content), executable)]);
        uploads := [FileUpload(c.DigestOf(content), content)];
      case Dir(_) =>
        var sub := node.entries[name];
        var subDir;
        subDir, uploads := WriteDirectoryRecursive(sub, known);
        AddChild(subDir, known + DirectoriesBelow(c, sub));
        assert known + DirectoriesBelow(c, sub) + {subDir} == known + EntryDirectories(c, sub);
        dir' := dir.(directories := dir.directories + [DirectoryNode(name, c.DirectoryDigest(subDir))]);
    }

    /** The first message recorded under a hash stays. */
    method AddChild(subDir: Directory, ghost known: set<Directory>)
      requires ChildrenOf(c, children, known)
      modifies this
      ensures ChildrenOf(c, children, known + {subDir})
    {
      var digest := c.DirectoryDigest(subDir);
      if digest.hash !in children {
        children := children[digest.hash := subDir];
      }
    }

    /** The children in ascending order of their hashes. */
    method SortedChildren(ghost ds: set<Directory>) returns (sorted: seq<Directory>)
      requires ChildrenOf(c, children, ds)
      ensures SortedByHash(c, sorted, ds)
    {
      var hashes := SortedKeys(children.Keys);
      sorted := Picked(children, hashes);
      HashesInOrder(c, children, ds, hashes, sorted);
    }
  }

  method Picked(children: map<string, Directory>, hashes: seq<string>) returns (picked: seq<Directory>)
    requires forall h :: h in hashes ==> h in children
    ensures |picked| == |hashes| && forall j :: 0 <= j < |hashes| ==> picked[j] == children[hashes[j]]
  {
    picked := [];
    for i := 0 to |hashes|
      invariant |picked| == i
      invariant forall j :: 0 <= j < i ==> picked[j] == children[hashes[j]]
    {
      picked := picked + [children[hashes[i]]];
    }
  }

  ghost function HashesOf(c: Codec, ds: seq<Directory>): seq<string> {
    seq(|ds|, i requires 0 <= i < |ds| => c.DirectoryDigest(ds[i]).hash)
  }

  /** One of the given directories under each of their hashes, in ascending order of the hashes. */
  ghost predicate SortedByHash(c: Codec, sorted: seq<Directory>, ds: set<Directory>) {
    && StrictlySorted(HashesOf(c, sorted))
    && (forall d :: d in sorted ==> d in ds)
    && (forall d :: d in ds ==> c.DirectoryDigest(d).hash in HashesOf(c, sorted))
  }

  lemma HashesInOrder(c: Codec, children: map<string, Directory>, ds: set<Directory>, hashes: seq<string>,
                      sorted: seq<Directory>)
    requires ChildrenOf(c, children, ds) && hashes == SortedOf(children.Keys) && |sorted| == |hashes|
    requires forall j :: 0 <= j < |hashes| ==> hashes[j] in children && sorted[j] == children[hashes[j]]
    ensures SortedByHash(c, sorted, ds)
  {
    assert HashesOf(c, sorted) == hashes;
  }

  /** The tree message of a directory. */
  ghost predicate IsTreeOf(c: Codec, node: Node, tree: Tree)
    requires node.Dir?
  {
    tree.root == DirectoryOf(c, node) && SortedByHash(c, tree.children, DirectoriesBelow(c, node))
  }

  /** What Write hands to the cache writer: the tree and the staged files. */
  datatype DirectoryPlan = DirectoryPlan(tree: Tree, treeBytes: Bytes, treeHash: string, uploads: seq<FileUpload>)

  ghost predicate IsPlanOf(c: Codec, node: Node, plan: DirectoryPlan)
    requires node.Dir?
  {
    && IsTreeOf(c, node, plan.tree)
    && plan.treeBytes == c.treeBytes(plan.tree)
    && plan.treeHash == c.hash(plan.treeBytes)
    && UploadsOf(c, plan.uploads, ContentsBelow(node))
  }

  method Write(c: Codec, node: Node) returns (plan: DirectoryPlan)
    requires node.Dir?
    ensures IsPlanOf(c, node, plan)
  {
    var builder := new DirectoryBuilder(c);
    var root, uploads := builder.WriteDirectoryRecursive(node, {});
    assert {} + DirectoriesBelow(c, node) == DirectoriesBelow(c, node);
    var children := builder.SortedChildren(DirectoriesBelow(c, node));
    var tree := Tree(root, children);
    plan := DirectoryPlan(tree, c.treeBytes(tree), c.hash(c.treeBytes(tree)), uploads);
  }

  // Injectivity ----------------------------------------------------------------------------

  /** The byte strings whose hashes a directory's messages contain. */
  ghost function HashedBelow(c: Codec, node: Node): set<Bytes>
    requires node.Dir?
  {
    ContentsBelow(node) + set d | d in DirectoriesBelow(c, node) :: c.directoryBytes(d)
  }

  lemma HashedInEntry(c: Codec, node: Node, n: string)
    requires node.Dir? && n in node.entries
    ensures node.entries[n].Dir? ==>
      && HashedBelow(c, node.entries[n]) <= HashedBelow(c, node)
      && c.directoryBytes(DirectoryOf(c, node.entries[n])) in HashedBelow(c, node)
    ensures node.entries[n].File? ==> node.entries[n].content in HashedBelow(c, node)
  {
    UnderMember(c, node, SortedOf(node.entries.Keys), n);
  }

  /** Without collisions among what they hash, equal messages come from equal directories. */
  lemma {:induction false} DirectoryInjective(c: Codec, a: Node, b: Node)
    requires a.Dir? && b.Dir? && DirectoryOf(c, a) == DirectoryOf(c, b)
    requires c.Lossless() && c.CollisionFree(HashedBelow(c, a) + HashedBelow(c, b))
    ensures a == b
    decreases a
  {
    forall n | n in a.entries ensures n in b.entries && a.entries[n] == b.entries[n] {
      EntryInjective(c, a, b, n);
    }
    forall n | n in b.entries ensures n in a.entries {
      EntryPresent(c, b, a, n);
    }
    assert a.entries == b.entries;
  }

  /** An entry of one directory has a counterpart of the same kind in a directory with the same message. */
  lemma EntryPresent(c: Codec, a: Node, b: Node, n: string)
    requires a.Dir? && b.Dir? && DirectoryOf(c, a) == DirectoryOf(c, b)
    requires n in a.entries
    ensures n in b.entries
    ensures match a.entries[n]
      case File(content, executable) =>
        b.entries[n].File? && b.entries[n].executable == executable && c.hash(b.entries[n].content) == c.hash(content)
      case Dir(_) =>
        && b.entries[n].Dir?
        && c.DirectoryDigest(DirectoryOf(c, b.entries[n])) == c.DirectoryDigest(DirectoryOf(c, a.entries[n]))
      case Symlink(target) => b.entries[n] == Symlink(target)
  {
    var names, others := SortedOf(a.entries.Keys), SortedOf(b.entries.Keys);
    match a.entries[n]
    case File(content, executable) =>
      var f := FileNode(n, c.DigestOf(content), executable);
      FilesMember(c, a, names, f);
      FilesMember(c, b, others, f);
    case Dir(_) =>
      var d := DirectoryNode(n, c.DirectoryDigest(DirectoryOf(c, a.entries[n])));
      DirectoriesMember(c, a, names, d);
      DirectoriesMember(c, b, others, d);
    case Symlink(target) =>
      var l := SymlinkNode(n, target);
      SymlinksMember(a, names, l);
      SymlinksMember(b, others, l);
  }

  lemma {:induction false} EntryInjective(c: Codec, a: Node, b: Node, n: string)
    requires a.Dir? && b.Dir? && DirectoryOf(c, a) == DirectoryOf(c, b)
    requires c.Lossless() && c.CollisionFree(HashedBelow(c, a) + HashedBelow(c, b))
    requires n in a.entries
    ensures n in b.entries && a.entries[n] == b.entries[n]
    decreases a, 0
  {
    EntryPresent(c, a, b, n);
    HashedInEntry(c, a, n);
    HashedInEntry(c, b, n);
    if a.entries[n].Dir? {
      var x, y := a.entries[n], b.entries[n];
      assert DirectoryOf(c, x) == DirectoryOf(c, y);
      assert HashedBelow(c, x) + HashedBelow(c, y) <= HashedBelow(c, a) + HashedBelow(c, b);
      DirectoryInjective(c, x, y);
    }
  }

  /** Two tree messages of one directory are equal: listing order and insertion order leave no trace. */
  lemma TreeUnique(c: Codec, node: Node, s: Tree, t: Tree)
    requires node.Dir? && IsTreeOf(c, node, s) && IsTreeOf(c, node, t)
    requires c.Lossless() && c.CollisionFree(HashedBelow(c, node))
    ensures s == t
  {
    var hs, ht := HashesOf(c, s.children), HashesOf(c, t.children);
    forall h ensures h in hs <==> h in ht {
      SameHashes(c, node, s, t, h);
      SameHashes(c, node, t, s, h);
    }
    SortedUnique(hs, ht);
    forall i | 0 <= i < |hs| ensures s.children[i] == t.children[i] {
      assert hs[i] == ht[i];
      assert s.children[i] in s.children && t.children[i] in t.children;
    }
  }

  lemma SameHashes(c: Codec, node: Node, s: Tree, t: Tree, h: string)
    requires node.Dir? && IsTreeOf(c, node, s) && IsTreeOf(c, node, t)
    ensures h in HashesOf(c, s.children) ==> h in HashesOf(c, t.children)
  {
    if h in HashesOf(c, s.children) {
      var i :| 0 <= i < |s.children| && HashesOf(c, s.children)[i] == h;
      assert s.children[i] in s.children;
    }
  }

  /** Every byte string hashed for a directory, its tree message included. */
  ghost function HashedFor(c: Codec, node: Node, tree: Tree): set<Bytes>
    requires node.Dir?
  {
    HashedBelow(c, node) + {c.treeBytes(tree)}
  }

  /** Equal tree hashes mean equal directories, so Load may keep a local directory with the same hash. */
  lemma TreeHashIdentifiesDirectory(c: Codec, a: Node, s: Tree, b: Node, t: Tree)
    requires a.Dir? && b.Dir? && IsTreeOf(c, a, s) && IsTreeOf(c, b, t)
    requires c.Lossless() && c.CollisionFree(HashedFor(c, a, s) + HashedFor(c, b, t))
    ensures c.hash(c.treeBytes(s)) == c.hash(c.treeBytes(t)) <==> a == b
  {
    if c.hash(c.treeBytes(s)) == c.hash(c.treeBytes(t)) {
      assert c.treeBytes(s) in HashedFor(c, a, s) && c.treeBytes(t) in HashedFor(c, b, t);
      assert c.parseTree(c.treeBytes(s)) == Some(s) && c.parseTree(c.treeBytes(t)) == Some(t);
      DirectoryInjective(c, a, b);
    }
    if a == b {
      TreeUnique(c, a, s, t);
    }
  }

  // Loading ----------------------------------------------------------------------------------

  datatype LoadError =
    | TreeMissing
    | TreeCorrupt
    | FileMissing(hash: string)
    | ChildMissing(hash: string)
    | NameTaken(name: string)
    | TooDeep

  ghost predicate FitsDepth(node: Node, depth: nat)
    decreases depth
  {
    node.Dir? ==> depth > 0 && forall n :: n in node.entries ==> FitsDepth(node.entries[n], depth - 1)
  }

  lemma {:induction false} FitsDeeper(node: Node, depth: nat, deeper: nat)
    requires FitsDepth(node, depth) && depth <= deeper
    ensures FitsDepth(node, deeper)
    decreases depth
  {
    if node.Dir? {
      forall n | n in node.entries ensures FitsDepth(node.entries[n], deeper - 1) {
        FitsDeeper(node.entries[n], depth - 1, deeper - 1);
      }
    }
  }

  /** Every directory tree is finite, so some depth is enough for it. */
  lemma {:induction false} SomeDepthFits(node: Node) returns (depth: nat)
    ensures FitsDepth(node, depth)
    decreases node, 1
  {
    if node.Dir? {
      var below := SomeDepthFitsAll(node, node.entries.Keys);
      depth := below + 1;
    } else {
      depth := 0;
    }
  }

  lemma {:induction false} SomeDepthFitsAll(node: Node, names: set<string>) returns (depth: nat)
    requires node.Dir? && names <= node.entries.Keys
    ensures forall n :: n in names ==> FitsDepth(node.entries[n], depth)
    decreases node, 0, names
  {
    if names == {} {
      depth := 0;
    } else {
      var n :| n in names;
      var one := SomeDepthFits(node.entries[n]);
      var rest := SomeDepthFitsAll(node, names - {n});
      depth := if one < rest then rest else one;
      FitsDeeper(node.entries[n], one, depth);
      forall m | m in names && m != n ensures FitsDepth(node.entries[m], depth) {
        FitsDeeper(node.entries[m], rest, depth);
      }
    }
  }

  /** The contents of all files below are in the store under their hashes. */
  ghost predicate ContentsStored(c: Codec, cas: map<string, Bytes>, node: Node)
    requires node.Dir?
  {
    forall b :: b in ContentsBelow(node) ==> c.hash(b) in cas && cas[c.hash(b)] == b
  }

  /** Every message below is found under its hash. */
  ghost predicate ChildrenFound(c: Codec, children: map<string, Directory>, node: Node)
    requires node.Dir?
  {
    forall d :: d in DirectoriesBelow(c, node) ==>
      c.DirectoryDigest(d).hash in children && children[c.DirectoryDigest(d).hash] == d
  }

  /** Everything Load needs to rebuild the directory is there. */
  ghost predicate Restorable(c: Codec, cas: map<string, Bytes>, children: map<string, Directory>, node: Node,
                             depth: nat)
  {
    node.Dir? && ContentsStored(c, cas, node) && ChildrenFound(c, children, node) && FitsDepth(node, depth)
  }

  lemma RestorableBelow(c: Codec, cas: map<string, Bytes>, children: map<string, Directory>, node: Node, depth: nat,
                        n: string)
    requires Restorable(c, cas, children, node, depth) && n in node.entries
    ensures node.entries[n].File? ==>
      c.hash(node.entries[n].content) in cas && cas[c.hash(node.entries[n].content)] == node.entries[n].content
    ensures node.entries[n].Dir? ==>
      && Restorable(c, cas, children, node.entries[n], depth - 1)
      && var d := DirectoryOf(c, node.entries[n]);
         c.DirectoryDigest(d).hash in children && children[c.DirectoryDigest(d).hash] == d
  {
    UnderMember(c, node, SortedOf(node.entries.Keys), n);
  }

  /** The rebuilt entries agree with the original ones. */
  ghost predicate PartOf(entries: map<string, Node>, node: Node) {
    node.Dir? && forall n :: n in entries ==> n in node.entries && entries[n] == node.entries[n]
  }

  lemma {:induction false} FileNamesDistinct(c: Codec, node: Node, names: seq<string>)
    requires node.Dir? && (forall n :: n in names ==> n in node.entries) && StrictlySorted(names)
    ensures forall i, j :: 0 <= i < j < |FilesOf(c, node, names)| ==>
      FilesOf(c, node, names)[i].name != FilesOf(c, node, names)[j].name
  {
    if names != [] {
      var front, name := names[..|names| - 1], names[|names| - 1];
      FileNamesDistinct(c, node, front);
      LastIsNew(names);
      forall f | f in FilesOf(c, node, front) ensures f.name != name {
        FilesMember(c, node, front, f);
      }
    }
  }

  lemma {:induction false} DirectoryNamesDistinct(c: Codec, node: Node, names: seq<string>)
    requires node.Dir? && (forall n :: n in names ==> n in node.entries) && StrictlySorted(names)
    ensures forall i, j :: 0 <= i < j < |DirectoriesOf(c, node, names)| ==>
      DirectoriesOf(c, node, names)[i].name != DirectoriesOf(c, node, names)[j].name
  {
    if names != [] {
      var front, name := names[..|names| - 1], names[|names| - 1];
      DirectoryNamesDistinct(c, node, front);
      LastIsNew(names);
      forall d | d in DirectoriesOf(c, node, front) ensures d.name != name {
        DirectoriesMember(c, node, front, d);
      }
    }
  }

  lemma {:induction false} SymlinkNamesDistinct(node: Node, names: seq<string>)
    requires node.Dir? && (forall n :: n in names ==> n in node.entries) && StrictlySorted(names)
    ensures forall i, j :: 0 <= i < j < |SymlinksOf(node, names)| ==>
      SymlinksOf(node, names)[i].name != SymlinksOf(node, names)[j].name
  {
    if names != [] {
      var front, name := names[..|names| - 1], names[|names| - 1];
      SymlinkNamesDistinct(node, front);
      LastIsNew(names);
      forall l | l in SymlinksOf(node, front) ensures l.name != name {
        SymlinksMember(node, front, l);
      }
    }
  }

  lemma LastIsNew(names: seq<string>)
    requires StrictlySorted(names) && names != []
    ensures names[|names| - 1] !in names[..|names| - 1]
  {
    LessIrreflexive(names[|names| - 1]);
  }

  /** The original entries of the wanted kinds. */
  ghost function Kept(node: Node, files: bool, directories: bool): map<string, Node>
    requires node.Dir?
  {
    map n |
      && n in node.entries
      && (if node.entries[n].File? then files else if node.entries[n].Dir? then directories else false)
      :: node.entries[n]
  }

  ghost function FileNames(files: seq<FileNode>): set<string> {
    set f | f in files :: f.name
  }

  ghost function DirectoryNames(directories: seq<DirectoryNode>): set<string> {
    set d | d in directories :: d.name
  }

  ghost function SymlinkNames(symlinks: seq<SymlinkNode>): set<string> {
    set l | l in symlinks :: l.name
  }

  /** A file of an honest message is new and comes back as it was. */
  lemma FileComesBack(c: Codec, cas: map<string, Bytes>, node: Node, i: nat)
    requires node.Dir? && ContentsStored(c, cas, node) && i < |DirectoryOf(c, node).files|
    ensures var f := DirectoryOf(c, node).files[i];
      && f.name !in FileNames(DirectoryOf(c, node).files[..i])
      && f.digest.hash in cas && f.name in node.entries
      && node.entries[f.name] == File(cas[f.digest.hash], f.isExecutable)
  {
    var names := SortedOf(node.entries.Keys);
    var f := DirectoryOf(c, node).files[i];
    FileNamesDistinct(c, node, names);
    FilesMember(c, node, names, f);
    UnderMember(c, node, names, f.name);
  }

  lemma FilesComplete(c: Codec, node: Node, entries: map<string, Node>)
    requires PartOf(entries, node) && entries.Keys == FileNames(DirectoryOf(c, node).files)
    ensures entries == Kept(node, true, false)
  {
    var names := SortedOf(node.entries.Keys);
    forall n ensures n in entries <==> n in Kept(node, true, false) {
      if n in node.entries && node.entries[n].File? {
        FilesMember(c, node, names, FileNode(n, c.DigestOf(node.entries[n].content), node.entries[n].executable));
      }
      if n in entries {
        var f :| f in DirectoryOf(c, node).files && f.name == n;
        FilesMember(c, node, names, f);
      }
    }
  }

  // What a loaded directory is, whatever the message and the store ---------------------------

  /** The file of a message is there, with the stored content under its digest. */
  ghost predicate FileRestored(cas: map<string, Bytes>, f: FileNode, entries: map<string, Node>) {
    f.digest.hash in cas && f.name in entries && entries[f.name] == File(cas[f.digest.hash], f.isExecutable)
  }

  ghost predicate LinkRestored(l: SymlinkNode, entries: map<string, Node>) {
    l.name in entries && entries[l.name] == Symlink(l.target)
  }

  ghost predicate FilesRestored(cas: map<string, Bytes>, files: seq<FileNode>, entries: map<string, Node>) {
    forall i {:trigger files[i]} :: 0 <= i < |files| ==> FileRestored(cas, files[i], entries)
  }

  ghost predicate LinksRestored(links: seq<SymlinkNode>, entries: map<string, Node>) {
    forall i {:trigger links[i]} :: 0 <= i < |links| ==> LinkRestored(links[i], entries)
  }

  /** Each subdirectory of a message is there, restored from the message that its digest names. */
  ghost predicate SubsRestored(cas: map<string, Bytes>, children: map<string, Directory>, subs: seq<DirectoryNode>,
                               entries: map<string, Node>, depth: nat)
    decreases depth, 0
  {
    forall i {:trigger subs[i]} :: 0 <= i < |subs| ==>
      && subs[i].digest.hash in children && subs[i].name in entries && depth > 0
      && Restores(cas, children, children[subs[i].digest.hash], entries[subs[i].name], depth - 1)
  }

  /** The directory has exactly the entries of the message, all the way down. */
  ghost predicate Restores(cas: map<string, Bytes>, children: map<string, Directory>, dir: Directory, node: Node,
                           depth: nat)
    decreases depth, 1
  {
    && node.Dir?
    && node.entries.Keys == FileNames(dir.files) + DirectoryNames(dir.directories) + SymlinkNames(dir.symlinks)
    && FilesRestored(cas, dir.files, node.entries)
    && SubsRestored(cas, children, dir.directories, node.entries, depth)
    && LinksRestored(dir.symlinks, node.entries)
  }

  /** Entries that are added later leave what is there. */
  ghost predicate Extends(entries: map<string, Node>, entries': map<string, Node>) {
    forall n :: n in entries ==> n in entries' && entries'[n] == entries[n]
  }

  lemma FilesStay(cas: map<string, Bytes>, files: seq<FileNode>, entries: map<string, Node>,
                  entries': map<string, Node>)
    requires FilesRestored(cas, files, entries) && Extends(entries, entries')
    ensures FilesRestored(cas, files, entries')
  {
    forall i | 0 <= i < |files| ensures FileRestored(cas, files[i], entries') {
      assert FileRestored(cas, files[i], entries);
    }
  }

  lemma SubsStay(cas: map<string, Bytes>, children: map<string, Directory>, subs: seq<DirectoryNode>,
                 entries: map<string, Node>, entries': map<string, Node>, depth: nat)
    requires SubsRestored(cas, children, subs, entries, depth) && Extends(entries, entries')
    ensures SubsRestored(cas, children, subs, entries', depth)
  {
  }

  lemma OneMoreFile(cas: map<string, Bytes>, files: seq<FileNode>, i: nat, entries: map<string, Node>)
    requires i < |files| && FilesRestored(cas, files[..i], entries)
    requires files[i].digest.hash in cas && files[i].name !in entries
    ensures FilesRestored(cas, files[..i + 1],
                          entries[files[i].name := File(cas[files[i].digest.hash], files[i].isExecutable)])
  {
    var f := files[i];
    FilesStay(cas, files[..i], entries, entries[f.name := File(cas[f.digest.hash], f.isExecutable)]);
    assert forall k :: 0 <= k < i ==> files[..i + 1][k] == files[..i][k];
  }

  lemma OneMoreSub(cas: map<string, Bytes>, children: map<string, Directory>, subs: seq<DirectoryNode>, i: nat,
                   entries: map<string, Node>, depth: nat, sub: Node)
    requires i < |subs| && depth > 0 && SubsRestored(cas, children, subs[..i], entries, depth)
    requires subs[i].digest.hash in children && subs[i].name !in entries
    requires Restores(cas, children, children[subs[i].digest.hash], sub, depth - 1)
    ensures SubsRestored(cas, children, subs[..i + 1], entries[subs[i].name := sub], depth)
  {
    SubsStay(cas, children, subs[..i], entries, entries[subs[i].name := sub], depth);
    assert forall k :: 0 <= k < i ==> subs[..i + 1][k] == subs[..i][k];
  }

  lemma OneMoreLink(links: seq<SymlinkNode>, i: nat, entries: map<string, Node>)
    requires i < |links| && LinksRestored(links[..i], entries) && links[i].name !in entries
    ensures LinksRestored(links[..i + 1], entries[links[i].name := Symlink(links[i].target)])
  {
    var entries' := entries[links[i].name := Symlink(links[i].target)];
    var soFar := links[..i + 1];
    forall k | 0 <= k < |soFar| ensures LinkRestored(soFar[k], entries') {
      assert k < i ==> soFar[k] == links[..i][k] && LinkRestored(links[..i][k], entries);
    }
  }

  /** Downloads the files of one directory. */
  method CreateFiles(c: Codec, cas: map<string, Bytes>, files: seq<FileNode>, ghost node: Node)
    returns (result: Result<map<string, Node>, LoadError>)
    ensures node.Dir? && ContentsStored(c, cas, node) && files == DirectoryOf(c, node).files ==>
      result == Ok(Kept(node, true, false))
    ensures result.Err? ==> match result.error
      case FileMissing(h) => h !in cas
      case NameTaken(n) => n in FileNames(files)
      case _ => false
    ensures result.Ok? ==> result.value.Keys == FileNames(files) && FilesRestored(cas, files, result.value)
  {
    var entries: map<string, Node> := map[];
    ghost var honest := node.Dir? && ContentsStored(c, cas, node) && files == DirectoryOf(c, node).files;
    for i := 0 to |files|
      invariant entries.Keys == FileNames(files[..i]) && FilesRestored(cas, files[..i], entries)
      invariant honest ==> PartOf(entries, node)
    {
      var f := files[i];
      assert files[..i + 1] == files[..i] + [f];
      if honest {
        FileComesBack(c, cas, node, i);
      }
      if f.digest.hash !in cas {
        return Err(FileMissing(f.digest.hash));
      }
      if f.name in entries {
        assert f in files;
        return Err(NameTaken(f.name));
      }
      OneMoreFile(cas, files, i, entries);
      entries := entries[f.name := File(cas[f.digest.hash], f.isExecutable)];
    }
    assert files[..|files|] == files;
    if honest {
      FilesComplete(c, node, entries);
    }
    return Ok(entries);
  }

  lemma DirectoryComesBack(c: Codec, cas: map<string, Bytes>, children: map<string, Directory>, node: Node, depth: nat,
                           i: nat)
    requires Restorable(c, cas, children, node, depth) && i < |DirectoryOf(c, node).directories|
    ensures var d := DirectoryOf(c, node).directories[i];
      && d.name !in DirectoryNames(DirectoryOf(c, node).directories[..i])
      && d.name in node.entries && node.entries[d.name].Dir?
      && d.digest.hash in children && children[d.digest.hash] == DirectoryOf(c, node.entries[d.name])
      && depth > 0 && Restorable(c, cas, children, node.entries[d.name], depth - 1)
  {
    var names := SortedOf(node.entries.Keys);
    var d := DirectoryOf(c, node).directories[i];
    DirectoryNamesDistinct(c, node, names);
    DirectoriesMember(c, node, names, d);
    RestorableBelow(c, cas, children, node, depth, d.name);
  }

  lemma DirectoriesComplete(c: Codec, node: Node, entries: map<string, Node>)
    requires PartOf(entries, node)
    requires entries.Keys == Kept(node, true, false).Keys + DirectoryNames(DirectoryOf(c, node).directories)
    ensures entries == Kept(node, true, true)
  {
    var names := SortedOf(node.entries.Keys);
    forall n ensures n in entries <==> n in Kept(node, true, true) {
      if n in node.entries && node.entries[n].Dir? {
        DirectoriesMember(c, node, names, DirectoryNode(n, c.DirectoryDigest(DirectoryOf(c, node.entries[n]))));
      }
      if n in DirectoryNames(DirectoryOf(c, node).directories) {
        var d :| d in DirectoryOf(c, node).directories && d.name == n;
        DirectoriesMember(c, node, names, d);
      }
    }
  }

  /** What CreateDirectories gets when a directory that was written is loaded. */
  ghost predicate Returning(c: Codec, cas: map<string, Bytes>, directories: seq<DirectoryNode>,
                            existing: map<string, Node>, children: map<string, Directory>, depth: nat, node: Node)
  {
    && Restorable(c, cas, children, node, depth)
    && directories == DirectoryOf(c, node).directories
    && existing == Kept(node, true, false)
  }

  lemma DirectoryReturns(c: Codec, cas: map<string, Bytes>, directories: seq<DirectoryNode>,
                         existing: map<string, Node>, children: map<string, Directory>, depth: nat, node: Node,
                         entries: map<string, Node>, i: nat)
    requires Returning(c, cas, directories, existing, children, depth, node) && i < |directories|
    requires entries.Keys == existing.Keys + DirectoryNames(directories[..i]) && PartOf(entries, node)
    ensures var d := directories[i];
      && d.name !in entries && d.name in node.entries && node.entries[d.name].Dir?
      && d.digest.hash in children && children[d.digest.hash] == DirectoryOf(c, node.entries[d.name])
      && depth > 0 && Restorable(c, cas, children, node.entries[d.name], depth - 1)
      && PartOf(entries[d.name := node.entries[d.name]], node)
  {
    DirectoryComesBack(c, cas, children, node, depth, i);
  }

  lemma NextDirectoryName(directories: seq<DirectoryNode>, i: nat)
    requires i < |directories|
    ensures DirectoryNames(directories[..i + 1]) == DirectoryNames(directories[..i]) + {directories[i].name}
  {
    assert directories[..i + 1] == directories[..i] + [directories[i]];
  }

  /** Rebuilds the subdirectories of one directory on top of its files. */
  method CreateDirectories(c: Codec, cas: map<string, Bytes>, directories: seq<DirectoryNode>,
                           existing: map<string, Node>, children: map<string, Directory>, depth: nat,
                           ghost node: Node)
    returns (result: Result<map<string, Node>, LoadError>)
    requires depth > 0
    ensures Returning(c, cas, directories, existing, children, depth, node) ==> result == Ok(Kept(node, true, true))
    ensures result.Err? ==> Explained(result.error, cas, children)
    ensures result.Ok? ==>
              && result.value.Keys == existing.Keys + DirectoryNames(directories) && Extends(existing, result.value)
              && SubsRestored(cas, children, directories, result.value, depth)
    decreases depth, 0
  {
    var entries := existing;
    ghost var honest := Returning(c, cas, directories, existing, children, depth, node);
    for i := 0 to |directories|
      invariant entries.Keys == existing.Keys + DirectoryNames(directories[..i]) && Extends(existing, entries)
      invariant SubsRestored(cas, children, directories[..i], entries, depth)
      invariant honest ==> PartOf(entries, node)
    {
      var d := directories[i];
      NextDirectoryName(directories, i);
      if honest {
        DirectoryReturns(c, cas, directories, existing, children, depth, node, entries, i);
      }
      if d.digest.hash !in children {
        return Err(ChildMissing(d.digest.hash));
      }
      ghost var sub := if honest then node.entries[d.name] else node;
      var loaded := LoadDirectoryRecursive(c, cas, children[d.digest.hash], children, depth - 1, sub);
      if loaded.Err? {
        return Err(loaded.error);
      }
      if d.name in entries {
        return Err(NameTaken(d.name));
      }
      OneMoreSub(cas, children, directories, i, entries, depth, loaded.value);
      entries := entries[d.name := loaded.value];
    }
    assert directories[..|directories|] == directories;
    if honest {
      DirectoriesComplete(c, node, entries);
    }
    return Ok(entries);
  }

  lemma SymlinkComesBack(c: Codec, node: Node, i: nat)
    requires node.Dir? && i < |DirectoryOf(c, node).symlinks|
    ensures var l := DirectoryOf(c, node).symlinks[i];
      && l.name !in SymlinkNames(DirectoryOf(c, node).symlinks[..i])
      && l.name in node.entries && node.entries[l.name] == Symlink(l.target)
  {
    var names := SortedOf(node.entries.Keys);
    SymlinkNamesDistinct(node, names);
    SymlinksMember(node, names, DirectoryOf(c, node).symlinks[i]);
  }

  lemma SymlinksComplete(c: Codec, node: Node, entries: map<string, Node>)
    requires PartOf(entries, node)
    requires entries.Keys == Kept(node, true, true).Keys + SymlinkNames(DirectoryOf(c, node).symlinks)
    ensures entries == node.entries
  {
    forall n | n in node.entries ensures n in entries {
      if node.entries[n].Symlink? {
        SymlinksMember(node, SortedOf(node.entries.Keys), SymlinkNode(n, node.entries[n].target));
      }
    }
  }

  /** Creates the symlinks of one directory on top of what exists there. */
  method CreateSymlinks(c: Codec, symlinks: seq<SymlinkNode>, existing: map<string, Node>, ghost node: Node)
    returns (result: Result<map<string, Node>, LoadError>)
    ensures node.Dir? && symlinks == DirectoryOf(c, node).symlinks && existing == Kept(node, true, true) ==>
      result == Ok(node.entries)
    ensures result.Err? ==> result.error.NameTaken?
    ensures result.Ok? ==>
              && result.value.Keys == existing.Keys + SymlinkNames(symlinks) && Extends(existing, result.value)
              && LinksRestored(symlinks, result.value)
  {
    var entries := existing;
    ghost var honest := node.Dir? && symlinks == DirectoryOf(c, node).symlinks && existing == Kept(node, true, true);
    for i := 0 to |symlinks|
      invariant entries.Keys == existing.Keys + SymlinkNames(symlinks[..i]) && Extends(existing, entries)
      invariant LinksRestored(symlinks[..i], entries)
      invariant honest ==> PartOf(entries, node)
    {
      var l := symlinks[i];
      assert symlinks[..i + 1] == symlinks[..i] + [l];
      if honest {
        SymlinkComesBack(c, node, i);
      }
      if l.name in entries {
        return Err(NameTaken(l.name));
      }
      OneMoreLink(symlinks, i, entries);
      entries := entries[l.name := Symlink(l.target)];
    }
    assert symlinks[..|symlinks|] == symlinks;
    if honest {
      SymlinksComplete(c, node, entries);
    }
    return Ok(entries);
  }

  /** An error that blames a missing hash is right about it. */
  predicate Explained(error: LoadError, cas: map<string, Bytes>, children: map<string, Directory>) {
    match error
    case FileMissing(h) => h !in cas
    case ChildMissing(h) => h !in children
    case NameTaken(_) => true
    case TooDeep => true
    case _ => false
  }

  /**
   Rebuilds a directory from its message. The recursion follows hashes, so its depth is
   bounded explicitly.
   */
  method LoadDirectoryRecursive(c: Codec, cas: map<string, Bytes>, dir: Directory, children: map<string, Directory>,
                                depth: nat, ghost node: Node)
    returns (result: Result<Node, LoadError>)
    ensures Restorable(c, cas, children, node, depth) && dir == DirectoryOf(c, node) ==> result == Ok(node)
    ensures result.Err? ==> Explained(result.error, cas, children)
    ensures result.Ok? ==> Restores(cas, children, dir, result.value, depth)
    decreases depth, 1
  {
    if depth == 0 {
      return Err(TooDeep);
    }
    var files := CreateFiles(c, cas, dir.files, node);
    if files.Err? {
      return Err(files.error);
    }
    var withDirectories := CreateDirectories(c, cas, dir.directories, files.value, children, depth, node);
    if withDirectories.Err? {
      return Err(withDirectories.error);
    }
    var all := CreateSymlinks(c, dir.symlinks, withDirectories.value, node);
    if all.Err? {
      return Err(all.error);
    }
    FilesStay(cas, dir.files, files.value, withDirectories.value);
    FilesStay(cas, dir.files, withDirectories.value, all.value);
    SubsStay(cas, children, dir.directories, withDirectories.value, all.value, depth);
    return Ok(Dir(all.value));
  }

  /** Recomputes the hash of every child message to look it up by. */
  method IndexChildren(c: Codec, list: seq<Directory>) returns (children: map<string, Directory>)
    ensures ChildrenOf(c, children, set d | d in list)
  {
    children := map[];
    for i := 0 to |list|
      invariant ChildrenOf(c, children, set d | d in list[..i])
    {
      assert list[..i + 1] == list[..i] + [list[i]];
      children := children[c.DirectoryDigest(list[i]).hash := list[i]];
    }
    assert list[..|list|] == list;
  }

  /** The store holds the tree and all files of a directory that was written with this plan. */
  ghost predicate Stored(c: Codec, cas: map<string, Bytes>, node: Node, plan: DirectoryPlan)
    requires node.Dir?
  {
    && IsPlanOf(c, node, plan)
    && plan.treeHash in cas && cas[plan.treeHash] == plan.treeBytes
    && ContentsStored(c, cas, node)
  }

  ghost predicate HasTreeHash(c: Codec, node: Node, treeHash: string)
    requires node.Dir?
  {
    exists t: Tree :: IsTreeOf(c, node, t) && c.hash(c.treeBytes(t)) == treeHash
  }

  /** The stored tree lists exactly this directory. */
  ghost predicate RestoredFrom(c: Codec, cas: map<string, Bytes>, treeHash: string, node: Node, depth: nat) {
    treeHash in cas && c.parseTree(cas[treeHash]).Some? &&
    var tree := c.parseTree(cas[treeHash]).value;
    exists children ::
      ChildrenOf(c, children, set d | d in tree.children) && Restores(cas, children, tree.root, node, depth)
  }

  /**
   Restores a directory output over whatever is at its path; a local directory with the
   same tree hash is kept. Whenever the store holds what the write plan uploads, the result
   is exactly the directory that was written. Whatever the store holds, a directory comes back
   only if it is the one that is kept or has exactly what the stored tree lists, contents and
   all; so a missing blob is an error.
   */
  method Load(c: Codec, cas: map<string, Bytes>, treeHash: string, local: Option<Node>, depth: nat,
              ghost original: Node, ghost plan: DirectoryPlan, ghost localTree: Tree)
    returns (result: Result<Node, LoadError>)
    requires local.Some? ==> local.value.Dir? && IsTreeOf(c, local.value, localTree)
    ensures
      && original.Dir? && treeHash == plan.treeHash && Stored(c, cas, original, plan)
      && FitsDepth(original, depth) && c.Lossless()
      && c.CollisionFree(HashedFor(c, original, plan.tree)
                         + if local.Some? then HashedFor(c, local.value, localTree) else {})
      ==> result == Ok(original)
    ensures result.Ok? ==>
              || (local.Some? && result.value == local.value && HasTreeHash(c, local.value, treeHash))
              || RestoredFrom(c, cas, treeHash, result.value, depth)
    ensures result.Err? ==> match result.error
      case TreeMissing => treeHash !in cas
      case TreeCorrupt => treeHash in cas && c.parseTree(cas[treeHash]) == None
      case FileMissing(h) => h !in cas
      case _ => true
  {
    if local.Some? {
      var localPlan := Write(c, local.value);
      if localPlan.treeHash == treeHash {
        if original.Dir? && IsTreeOf(c, original, plan.tree) && c.Lossless()
          && c.CollisionFree(HashedFor(c, original, plan.tree) + HashedFor(c, local.value, localTree))
        {
          TreeUnique(c, local.value, localTree, localPlan.tree);
          TreeHashIdentifiesDirectory(c, original, plan.tree, local.value, localTree);
        }
        return Ok(local.value);
      }
    }
    if treeHash !in cas {
      return Err(TreeMissing);
    }
    var tree := c.parseTree(cas[treeHash]);
    if tree == None {
      return Err(TreeCorrupt);
    }
    var children := IndexChildren(c, tree.value.children);
    if original.Dir? && Stored(c, cas, original, plan) && treeHash == plan.treeHash && c.Lossless()
      && c.CollisionFree(HashedFor(c, original, plan.tree))
    {
      AllChildrenFound(c, original, tree.value, children);
    }
    result := LoadDirectoryRecursive(c, cas, tree.value.root, children, depth, original);
  }

  lemma AllChildrenFound(c: Codec, node: Node, tree: Tree, children: map<string, Directory>)
    requires node.Dir? && IsTreeOf(c, node, tree) && ChildrenOf(c, children, set d | d in tree.children)
    requires c.Lossless() && c.CollisionFree(HashedBelow(c, node))
    ensures ChildrenFound(c, children, node)
  {
    forall d | d in DirectoriesBelow(c, node)
      ensures c.DirectoryDigest(d).hash in children && children[c.DirectoryDigest(d).hash] == d
    {
      var h := c.DirectoryDigest(d).hash;
      var i :| 0 <= i < |tree.children| && HashesOf(c, tree.children)[i] == h;
      assert tree.children[i] in tree.children;
      assert c.directoryBytes(children[h]) in HashedBelow(c, node) && c.directoryBytes(d) in HashedBelow(c, node);
    }
  }
}
