/**
 What the two backends' trees have to do with each other and with the files behind them.
 */
module TreeAgreement {
  import opened FileTree
  import opened Filesystem
  import opened PathTrie
  import opened Sorting
  import opened StaticFiles
  import opened Strings
  import opened Wrappers

  // ---------- the meaning of a path list, without its order ----------

  /** No file is also a directory above another file. */
  ghost predicate Antichain(files: seq<string>) {
    forall f, g | f in files && g in files :: !(Components(f) < Components(g))
  }

  lemma {:induction false} PathMapKeys(files: seq<string>, p: Path)
    ensures p in PathMap(files) <==> p != [] && exists f :: f in files && p <= Components(f)
  {
    if files != [] {
      var init, last := files[..|files| - 1], files[|files| - 1];
      PathMapKeys(init, p);
      assert files == init + [last];
      InPrefixes(Components(last), p);
    }
  }

  lemma InPrefixes(parts: Path, p: Path)
    ensures p in PrefixesTo(parts, |parts|) <==> p != [] && p <= parts
  {
    if p != [] && p <= parts { assert parts[..|p|] == p; }
  }

  /** A path at which no file ends is a directory; under an antichain the converse holds too. */
  lemma {:induction false} PathMapKind(files: seq<string>, p: Path)
    requires p in PathMap(files)
    ensures (forall f | f in files :: Components(f) != p) ==> PathMap(files)[p]
    ensures Antichain(files) && PathMap(files)[p] ==> forall f | f in files :: Components(f) != p
  {
    var init, last := files[..|files| - 1], files[|files| - 1];
    assert files == init + [last];
    InPrefixes(Components(last), p);
    if p !in PrefixesTo(Components(last), |Components(last)|) {
      PathMapKind(init, p);
    }
  }

  ghost predicate SameVisible(m: map<Path, bool>, m': map<Path, bool>) {
    forall p, k :: Visible(m, [], p, k) <==> Visible(m', [], p, k)
  }

  lemma TreesFollowMaps(files: seq<string>, tree: seq<FileNode>, files': seq<string>, tree': seq<FileNode>)
    requires IsPathTree(tree, PathMap(files)) && IsPathTree(tree', PathMap(files'))
    ensures tree == tree' <==> SameVisible(PathMap(files), PathMap(files'))
  {
    if SameVisible(PathMap(files), PathMap(files')) {
      ForestUnique(tree, tree', "");
    } else {
      var p, k :| Visible(PathMap(files), [], p, k) != Visible(PathMap(files'), [], p, k);
      assert Has(tree, p, k) != Has(tree', p, k);
    }
  }

  lemma AntichainMap(files: seq<string>, files': seq<string>)
    requires Antichain(files) && forall f :: f in files <==> f in files'
    ensures PathMap(files) == PathMap(files')
  {
    forall p ensures p in PathMap(files) <==> p in PathMap(files') {
      PathMapKeys(files, p);
      PathMapKeys(files', p);
    }
    forall p | p in PathMap(files) ensures PathMap(files)[p] == PathMap(files')[p] {
      PathMapKind(files, p);
      PathMapKind(files', p);
    }
  }

  /** The tree of an antichain depends on the set of files only: not on order, not on repetition. */
  lemma AnyOrderSameTree(files: seq<string>, tree: seq<FileNode>, files': seq<string>, tree': seq<FileNode>)
    requires IsPathTree(tree, PathMap(files)) && IsPathTree(tree', PathMap(files'))
    requires Antichain(files) && forall f :: f in files <==> f in files'
    ensures tree == tree'
  {
    AntichainMap(files, files');
    TreesFollowMaps(files, tree, files', tree');
  }

  // ---------- order matters exactly when a file lies above another ----------

  function MoveToEnd(files: seq<string>, i: nat): seq<string>
    requires i < |files|
  {
    files[..i] + files[i + 1..] + [files[i]]
  }

  lemma MoveToEndPermutes(files: seq<string>, i: nat)
    requires i < |files|
    ensures multiset(MoveToEnd(files, i)) == multiset(files)
  {
    assert files == files[..i] + [files[i]] + files[i + 1..];
  }

  ghost predicate Clash(files: seq<string>, i: int, j: int) {
    0 <= i < |files| && 0 <= j < |files| && Components(files[i]) < Components(files[j])
  }

  /** A clash whose upper file is as shallow as can be. */
  lemma {:induction false} ShallowestClash(files: seq<string>, i: int, j: int) returns (a: int, b: int)
    requires Clash(files, i, j)
    ensures Clash(files, a, b)
    ensures forall c, d | Clash(files, c, d) :: |Components(files[a])| <= |Components(files[c])|
    decreases |Components(files[i])|
  {
    if exists c, d :: Clash(files, c, d) && |Components(files[c])| < |Components(files[i])| {
      var c, d :| Clash(files, c, d) && |Components(files[c])| < |Components(files[i])|;
      a, b := ShallowestClash(files, c, d);
    } else {
      a, b := i, j;
    }
  }

  lemma LastTouchDecides(files: seq<string>, a: nat, b: nat, last: nat)
    requires Clash(files, a, b) && (last == a || last == b)
    requires forall c, d | Clash(files, c, d) :: |Components(files[a])| <= |Components(files[c])|
    ensures Visible(PathMap(MoveToEnd(files, last)), [], Components(files[a]), if last == b then ADir else AFile(None))
  {
    var p, parts := Components(files[a]), Components(files[last]);
    var moved := MoveToEnd(files, last);
    assert moved[..|moved| - 1] == files[..last] + files[last + 1..];
    InPrefixes(parts, p);
    assert [] + p == p;
    assert moved[|moved| - 1] == files[last];
    MoveToEndPermutes(files, last);
    SameElements(moved, files);
    forall j | 1 <= j < |p| ensures [] + p[..j] in PathMap(moved) && PathMap(moved)[[] + p[..j]] {
      var q := p[..j];
      assert [] + q == q;
      PathMapKeys(moved, q);
      assert files[a] in moved;
      forall f | f in moved ensures Components(f) != q {
        var c :| 0 <= c < |files| && files[c] == f;
        if Components(f) == q { assert Clash(files, c, a); }
      }
      PathMapKind(moved, q);
    }
  }

  /** The order of the input is irrelevant if and only if the files form an antichain. */
  lemma OrderIrrelevantIff(files: seq<string>)
    ensures Antichain(files) <==>
            forall files' | multiset(files') == multiset(files) :: SameVisible(PathMap(files), PathMap(files'))
  {
    if Antichain(files) {
      forall files' | multiset(files') == multiset(files) ensures SameVisible(PathMap(files), PathMap(files')) {
        SameElements(files', files);
        AntichainMap(files, files');
      }
    } else {
      var f, g :| f in files && g in files && Components(f) < Components(g);
      var i :| 0 <= i < |files| && files[i] == f;
      var j :| 0 <= j < |files| && files[j] == g;
      var a, b := ShallowestClash(files, i, j);
      var p := Components(files[a]);
      LastTouchDecides(files, a, b, a);
      LastTouchDecides(files, a, b, b);
      MoveToEndPermutes(files, a);
      MoveToEndPermutes(files, b);
      var fileLast, dirLast := PathMap(MoveToEnd(files, a)), PathMap(MoveToEnd(files, b));
      assert !Visible(dirLast, [], p, AFile(None));
      var odd := if SameVisible(PathMap(files), fileLast) then MoveToEnd(files, b) else MoveToEnd(files, a);
      assert multiset(odd) == multiset(files) && !SameVisible(PathMap(files), PathMap(odd));
    }
  }

  // ---------- leaves ----------

  /** Some leaf of the forest carries the path `s`. */
  ghost predicate LeafAt(nodes: seq<FileNode>, s: string) {
    exists i :: 0 <= i < |nodes| && LeafOf(nodes[i], s)
  }

  ghost predicate LeafOf(n: FileNode, s: string) {
    (!n.isDir && n.path == s) || (n.children.Children? && LeafAt(n.children.nodes, s))
  }

  /** A leaf's path is the names on the way to it, joined. */
  lemma {:induction false} LeafPaths(nodes: seq<FileNode>, at: Path, s: string)
    requires WellFormed(nodes, Join(at))
    ensures LeafAt(nodes, s) <==> exists p, z :: Has(nodes, p, AFile(z)) && s == Join(at + p)
    decreases nodes
  {
    forall i | 0 <= i < |nodes|
      ensures LeafOf(nodes[i], s) <==> exists p, z :: NodeHas(nodes[i], p, AFile(z)) && s == Join(at + p)
    {
      assert nodes[i] in nodes;
      if nodes[i].children.Children? {
        JoinSnoc(at, nodes[i].name);
        LeafPaths(nodes[i].children.nodes, at + [nodes[i].name], s);
      }
      LeafOfNode(nodes[i], at, s);
    }
    if LeafAt(nodes, s) {
      var i :| 0 <= i < |nodes| && LeafOf(nodes[i], s);
      var p, z :| NodeHas(nodes[i], p, AFile(z)) && s == Join(at + p);
      assert nodes[i] in nodes && Has(nodes, p, AFile(z));
    }
    if exists p, z :: Has(nodes, p, AFile(z)) && s == Join(at + p) {
      var p, z :| Has(nodes, p, AFile(z)) && s == Join(at + p);
      var n :| n in nodes && NodeHas(n, p, AFile(z));
      var i :| 0 <= i < |nodes| && nodes[i] == n;
      assert LeafOf(nodes[i], s);
    }
  }

  lemma LeafOfNode(n: FileNode, at: Path, s: string)
    requires WellFormedNode(n, Join(at))
    requires n.children.Children? ==>
               (LeafAt(n.children.nodes, s) <==>
                exists p, z :: Has(n.children.nodes, p, AFile(z)) && s == Join(at + [n.name] + p))
    ensures LeafOf(n, s) <==> exists p, z :: NodeHas(n, p, AFile(z)) && s == Join(at + p)
  {
    JoinSnoc(at, n.name);
    if n.isDir {
      DirLeaves(n, at, s);
    } else {
      assert NodeHas(n, [n.name], AFile(n.size));
      forall p, z | NodeHas(n, p, AFile(z)) ensures p == [n.name] { LeafHas(n, p, AFile(z)); }
    }
  }

  lemma DirLeaves(n: FileNode, at: Path, s: string)
    requires n.isDir
    ensures (exists p, z :: NodeHas(n, p, AFile(z)) && s == Join(at + p)) <==>
            exists p, z :: Has(Kids(n), p, AFile(z)) && s == Join(at + [n.name] + p)
  {
    forall p, z | Has(Kids(n), p, AFile(z)) && s == Join(at + [n.name] + p)
      ensures NodeHas(n, [n.name] + p, AFile(z)) && s == Join(at + ([n.name] + p))
    {
      var m :| m in Kids(n) && NodeHas(m, p, AFile(z));
      assert ([n.name] + p)[1..] == p && at + ([n.name] + p) == at + [n.name] + p;
    }
    forall p, z | NodeHas(n, p, AFile(z)) && s == Join(at + p)
      ensures Has(Kids(n), p[1..], AFile(z)) && s == Join(at + [n.name] + p[1..])
    {
      assert at + p == at + [n.name] + p[1..];
    }
  }

  lemma LeafHas(n: FileNode, p: Path, k: Kind)
    requires Kids(n) == [] && NodeHas(n, p, k)
    ensures p == [n.name]
  {}

  ghost predicate NoLeadingSlash(files: seq<string>) {
    forall f | f in files :: f == "" || f[0] != '/'
  }

  lemma VisiblePathSplits(files: seq<string>, p: Path, k: Kind)
    requires Visible(PathMap(files), [], p, k)
    ensures forall c | c in p :: '/' !in c
    ensures NoLeadingSlash(files) ==> Splittable(p)
  {
    assert [] + p == p;
    PathMapKeys(files, p);
    var f :| f in files && p <= Components(f);
    SplitPiecesFree(f, '/');
    assert forall c | c in p :: c in Components(f);
    if NoLeadingSlash(files) {
      JoinSplitOn(f);
      assert p[0] == Components(f)[0];
    }
  }

  lemma VisibleFile(files: seq<string>, p: Path)
    requires Antichain(files)
    ensures Visible(PathMap(files), [], p, AFile(None)) <==> exists f :: f in files && Components(f) == p
  {
    assert [] + p == p;
    PathMapKeys(files, p);
    if p in PathMap(files) { PathMapKind(files, p); }
    if f :| f in files && Components(f) == p {
      forall j | 1 <= j < |p| ensures [] + p[..j] in PathMap(files) && PathMap(files)[[] + p[..j]] {
        assert [] + p[..j] == p[..j] < p;
        PathMapKeys(files, p[..j]);
        PathMapKind(files, p[..j]);
      }
    }
  }

  lemma NotBelowFile(m: map<Path, bool>, p: Path, q: Path)
    requires Visible(m, [], p, AFile(None)) && Visible(m, [], q, AFile(None))
    ensures !(p < q)
  {
    assert [] + p == p;
    assert |p| < |q| ==> [] + q[..|p|] == q[..|p|] && m[[] + q[..|p|]];
    assert |p| < |q| ==> (p < q <==> q[..|p|] == p);
  }

  /** The leaves are the given files if and only if no file lies above another or starts with a slash. */
  lemma LeavesAreInputsIff(files: seq<string>, tree: seq<FileNode>)
    requires IsPathTree(tree, PathMap(files))
    ensures (forall s :: LeafAt(tree, s) <==> s in files) <==> Antichain(files) && NoLeadingSlash(files)
  {
    if Antichain(files) && NoLeadingSlash(files) {
      forall s ensures LeafAt(tree, s) <==> s in files { LeavesAreInputs(files, tree, s); }
    }
    if forall s :: LeafAt(tree, s) <==> s in files {
      forall f | f in files ensures f == "" || f[0] != '/' {
        var p := LeafSource(files, tree, f);
        VisiblePathSplits(files, p, AFile(None));
        JoinNoLeadingSlash(p);
      }
      forall f, g | f in files && g in files ensures !(Components(f) < Components(g)) {
        var p := LeafSource(files, tree, f);
        var q := LeafSource(files, tree, g);
        VisiblePathSplits(files, p, AFile(None));
        VisiblePathSplits(files, q, AFile(None));
        SplitJoin(p);
        SplitJoin(q);
        NotBelowFile(PathMap(files), p, q);
      }
    }
  }

  lemma LeavesAreInputs(files: seq<string>, tree: seq<FileNode>, s: string)
    requires IsPathTree(tree, PathMap(files)) && Antichain(files) && NoLeadingSlash(files)
    ensures LeafAt(tree, s) <==> s in files
  {
    if LeafAt(tree, s) {
      var p := LeafSource(files, tree, s);
      VisibleFile(files, p);
      var f :| f in files && Components(f) == p;
      JoinSplitOn(f);
    }
    if s in files {
      JoinSplitOn(s);
      VisibleFile(files, Components(s));
      LeafPaths(tree, [], s);
      assert Has(tree, Components(s), AFile(None)) && [] + Components(s) == Components(s);
    }
  }

  lemma LeafSource(files: seq<string>, tree: seq<FileNode>, s: string) returns (p: Path)
    requires IsPathTree(tree, PathMap(files)) && LeafAt(tree, s)
    ensures Visible(PathMap(files), [], p, AFile(None)) && Join(p) == s
  {
    LeafPaths(tree, [], s);
    var z;
    p, z :| Has(tree, p, AFile(z)) && s == Join([] + p);
    assert [] + p == p;
  }

  // ---------- one tree for both backends ----------

  /** `build_directory_tree`: the pod's `find` output becomes a trie, a host directory is walked. */
  datatype Backend = Docker(dir: Option<Listing>) | Kubernetes(found: seq<string>)

  method BuildDirectoryTree(backend: Backend) returns (tree: seq<FileNode>)
    requires backend.Docker? && backend.dir.Some? ==> ValidEntries(EntriesOf(backend.dir.value))
    ensures backend.Docker? ==>
              IsFsTree(tree, if backend.dir.Some? then EntriesOf(backend.dir.value) else [], "")
    ensures backend.Kubernetes? ==> IsPathTree(tree, PathMap(backend.found))
  {
    match backend {
      case Docker(dir) =>
        if dir == None { return []; }
        tree := BuildTreeHelper(dir.value, "");
      case Kubernetes(found) =>
        if found == [] { return []; }
        tree := BuildTreeFromPaths(found);
    }
  }

  ghost predicate ListsFiles(files: seq<string>, es: seq<Entry>) {
    forall s :: s in files <==> IsFilePath(es, s)
  }

  lemma FileComponents(es: seq<Entry>, files: seq<string>, p: Path)
    requires ValidEntries(es) && ListsFiles(files, es)
    ensures (exists f :: f in files && Components(f) == p) <==> exists z :: FsHas(es, p, AFile(z))
  {
    if f :| f in files && Components(f) == p {
      assert IsFilePath(es, f);
      var q, z :| FsHas(es, q, AFile(z)) && f == Join(q);
      FsPathSplits(es, q, AFile(z));
    }
    if z :| FsHas(es, p, AFile(z)) {
      FsPathSplits(es, p, AFile(z));
      assert IsFilePath(es, Join(p));
    }
  }

  lemma ListedFilesAreAntichain(es: seq<Entry>, files: seq<string>)
    requires ValidEntries(es) && ListsFiles(files, es)
    ensures Antichain(files)
  {
    forall f, g | f in files && g in files ensures !(Components(f) < Components(g)) {
      FileComponents(es, files, Components(f));
      FileComponents(es, files, Components(g));
      var p, q := Components(f), Components(g);
      var z :| FsHas(es, p, AFile(z));
      var y :| FsHas(es, q, AFile(y));
      FileNotAbove(es, p, q, z, AFile(y));
    }
  }

  lemma FileNotAbove(es: seq<Entry>, p: Path, q: Path, z: Option<nat>, k: Kind)
    requires ValidEntries(es) && FsHas(es, p, AFile(z)) && FsHas(es, q, k)
    ensures !(p < q)
  {
    FsPathValid(es, p, AFile(z));
    if p < q {
      assert p + q[|p|..] == q;
      FsPrefixIsDir(es, p, q[|p|..], k);
      FsKindUnique(es, p, AFile(z), ADir);
    }
  }

  /** The trie shows the files, without sizes. */
  lemma TrieShowsFile(es: seq<Entry>, files: seq<string>, p: Path, size: Option<nat>)
    requires ValidEntries(es) && ListsFiles(files, es)
    ensures Visible(PathMap(files), [], p, AFile(size)) <==> size == None && exists z :: FsHas(es, p, AFile(z))
  {
    ListedFilesAreAntichain(es, files);
    FileComponents(es, files, p);
    VisibleFile(files, p);
  }

  /** It shows the directories that lead to a file. */
  lemma TrieShowsDir(es: seq<Entry>, files: seq<string>, p: Path)
    requires ValidEntries(es) && ListsFiles(files, es)
    ensures Visible(PathMap(files), [], p, ADir) <==>
            p != [] && exists q, z :: q != [] && FsHas(es, p + q, AFile(z))
  {
    ListedFilesAreAntichain(es, files);
    VisibleDir(files, p);
    if f :| f in files && p < Components(f) {
      var rest := Components(f)[|p|..];
      FileComponents(es, files, Components(f));
      assert Components(f) == p + rest;
      var z :| FsHas(es, Components(f), AFile(z));
      assert rest != [] && FsHas(es, p + rest, AFile(z));
    }
    if q, z :| q != [] && FsHas(es, p + q, AFile(z)) {
      FileComponents(es, files, p + q);
      var f :| f in files && Components(f) == p + q;
      assert p < Components(f);
    }
  }

  lemma VisibleDir(files: seq<string>, p: Path)
    requires Antichain(files)
    ensures Visible(PathMap(files), [], p, ADir) <==> p != [] && exists f :: f in files && p < Components(f)
  {
    assert [] + p == p;
    PathMapKeys(files, p);
    if p in PathMap(files) { PathMapKind(files, p); }
    if p != [] && exists f :: f in files && p < Components(f) {
      var f :| f in files && p < Components(f);
      forall g | g in files ensures Components(g) != p {}
      forall j | 1 <= j < |p| ensures [] + p[..j] in PathMap(files) && PathMap(files)[[] + p[..j]] {
        assert [] + p[..j] == p[..j] && p[..j] < Components(f);
        PathMapKeys(files, p[..j]);
        PathMapKind(files, p[..j]);
      }
    }
  }

  /**
   For one directory, both backends show the same tree, sizes aside, if and only if every directory
   holds a file somewhere below it. The two may enumerate the directory in different orders.
   */
  lemma BackendsAgreeIff(es: seq<Entry>, docker: seq<FileNode>, files: seq<string>, kubernetes: seq<FileNode>)
    requires ValidEntries(es) && ListsFiles(files, es)
    requires IsFsTree(docker, es, "") && IsPathTree(kubernetes, PathMap(files))
    ensures StripSizes(docker) == kubernetes <==> NoBareDirs(es)
  {
    var stripped := StripSizes(docker);
    StripWellFormed(docker, "");
    forall p, k: Kind ensures k.AFile? ==> (Has(stripped, p, k) <==> Has(kubernetes, p, k)) {
      StripHas(docker, p, k);
      if k.AFile? { TrieShowsFile(es, files, p, k.size); }
    }
    if NoBareDirs(es) {
      forall p, k: Kind ensures Has(stripped, p, k) <==> Has(kubernetes, p, k) {
        if k.ADir? { DirsAgree(es, docker, files, p); }
      }
      ForestUnique(stripped, kubernetes, "");
    } else {
      var p :| FsHas(es, p, ADir) && forall q, z :: !FsHas(es, p + q, AFile(z));
      StripHas(docker, p, ADir);
      TrieShowsDir(es, files, p);
      assert Has(stripped, p, ADir) && !Has(kubernetes, p, ADir);
    }
  }

  lemma DirsAgree(es: seq<Entry>, docker: seq<FileNode>, files: seq<string>, p: Path)
    requires ValidEntries(es) && ListsFiles(files, es) && NoBareDirs(es)
    requires IsFsTree(docker, es, "")
    ensures Has(StripSizes(docker), p, ADir) <==> Visible(PathMap(files), [], p, ADir)
  {
    StripHas(docker, p, ADir);
    TrieShowsDir(es, files, p);
    if FsHas(es, p, ADir) {
      var q, z :| FsHas(es, p + q, AFile(z));
      FsPathValid(es, p, ADir);
      if q == [] {
        assert p + q == p;
        FsKindUnique(es, p, ADir, AFile(z));
      }
    }
    if q, z :| q != [] && FsHas(es, p + q, AFile(z)) && p != [] {
      FsPrefixIsDir(es, p, q, AFile(z));
    }
  }

  /** The whole pipeline on a readable directory: list it, rebuild the tree, compare with walking it. */
  method RebuildFromListing(dir: Listing) returns (walked: seq<FileNode>, rebuilt: seq<FileNode>)
    requires dir.Readable? && ValidEntries(dir.entries) && !HasUnreadable(dir.entries)
    ensures IsFsTree(walked, dir.entries, "")
    ensures StripSizes(walked) == rebuilt <==> NoBareDirs(dir.entries)
  {
    var files := ListFiles(Some(dir));
    walked := BuildDirectoryTree(Docker(Some(dir)));
    rebuilt := BuildDirectoryTree(Kubernetes(files.value));
    BackendsAgreeIff(dir.entries, walked, files.value, rebuilt);
  }
}
