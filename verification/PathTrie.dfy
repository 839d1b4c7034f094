/**
 The Kubernetes backend's tree: `build_tree_from_paths` grows a trie of heap nodes with a cursor and
 converts it. Its meaning is `PathMap(files)`: for every component path that some file touches,
 whether the last file to touch it passed through it (a directory) or ended there (a file).
 */
module PathTrie {
  import opened FileTree
  import opened Sorting
  import opened Strings
  import opened Wrappers

  // ---------- meaning of a list of files ----------

  function Components(file: string): Path { SplitOn(file, '/') }

  /** The non-empty prefixes of `parts` up to length `n`. */
  function PrefixesTo(parts: Path, n: nat): set<Path>
    requires n <= |parts|
  {
    set i | 1 <= i <= n :: parts[..i]
  }

  function PutPrefixes(m: map<Path, bool>, parts: Path, n: nat): map<Path, bool>
    requires n <= |parts|
  {
    map p | p in m.Keys + PrefixesTo(parts, n) :: if p in PrefixesTo(parts, n) then |p| < |parts| else m[p]
  }

  function PathMap(files: seq<string>): map<Path, bool> {
    if files == [] then map[]
    else
      var parts := Components(files[|files| - 1]);
      PutPrefixes(PathMap(files[..|files| - 1]), parts, |parts|)
  }

  /** `at + p` is in the map with kind `k`, and every step from `at` to it goes through a directory. */
  ghost predicate Visible(m: map<Path, bool>, at: Path, p: Path, k: Kind) {
    && p != [] && at + p in m
    && k == (if m[at + p] then ADir else AFile(None))
    && forall j | 1 <= j < |p| :: at + p[..j] in m && m[at + p[..j]]
  }

  ghost predicate IsPathTree(nodes: seq<FileNode>, m: map<Path, bool>) {
    WellFormed(nodes, "") && forall p, k :: Has(nodes, p, k) <==> Visible(m, [], p, k)
  }

  // ---------- the trie on the heap ----------

  class TrieNode {
    var isDir: bool
    var children: map<string, TrieNode>
    /** Where the node hangs: its path from the root. */
    ghost const at: Path

    constructor (ghost at: Path)
      ensures !isDir && children == map[] && this.at == at
    {
      isDir, children := false, map[];
      this.at := at;
    }
  }

  ghost predicate OneName(nodes: map<Path, TrieNode>) {
    forall p | p in nodes :: nodes[p].at == p
  }

  ghost predicate LinksLead(nodes: map<Path, TrieNode>, links: map<Path, map<string, TrieNode>>)
    requires links.Keys == nodes.Keys
  {
    forall p, name | p in nodes && name in links[p] ::
      p + [name] in nodes && links[p][name] == nodes[p + [name]]
  }

  ghost predicate NodesHang(nodes: map<Path, TrieNode>, links: map<Path, map<string, TrieNode>>)
    requires links.Keys == nodes.Keys
  {
    forall p: Path, name | p + [name] in nodes :: p in nodes && name in links[p]
  }

  /** `nodes` names every node by its path from the root; links and names agree. */
  ghost predicate Consistent(nodes: map<Path, TrieNode>, links: map<Path, map<string, TrieNode>>) {
    && links.Keys == nodes.Keys && [] in nodes
    && OneName(nodes) && LinksLead(nodes, links) && NodesHang(nodes, links)
  }

  ghost function Links(nodes: map<Path, TrieNode>): map<Path, map<string, TrieNode>>
    reads nodes.Values`children
  {
    map p | p in nodes :: nodes[p].children
  }

  ghost predicate Linked(nodes: map<Path, TrieNode>)
    reads nodes.Values`children
  {
    Consistent(nodes, Links(nodes))
  }

  ghost function Flat(nodes: map<Path, TrieNode>): map<Path, bool>
    reads nodes.Values`isDir
  {
    map p | p in nodes && p != [] :: nodes[p].isDir
  }

  lemma PutPrefixesStep(m: map<Path, bool>, parts: Path, n: nat)
    requires n < |parts|
    ensures PutPrefixes(m, parts, n)[parts[..n + 1] := n + 1 < |parts|] == PutPrefixes(m, parts, n + 1)
  {
    assert PrefixesTo(parts, n + 1) == PrefixesTo(parts, n) + {parts[..n + 1]};
  }

  lemma FlatGrows(nodes: map<Path, TrieNode>, next: Path, child: TrieNode)
    requires next != [] && !child.isDir
    ensures Flat(nodes[next := child]) == Flat(nodes)[next := false]
  {}

  lemma LinksGrow(nodes: map<Path, TrieNode>, links: map<Path, map<string, TrieNode>>, here: Path, next: Path, child: TrieNode)
    requires here in nodes && links.Keys == nodes.Keys && here != next && child.children == map[]
    requires forall p | p in nodes && p != here :: nodes[p].children == links[p]
    ensures Links(nodes[next := child]) == links[here := nodes[here].children][next := map[]]
  {}

  /** `children.entry(name).or_default()`: a missing child is added, nothing else changes. */
  method EntryOrDefault(node: TrieNode, name: string, ghost here: Path, ghost nodes: map<Path, TrieNode>)
    returns (child: TrieNode, ghost nodes': map<Path, TrieNode>)
    requires Linked(nodes) && here in nodes && nodes[here] == node
    modifies node`children
    ensures Linked(nodes') && here + [name] in nodes' && nodes'[here + [name]] == child
    ensures forall p | p in nodes :: p in nodes' && nodes'[p] == nodes[p]
    ensures nodes'.Values <= nodes.Values + {child} && (here + [name] in nodes || fresh(child))
    ensures here + [name] in nodes ==> Flat(nodes') == old(Flat(nodes))
    ensures here + [name] !in nodes ==> Flat(nodes') == old(Flat(nodes))[here + [name] := false]
  {
    nodes' := nodes;
    if name !in node.children {
      ghost var next := here + [name];
      child := new TrieNode(next);
      assert next !in nodes;
      nodes' := nodes[next := child];
      node.children := node.children[name := child];
      ConsistentGrows(nodes, old(Links(nodes)), here, name, child);
      LinksGrow(nodes, old(Links(nodes)), here, next, child);
      FlatGrows(nodes, next, child);
    } else {
      child := node.children[name];
    }
  }

  /** Hanging a new node below `here` keeps links and names in agreement. */
  lemma ConsistentGrows(nodes: map<Path, TrieNode>, links: map<Path, map<string, TrieNode>>,
                        here: Path, name: string, child: TrieNode)
    requires Consistent(nodes, links) && here in nodes && here + [name] !in nodes && child.at == here + [name]
    ensures Consistent(nodes[here + [name] := child],
                       links[here := links[here][name := child]][here + [name] := map[]])
  {
    var next := here + [name];
    assert next != here && next != [];
    LinksLeadGrow(nodes, links, here, name, child);
    NodesHangGrow(nodes, links, here, name, child);
  }

  lemma LinksLeadGrow(nodes: map<Path, TrieNode>, links: map<Path, map<string, TrieNode>>,
                      here: Path, name: string, child: TrieNode)
    requires links.Keys == nodes.Keys && LinksLead(nodes, links) && here in nodes && here + [name] !in nodes
    ensures LinksLead(nodes[here + [name] := child],
                      links[here := links[here][name := child]][here + [name] := map[]])
  {
    var nodes' := nodes[here + [name] := child];
    var links' := links[here := links[here][name := child]][here + [name] := map[]];
    forall p, n | p in nodes' && n in links'[p] ensures p + [n] in nodes' && links'[p][n] == nodes'[p + [n]] {
      if p != here || n != name { assert p + [n] in nodes; }
    }
  }

  lemma NodesHangGrow(nodes: map<Path, TrieNode>, links: map<Path, map<string, TrieNode>>,
                      here: Path, name: string, child: TrieNode)
    requires links.Keys == nodes.Keys && NodesHang(nodes, links) && here in nodes && here + [name] !in nodes
    ensures NodesHang(nodes[here + [name] := child],
                      links[here := links[here][name := child]][here + [name] := map[]])
  {
    var nodes' := nodes[here + [name] := child];
    var links' := links[here := links[here][name := child]][here + [name] := map[]];
    assert here + [name] != here;
    forall p: Path, n | p + [n] in nodes' ensures p in nodes' && n in links'[p] {
      if p + [n] == here + [name] { Snoc(p, n, here, name); } else { assert p in nodes && n in links[p]; }
    }
  }

  lemma Snoc<T>(p: seq<T>, x: T, q: seq<T>, y: T)
    requires p + [x] == q + [y]
    ensures p == q && x == y
  {
    assert (p + [x])[..|p|] == p && (q + [y])[..|q|] == q;
    assert (p + [x])[|p|] == x && (q + [y])[|q|] == y;
  }

  method MarkKind(node: TrieNode, isDir: bool, ghost at: Path, ghost nodes: map<Path, TrieNode>)
    requires OneName(nodes) && at != [] && at in nodes && nodes[at] == node
    modifies node`isDir
    ensures Flat(nodes) == old(Flat(nodes))[at := isDir]
  {
    node.isDir := isDir;
  }

  /** One step of the cursor: to the child, which becomes a directory or a file. */
  method Descend(node: TrieNode, name: string, isDir: bool, ghost here: Path, ghost nodes: map<Path, TrieNode>)
    returns (child: TrieNode, ghost nodes': map<Path, TrieNode>)
    requires Linked(nodes) && here in nodes && nodes[here] == node
    modifies nodes.Values
    ensures Linked(nodes') && here + [name] in nodes' && nodes'[here + [name]] == child
    ensures forall p | p in nodes :: p in nodes' && nodes'[p] == nodes[p]
    ensures fresh(nodes'.Values - nodes.Values)
    ensures Flat(nodes') == old(Flat(nodes))[here + [name] := isDir]
  {
    child, nodes' := EntryOrDefault(node, name, here, nodes);
    MarkKind(child, isDir, here + [name], nodes');
    MapOverwrite(old(Flat(nodes)), here + [name], false, isDir);
  }

  lemma MapOverwrite<K, V>(m: map<K, V>, k: K, v: V, w: V)
    ensures m[k := v][k := w] == m[k := w]
  {}

  lemma TakeSnoc<T>(s: seq<T>, i: nat)
    requires i < |s|
    ensures s[..i + 1] == s[..i] + [s[i]]
  {}

  /** One file: the cursor walks down from the root, adding missing nodes. */
  method InsertPath(root: TrieNode, parts: Path, ghost nodes: map<Path, TrieNode>)
    returns (ghost nodes': map<Path, TrieNode>)
    requires Linked(nodes) && nodes[[]] == root && parts != []
    modifies nodes.Values
    ensures Linked(nodes') && nodes'[[]] == root
    ensures fresh(nodes'.Values - nodes.Values)
    ensures Flat(nodes') == PutPrefixes(old(Flat(nodes)), parts, |parts|)
  {
    nodes' := nodes;
    var current := root;
    for i := 0 to |parts|
      invariant Linked(nodes') && nodes'[[]] == root
      invariant fresh(nodes'.Values - nodes.Values)
      invariant parts[..i] in nodes' && nodes'[parts[..i]] == current
      invariant Flat(nodes') == PutPrefixes(old(Flat(nodes)), parts, i)
    {
      TakeSnoc(parts, i);
      current, nodes' := Descend(current, parts[i], i != |parts| - 1, parts[..i], nodes');
      PutPrefixesStep(old(Flat(nodes)), parts, i);
    }
  }

  // ---------- convert ----------

  ghost function Below(paths: set<Path>, at: Path): set<Path> {
    set q | q in paths && at <= q
  }

  ghost predicate ShowsSubtree(nodes: seq<FileNode>, m: map<Path, bool>, at: Path, names: seq<string>) {
    forall p, k :: Has(nodes, p, k) <==> Visible(m, at, p, k) && p[0] in names
  }

  /** A child directory shows what its own subtree shows; a file shows itself. */
  lemma ChildShows(n: FileNode, m: map<Path, bool>, at: Path, p: Path, k: Kind)
    requires at + [n.name] in m && n.isDir == m[at + [n.name]] && n.size == None
    requires n.isDir ==> forall q, j :: Has(Kids(n), q, j) <==> Visible(m, at + [n.name], q, j)
    requires !n.isDir ==> Kids(n) == []
    ensures NodeHas(n, p, k) <==> Visible(m, at, p, k) && p[0] == n.name
  {
    if p != [] && p[0] == n.name {
      var below := at + [n.name];
      assert p[..1] == [n.name];
      if |p| == 1 {
        assert at + p == below;
      } else {
        assert at + p == below + p[1..];
        assert forall j | 1 <= j < |p| - 1 :: below + p[1..][..j] == at + p[..j + 1];
        if Visible(m, at, p, k) {
          assert m[at + p[..1]];
          forall j | 1 <= j < |p[1..]| ensures below + p[1..][..j] in m && m[below + p[1..][..j]] {
            assert at + p[..j + 1] in m && m[at + p[..j + 1]];
          }
          assert Visible(m, below, p[1..], k);
        }
        if n.isDir && Visible(m, below, p[1..], k) {
          forall j | 1 <= j < |p| ensures at + p[..j] in m && m[at + p[..j]] {
            if j > 1 { assert below + p[1..][..j - 1] == at + p[..j]; }
          }
        }
      }
    }
  }

  lemma BelowShrinks(paths: set<Path>, at: Path, name: string)
    requires at in paths
    ensures Below(paths, at + [name]) < Below(paths, at)
  {
    assert at in Below(paths, at) && at !in Below(paths, at + [name]);
    forall q | q in Below(paths, at + [name]) ensures q in Below(paths, at) {}
  }

  /** `n` is the child called `n.name` with everything below it. */
  ghost predicate ShowsChild(n: FileNode, m: map<Path, bool>, at: Path) {
    forall p, k :: NodeHas(n, p, k) <==> Visible(m, at, p, k) && p[0] == n.name
  }

  lemma ShowsOneMore(nodes: seq<FileNode>, n: FileNode, m: map<Path, bool>, at: Path, names: seq<string>, i: nat)
    requires i < |names| && n.name == names[i]
    requires ShowsSubtree(nodes, m, at, names[..i]) && ShowsChild(n, m, at)
    ensures ShowsSubtree(nodes + [n], m, at, names[..i + 1])
  {
    forall p, k ensures Has(nodes + [n], p, k) <==> Visible(m, at, p, k) && p[0] in names[..i + 1] {
      HasAppend(nodes, n, p, k);
      assert names[..i + 1] == names[..i] + [n.name];
    }
  }

  method ConvertChild(name: string, child: TrieNode, path: string, ghost at: Path, ghost nodes: map<Path, TrieNode>)
    returns (n: FileNode)
    requires Linked(nodes) && at in nodes && at + [name] in nodes && nodes[at + [name]] == child
    ensures n.name == name && WellFormedNode(n, path)
    ensures ShowsChild(n, Flat(nodes), at)
    decreases Below(nodes.Keys, at), 0
  {
    var childPath := Child(path, name);
    if child.isDir {
      BelowShrinks(nodes.Keys, at, name);
      var children := Convert(child, childPath, at + [name], nodes);
      n := FileNode(name, childPath, true, None, ToChildren(children));
    } else {
      n := FileNode(name, childPath, false, None, NoChildren);
    }
    forall p, k ensures NodeHas(n, p, k) <==> Visible(Flat(nodes), at, p, k) && p[0] == n.name {
      ChildShows(n, Flat(nodes), at, p, k);
    }
  }

  /** The inner function `convert`: the nodes below `node`, children first, then sorted. */
  method Convert(node: TrieNode, path: string, ghost at: Path, ghost nodes: map<Path, TrieNode>)
    returns (result: seq<FileNode>)
    requires Linked(nodes) && at in nodes && nodes[at] == node
    ensures WellFormed(result, path)
    ensures forall p, k :: Has(result, p, k) <==> Visible(Flat(nodes), at, p, k)
    decreases Below(nodes.Keys, at), 1
  {
    result := [];
    var names := SortedKeys(node.children.Keys);
    for i := 0 to |names|
      invariant |result| == i && forall j | 0 <= j < i :: result[j].name == names[j]
      invariant forall n | n in result :: WellFormedNode(n, path)
      invariant ShowsSubtree(result, Flat(nodes), at, names[..i])
    {
      assert names[i] in node.children;
      var n := ConvertChild(names[i], node.children[names[i]], path, at, nodes);
      ShowsOneMore(result, n, Flat(nodes), at, names, i);
      result := result + [n];
    }
    AllChildren(nodes, at, names);
    assert names[..|names|] == names;
    SortedForest(result, path);
    result := Sort(result, NodeLe);
  }

  lemma AllChildren(nodes: map<Path, TrieNode>, at: Path, names: seq<string>)
    requires Linked(nodes) && at in nodes && forall name :: name in names <==> name in nodes[at].children
    ensures forall p, k | Visible(Flat(nodes), at, p, k) :: p[0] in names
  {
    forall p, k | Visible(Flat(nodes), at, p, k) ensures p[0] in names { FirstStep(nodes, at, p, k); }
  }

  lemma FirstStep(nodes: map<Path, TrieNode>, at: Path, p: Path, k: Kind)
    requires Linked(nodes) && at in nodes && Visible(Flat(nodes), at, p, k)
    ensures p[0] in nodes[at].children
  {
    assert p[..1] == [p[0]];
    assert |p| == 1 ==> p == p[..1];
    assert at + [p[0]] in nodes;
  }

  /** `build_tree_from_paths`, for any list of strings. */
  method BuildTreeFromPaths(files: seq<string>) returns (tree: seq<FileNode>)
    ensures IsPathTree(tree, PathMap(files))
  {
    var root := new TrieNode([]);
    ghost var nodes: map<Path, TrieNode> := map[[] := root];
    for i := 0 to |files|
      invariant Linked(nodes) && nodes[[]] == root && fresh(nodes.Values)
      invariant Flat(nodes) == PathMap(files[..i])
    {
      assert files[..i + 1][..i] == files[..i];
      nodes := InsertPath(root, Components(files[i]), nodes);
    }
    assert files[..|files|] == files;
    tree := Convert(root, "", [], nodes);
  }
}
