/**
 The directory tree returned to clients, and what makes two trees the same tree.

 A forest is read through `Has(nodes, p, k)`: walking the names of `p` from the top ends at a node
 of kind `k`. A well-formed forest is determined by what it has (`ForestUnique`), so an
 implementation is specified by one equivalence about `Has`.
 */
module FileTree {
  import opened Sorting
  import opened Strings
  import opened Wrappers

  datatype FileNode = FileNode(
    name: string, path: string, isDir: bool, size: Option<nat>, children: ChildList)

  /** An optional vector of child nodes. */
  datatype ChildList = NoChildren | Children(nodes: seq<FileNode>)

  datatype Kind = AFile(size: Option<nat>) | ADir

  /** A path is a list of component names. */
  type Path = seq<string>

  /** The relative path of an entry below `parent`; the top level has the empty path. */
  function Child(parent: string, name: string): string {
    if parent == "" then name else parent + "/" + name
  }

  function Kids(n: FileNode): seq<FileNode> {
    if n.children.Children? then n.children.nodes else []
  }

  function KindOf(n: FileNode): Kind {
    if n.isDir then ADir else AFile(n.size)
  }

  /** The children field: absent rather than empty. */
  function ToChildren(nodes: seq<FileNode>): ChildList {
    if nodes == [] then NoChildren else Children(nodes)
  }

  // ---------- order ----------

  datatype Key = Key(isDir: bool, name: string)

  function KeyOf(n: FileNode): Key { Key(n.isDir, n.name) }

  /** Directories first, then by name. */
  predicate KeyLe(a: Key, b: Key) {
    if a.isDir != b.isDir then a.isDir else StrLe(a.name, b.name)
  }

  predicate NodeLe(a: FileNode, b: FileNode) { KeyLe(KeyOf(a), KeyOf(b)) }

  lemma KeyLeOrder()
    ensures TotalOrder(KeyLe)
    ensures TotalPreorder(NodeLe)
  {
    StrLeOrder();
  }

  predicate DistinctNames(nodes: seq<FileNode>) {
    forall i, j | 0 <= i < j < |nodes| :: nodes[i].name != nodes[j].name
  }

  // ---------- meaning ----------

  ghost predicate NodeHas(n: FileNode, p: Path, k: Kind)
    decreases |p|, 0
  {
    p != [] && n.name == p[0] && if |p| == 1 then KindOf(n) == k else Has(Kids(n), p[1..], k)
  }

  ghost predicate Has(nodes: seq<FileNode>, p: Path, k: Kind)
    decreases |p|, 1
  {
    exists n :: n in nodes && NodeHas(n, p, k)
  }

  ghost predicate WellFormedNode(n: FileNode, parent: string) {
    && n.path == Child(parent, n.name)
    && (n.isDir ==> n.size == None)
    && (!n.isDir ==> n.children == NoChildren)
    && (n.children.Children? ==> n.children.nodes != [] && WellFormed(n.children.nodes, n.path))
  }

  /** Siblings are unique and ordered, paths extend the parent's path, and no child list is empty. */
  ghost predicate WellFormed(nodes: seq<FileNode>, parent: string) {
    && DistinctNames(nodes)
    && SortedBy(nodes, NodeLe)
    && forall n | n in nodes :: WellFormedNode(n, parent)
  }

  ghost predicate SameForest(a: seq<FileNode>, b: seq<FileNode>) {
    forall p, k :: Has(a, p, k) <==> Has(b, p, k)
  }

  lemma HasAppend(nodes: seq<FileNode>, n: FileNode, p: Path, k: Kind)
    ensures Has(nodes + [n], p, k) <==> Has(nodes, p, k) || NodeHas(n, p, k)
  {
    assert forall m :: m in nodes + [n] <==> m in nodes || m == n;
  }

  /** Sorting by `NodeLe` is what makes a list of correct, distinct nodes well-formed. */
  lemma SortedForest(nodes: seq<FileNode>, parent: string)
    requires DistinctNames(nodes) && forall n | n in nodes :: WellFormedNode(n, parent)
    ensures WellFormed(Sort(nodes, NodeLe), parent)
    ensures SameForest(nodes, Sort(nodes, NodeLe))
    ensures Sort(nodes, NodeLe) == [] <==> nodes == []
  {
    var sorted := Sort(nodes, NodeLe);
    KeyLeOrder();
    SortCorrect(nodes, NodeLe);
    SameElements(nodes, sorted);
    NoDuplicatesIffMultiset(nodes);
    NoDuplicatesIffMultiset(sorted);
    forall i, j | 0 <= i < j < |sorted| ensures sorted[i].name != sorted[j].name {
      assert sorted[i] in nodes && sorted[j] in nodes && sorted[i] != sorted[j];
    }
  }

  /**
   In a well-formed forest directories come before files; siblings of one kind stand in the order of their
   names, by the first character in which they differ.
   */
  lemma SiblingsInOrder(nodes: seq<FileNode>, parent: string, i: nat, j: nat)
    requires WellFormed(nodes, parent) && i < j < |nodes|
    ensures nodes[j].isDir ==> nodes[i].isDir
    ensures nodes[i].name != nodes[j].name
    ensures nodes[i].isDir == nodes[j].isDir ==> InOrder(nodes[i].name, nodes[j].name)
  {
    assert NodeLe(nodes[i], nodes[j]);
    StrLeIff(nodes[i].name, nodes[j].name);
  }

  // ---------- uniqueness ----------

  /** Below a node named `p[0]` the forest is that node's children. */
  lemma HasBelow(nodes: seq<FileNode>, n: FileNode, p: Path, k: Kind)
    requires DistinctNames(nodes) && n in nodes && p != []
    ensures Has(nodes, [n.name] + p, k) <==> Has(Kids(n), p, k)
  {
    var q := [n.name] + p;
    assert q[1..] == p;
    assert NodeHas(n, q, k) <==> Has(Kids(n), p, k);
    forall m | m in nodes && NodeHas(m, q, k) ensures m == n {}
  }

  lemma HasTop(nodes: seq<FileNode>, name: string, k: Kind)
    ensures Has(nodes, [name], k) <==> exists n :: n in nodes && n.name == name && KindOf(n) == k
  {
    assert forall n :: NodeHas(n, [name], k) <==> n.name == name && KindOf(n) == k;
  }

  function Keys(nodes: seq<FileNode>): seq<Key> { seq(|nodes|, i requires 0 <= i < |nodes| => KeyOf(nodes[i])) }

  lemma KeyInForest(a: seq<FileNode>, b: seq<FileNode>, key: Key)
    requires SameForest(a, b) && key in Keys(a)
    ensures key in Keys(b)
  {
    var i :| 0 <= i < |a| && KeyOf(a[i]) == key;
    HasTop(a, key.name, KindOf(a[i]));
    HasTop(b, key.name, KindOf(a[i]));
    assert a[i] in a;
    assert Has(a, [key.name], KindOf(a[i]));
    var m :| m in b && m.name == key.name && KindOf(m) == KindOf(a[i]);
    var j :| 0 <= j < |b| && b[j] == m;
    assert Keys(b)[j] == key;
  }

  lemma SameKeys(a: seq<FileNode>, b: seq<FileNode>, parent: string)
    requires WellFormed(a, parent) && WellFormed(b, parent) && SameForest(a, b)
    ensures Keys(a) == Keys(b)
  {
    KeyLeOrder();
    forall key ensures key in Keys(a) <==> key in Keys(b) {
      if key in Keys(a) { KeyInForest(a, b, key); }
      if key in Keys(b) { KeyInForest(b, a, key); }
    }
    SortedUnique(Keys(a), Keys(b), KeyLe);
  }

  lemma HasFirst(b: seq<FileNode>)
    requires b != []
    ensures Has(b, [b[0].name], KindOf(b[0]))
  {
    HasTop(b, b[0].name, KindOf(b[0]));
    assert b[0] in b;
  }

  lemma EmptyForest(b: seq<FileNode>)
    requires SameForest([], b)
    ensures b == []
  {
    if b != [] {
      HasFirst(b);
      assert false;
    }
  }

  lemma {:induction false} ForestUnique(a: seq<FileNode>, b: seq<FileNode>, parent: string)
    requires WellFormed(a, parent) && WellFormed(b, parent) && SameForest(a, b)
    ensures a == b
    decreases a
  {
    SameKeys(a, b, parent);
    assert |Keys(a)| == |a| && |Keys(b)| == |b|;
    forall i | 0 <= i < |a| ensures a[i] == b[i] {
      assert KeyOf(a[i]) == Keys(a)[i] == Keys(b)[i] == KeyOf(b[i]);
      assert a[i] in a && b[i] in b;
      NodeUnique(a, b, i, parent);
      if Kids(a[i]) != [] { ForestUnique(Kids(a[i]), Kids(b[i]), a[i].path); } else { EmptyForest(Kids(b[i])); }
    }
  }

  lemma NodeUnique(a: seq<FileNode>, b: seq<FileNode>, i: nat, parent: string)
    requires WellFormed(a, parent) && WellFormed(b, parent) && SameForest(a, b)
    requires i < |a| && i < |b| && KeyOf(a[i]) == KeyOf(b[i])
    ensures a[i].path == b[i].path && a[i].size == b[i].size
    ensures SameForest(Kids(a[i]), Kids(b[i]))
    ensures WellFormed(Kids(a[i]), a[i].path) && WellFormed(Kids(b[i]), a[i].path)
    ensures Kids(a[i]) == Kids(b[i]) ==> a[i] == b[i]
  {
    var n, m := a[i], b[i];
    assert n in a && m in b;
    assert WellFormedNode(n, parent) && WellFormedNode(m, parent);
    HasTop(a, n.name, KindOf(n));
    HasTop(b, n.name, KindOf(n));
    assert Has(a, [n.name], KindOf(n));
    var m' :| m' in b && m'.name == n.name && KindOf(m') == KindOf(n);
    assert m' == m;
    forall p, k ensures Has(Kids(n), p, k) <==> Has(Kids(m), p, k) {
      if p != [] {
        HasBelow(a, n, p, k);
        HasBelow(b, m, p, k);
      }
    }
  }

  // ---------- sizes ----------

  /** The tree without file sizes, which only one backend reports. */
  function StripNode(n: FileNode): FileNode {
    n.(size := None, children := match n.children case NoChildren => NoChildren case Children(c) => Children(StripSizes(c)))
  }

  function StripSizes(nodes: seq<FileNode>): (r: seq<FileNode>)
    ensures |r| == |nodes|
    ensures forall i | 0 <= i < |nodes| :: r[i] == StripNode(nodes[i])
  {
    if nodes == [] then [] else [StripNode(nodes[0])] + StripSizes(nodes[1..])
  }

  lemma {:induction false} StripWellFormed(nodes: seq<FileNode>, parent: string)
    requires WellFormed(nodes, parent)
    ensures WellFormed(StripSizes(nodes), parent)
    decreases nodes
  {
    var r := StripSizes(nodes);
    forall m | m in r ensures WellFormedNode(m, parent) {
      var i :| 0 <= i < |r| && r[i] == m;
      assert nodes[i] in nodes;
      if nodes[i].children.Children? { StripWellFormed(nodes[i].children.nodes, nodes[i].path); }
    }
  }

  /** What `Has` of the stripped forest says about the forest itself. */
  ghost predicate HasStripped(nodes: seq<FileNode>, p: Path, k: Kind) {
    if k.ADir? then Has(nodes, p, ADir) else k.size == None && exists z :: Has(nodes, p, AFile(z))
  }

  ghost predicate NodeHasStripped(n: FileNode, p: Path, k: Kind) {
    if k.ADir? then NodeHas(n, p, ADir) else k.size == None && exists z :: NodeHas(n, p, AFile(z))
  }

  lemma {:induction false} StripHas(nodes: seq<FileNode>, p: Path, k: Kind)
    ensures Has(StripSizes(nodes), p, k) <==> HasStripped(nodes, p, k)
    decreases |p|, 1
  {
    var r := StripSizes(nodes);
    forall i | 0 <= i < |nodes| ensures NodeHas(r[i], p, k) <==> NodeHasStripped(nodes[i], p, k) {
      StripNodeHas(nodes[i], p, k);
    }
    if Has(r, p, k) {
      var m :| m in r && NodeHas(m, p, k);
      var i :| 0 <= i < |r| && r[i] == m;
      assert nodes[i] in nodes && NodeHasStripped(nodes[i], p, k);
    }
    if HasStripped(nodes, p, k) {
      var z: Option<nat> :| Has(nodes, p, if k.ADir? then ADir else AFile(z));
      var n :| n in nodes && NodeHas(n, p, if k.ADir? then ADir else AFile(z));
      var i :| 0 <= i < |nodes| && nodes[i] == n;
      assert NodeHasStripped(nodes[i], p, k) && r[i] in r;
    }
  }

  lemma StripNodeHas(n: FileNode, p: Path, k: Kind)
    ensures NodeHas(StripNode(n), p, k) <==> NodeHasStripped(n, p, k)
    decreases |p|, 0
  {
    if |p| == 1 {
      if n.name == p[0] && !n.isDir { assert NodeHas(n, p, AFile(n.size)); }
    } else if |p| > 1 {
      StripHas(Kids(n), p[1..], k);
      assert StripSizes(Kids(n)) == Kids(StripNode(n));
    }
  }
}
