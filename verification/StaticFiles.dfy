/**
 The two backends of the static file service. The Docker backend walks the host filesystem, once
 with a worklist (`ListFiles`) and once recursively (`BuildTreeHelper`); the Kubernetes backend gets
 a flat list of paths and grows a trie from it (module `PathTrie`).
 */
module StaticFiles {
  import opened FileTree
  import opened Filesystem
  import opened Sorting
  import opened Strings
  import opened Wrappers

  datatype IoError = ReadDirFailed

  // ---------- list_files ----------

  function FilesOf(e: Entry, rel: string): multiset<string> {
    match e
    case File(name, _) => multiset{Child(rel, name)}
    case Dir(name, l) => if l.Readable? then FilesUnder(l.entries, Child(rel, name)) else multiset{}
    case Special(_) => multiset{}
  }

  /** The relative paths of all files at and below these entries, counted with repetitions. */
  function FilesUnder(es: seq<Entry>, rel: string): multiset<string> {
    if es == [] then multiset{} else FilesOf(es[0], rel) + FilesUnder(es[1..], rel)
  }

  datatype Visit = Visit(listing: Listing, rel: string)

  function StackFiles(stack: seq<Visit>): multiset<string> {
    if stack == [] then multiset{}
    else
      var top := stack[|stack| - 1];
      StackFiles(stack[..|stack| - 1]) + FilesUnder(EntriesOf(top.listing), top.rel)
  }

  function EntrySize(e: Entry): nat {
    match e
    case Dir(_, l) => 2 + (if l.Readable? then TreeSize(l.entries) else 0)
    case _ => 1
  }

  function TreeSize(es: seq<Entry>): nat {
    if es == [] then 0 else EntrySize(es[0]) + TreeSize(es[1..])
  }

  function StackSize(stack: seq<Visit>): nat {
    if stack == [] then 0
    else StackSize(stack[..|stack| - 1]) + 1 + TreeSize(EntriesOf(stack[|stack| - 1].listing))
  }

  ghost predicate Blocked(l: Listing) { l.Unreadable? || HasUnreadable(l.entries) }

  ghost predicate StackBlocked(stack: seq<Visit>) {
    exists v :: v in stack && Blocked(v.listing)
  }

  lemma PushVisit(stack: seq<Visit>, v: Visit)
    ensures StackFiles(stack + [v]) == StackFiles(stack) + FilesUnder(EntriesOf(v.listing), v.rel)
    ensures StackSize(stack + [v]) == StackSize(stack) + 1 + TreeSize(EntriesOf(v.listing))
    ensures StackBlocked(stack + [v]) <==> StackBlocked(stack) || Blocked(v.listing)
  {
    var s := stack + [v];
    assert s[..|s| - 1] == stack;
    assert forall u :: u in s <==> u in stack || u == v;
  }

  lemma PopVisit(stack: seq<Visit>)
    requires stack != []
    ensures var (rest, v) := (stack[..|stack| - 1], stack[|stack| - 1]);
            && StackFiles(stack) == StackFiles(rest) + FilesUnder(EntriesOf(v.listing), v.rel)
            && StackSize(stack) == StackSize(rest) + 1 + TreeSize(EntriesOf(v.listing))
            && (StackBlocked(stack) <==> StackBlocked(rest) || Blocked(v.listing))
  {
    var rest, v := stack[..|stack| - 1], stack[|stack| - 1];
    forall u ensures u in stack <==> u in rest || u == v {
      if u in rest || u == v { assert u in stack; }
    }
  }

  lemma OneVisit(v: Visit)
    ensures StackFiles([v]) == FilesUnder(EntriesOf(v.listing), v.rel)
    ensures StackBlocked([v]) <==> Blocked(v.listing)
  {
    PushVisit([], v);
    assert [] + [v] == [v];
  }

  lemma HasUnreadableSplit(es: seq<Entry>)
    requires es != []
    ensures HasUnreadable(es) <==> EntryUnreadable(es[0]) || HasUnreadable(es[1..])
  {
    if HasUnreadable(es) {
      var i :| 0 <= i < |es| && EntryUnreadable(es[i]);
      assert i > 0 ==> es[1..][i - 1] == es[i];
    }
    if HasUnreadable(es[1..]) {
      var i :| 0 <= i < |es[1..]| && EntryUnreadable(es[1..][i]);
      assert es[i + 1] == es[1..][i];
    }
  }

  lemma TakeEntry(es: seq<Entry>, i: nat, rel: string)
    requires i < |es|
    ensures FilesUnder(es[i..], rel) == FilesOf(es[i], rel) + FilesUnder(es[i + 1..], rel)
    ensures TreeSize(es[i..]) == EntrySize(es[i]) + TreeSize(es[i + 1..])
    ensures HasUnreadable(es[i..]) <==> EntryUnreadable(es[i]) || HasUnreadable(es[i + 1..])
  {
    HasUnreadableSplit(es[i..]);
    assert es[i..][1..] == es[i + 1..];
  }

  /** One entry: a file is collected, a subdirectory is left for later. */
  method ReadEntry(e: Entry, rel: string, files: seq<string>, stack: seq<Visit>)
    returns (files': seq<string>, stack': seq<Visit>)
    ensures multiset(files') + StackFiles(stack') == multiset(files) + StackFiles(stack) + FilesOf(e, rel)
    ensures StackBlocked(stack') <==> StackBlocked(stack) || EntryUnreadable(e)
    ensures StackSize(stack') <= StackSize(stack) + EntrySize(e)
  {
    files', stack' := files, stack;
    match e {
      case File(name, _) =>
        files' := files' + [Child(rel, name)];
      case Dir(name, listing) =>
        PushVisit(stack, Visit(listing, Child(rel, name)));
        stack' := stack' + [Visit(listing, Child(rel, name))];
      case Special(_) =>
    }
  }

  /** One directory's entries, each as it comes. */
  method ReadEntries(entries: seq<Entry>, rel: string, files: seq<string>, stack: seq<Visit>)
    returns (files': seq<string>, stack': seq<Visit>)
    ensures multiset(files') + StackFiles(stack') == multiset(files) + StackFiles(stack) + FilesUnder(entries, rel)
    ensures StackBlocked(stack') <==> StackBlocked(stack) || HasUnreadable(entries)
    ensures StackSize(stack') <= StackSize(stack) + TreeSize(entries)
  {
    files', stack' := files, stack;
    assert entries[0..] == entries;
    for i := 0 to |entries|
      invariant multiset(files') + StackFiles(stack') + FilesUnder(entries[i..], rel)
             == multiset(files) + StackFiles(stack) + FilesUnder(entries, rel)
      invariant StackBlocked(stack') || HasUnreadable(entries[i..]) <==> StackBlocked(stack) || HasUnreadable(entries)
      invariant StackSize(stack') + TreeSize(entries[i..]) <= StackSize(stack) + TreeSize(entries)
    {
      TakeEntry(entries, i, rel);
      ghost var owed, rest := multiset(files') + StackFiles(stack'), FilesUnder(entries[i + 1..], rel);
      files', stack' := ReadEntry(entries[i], rel, files', stack');
      SumAssociates(owed, FilesOf(entries[i], rel), rest);
    }
    assert entries[|entries|..] == [];
  }

  lemma SumAssociates<T>(a: multiset<T>, b: multiset<T>, c: multiset<T>)
    ensures a + b + c == a + (b + c)
  {}

  /**
   The Docker branch of `list_files`: a last-in-first-out worklist of directories. A directory that
   cannot be read fails the whole listing; a missing sandbox directory lists as empty.
   */
  method CollectFiles(dir: Option<Listing>) returns (r: Result<seq<string>, IoError>)
    ensures r.Ok? ==> SortedBy(r.value, StrLe)
    ensures r.Ok? ==> multiset(r.value) == if dir.Some? then FilesUnder(EntriesOf(dir.value), "") else multiset{}
    ensures r.Err? <==> dir.Some? && Blocked(dir.value)
  {
    if dir == None { return Ok([]); }
    var files: seq<string> := [];
    var dirsToVisit := [Visit(dir.value, "")];
    OneVisit(dirsToVisit[0]);
    while dirsToVisit != []
      invariant multiset(files) + StackFiles(dirsToVisit) == FilesUnder(EntriesOf(dir.value), "")
      invariant StackBlocked(dirsToVisit) <==> Blocked(dir.value)
      decreases StackSize(dirsToVisit)
    {
      var visit := dirsToVisit[|dirsToVisit| - 1];
      var rest := dirsToVisit[..|dirsToVisit| - 1];
      PopVisit(dirsToVisit);
      if visit.listing.Unreadable? { return Err(ReadDirFailed); }
      files, dirsToVisit := ReadEntries(visit.listing.entries, visit.rel, files, rest);
    }
    SortStrings(files);
    r := Ok(Sort(files, StrLe));
  }

  lemma {:induction false} FilesUnderCounts(es: seq<Entry>, at: Path, s: string)
    requires ValidEntries(es) && (at == [] || (Splittable(at) && at[0] != ""))
    ensures FilesUnder(es, Join(at))[s] <= 1
    ensures s in FilesUnder(es, Join(at)) <==> exists p, z :: FsHas(es, p, AFile(z)) && s == Join(at + p)
    decreases es
  {
    if es != [] {
      var e, rest := es[0], es[1..];
      FilesUnderCounts(rest, at, s);
      FilesOfCounts(e, at, s);
      assert FilesUnder(es, Join(at)) == FilesOf(e, Join(at)) + FilesUnder(rest, Join(at));
      forall p, k ensures FsHas(es, p, k) <==> EntryHas(e, p, k) || FsHas(rest, p, k) {
        assert forall f :: f in es <==> f == e || f in rest;
      }
      forall p, z, q, y | EntryHas(e, p, AFile(z)) && FsHas(rest, q, AFile(y)) ensures Join(at + p) != Join(at + q) {
        var f :| f in rest && EntryHas(f, q, AFile(y));
        assert FsHas(es, p, AFile(z)) && FsHas(es, q, AFile(y));
        JoinBelow(es, at, p, AFile(z));
        JoinBelow(es, at, q, AFile(y));
        assert (at + p)[|at|] == p[0] && (at + q)[|at|] == q[0];
      }
    }
  }

  lemma FilesOfCounts(e: Entry, at: Path, s: string)
    requires ValidEntry(e) && (at == [] || (Splittable(at) && at[0] != ""))
    ensures FilesOf(e, Join(at))[s] <= 1
    ensures s in FilesOf(e, Join(at)) <==> exists p, z :: EntryHas(e, p, AFile(z)) && s == Join(at + p)
    decreases e
  {
    JoinSnoc(at, e.name);
    match e {
      case File(name, size) =>
        assert EntryHas(e, [name], AFile(size));
        assert forall p, z | EntryHas(e, p, AFile(z)) :: p == [name];
      case Dir(name, l) =>
        DirFiles(e, at, s);
        if l.Readable? { FilesUnderCounts(l.entries, at + [name], s); }
      case Special(_) =>
    }
  }

  /** The files below a directory, named from above and from inside. */
  lemma DirFiles(e: Entry, at: Path, s: string)
    requires e.Dir?
    ensures (exists p, z :: EntryHas(e, p, AFile(z)) && s == Join(at + p)) <==>
            exists p, z :: FsHas(EntriesOf(e.listing), p, AFile(z)) && s == Join(at + [e.name] + p)
  {
    var es, name := EntriesOf(e.listing), e.name;
    forall p, z | FsHas(es, p, AFile(z)) && s == Join(at + [name] + p)
      ensures EntryHas(e, [name] + p, AFile(z)) && s == Join(at + ([name] + p))
    {
      var f :| f in es && EntryHas(f, p, AFile(z));
      assert ([name] + p)[1..] == p && at + ([name] + p) == at + [name] + p;
    }
    forall p, z | EntryHas(e, p, AFile(z)) && s == Join(at + p)
      ensures FsHas(es, p[1..], AFile(z)) && s == Join(at + [name] + p[1..])
    {
      assert at + p == at + [name] + p[1..];
    }
  }

  lemma JoinBelow(es: seq<Entry>, at: Path, p: Path, k: Kind)
    requires ValidEntries(es) && (at == [] || (Splittable(at) && at[0] != "")) && FsHas(es, p, k)
    ensures SplitOn(Join(at + p), '/') == at + p && p != []
  {
    FsPathValid(es, p, k);
    assert p[0] in p;
    assert forall c | c in at + p :: c in at || c in p;
    SplitJoin(at + p);
  }

  lemma RootFiles(es: seq<Entry>, s: string)
    requires ValidEntries(es)
    ensures FilesUnder(es, "")[s] <= 1
    ensures s in FilesUnder(es, "") <==> IsFilePath(es, s)
  {
    FilesUnderCounts(es, [], s);
    forall p: Path ensures [] + p == p {}
    if IsFilePath(es, s) {
      var p, z :| FsHas(es, p, AFile(z)) && s == Join(p);
      assert FsHas(es, p, AFile(z)) && s == Join([] + p);
    }
  }

  /** `list_files`: sorted, without duplicates, and exactly the files. */
  method ListFiles(dir: Option<Listing>) returns (r: Result<seq<string>, IoError>)
    requires dir.Some? ==> ValidEntries(EntriesOf(dir.value))
    ensures r.Err? <==> dir.Some? && Blocked(dir.value)
    ensures r.Ok? ==> Ascending(r.value) && NoDuplicates(r.value)
    ensures r.Ok? ==> forall s :: s in r.value <==> dir.Some? && IsFilePath(EntriesOf(dir.value), s)
  {
    r := CollectFiles(dir);
    if r.Ok? {
      var files := r.value;
      forall s ensures multiset(files)[s] <= 1 && (s in files <==> dir.Some? && IsFilePath(EntriesOf(dir.value), s)) {
        assert s in files <==> s in multiset(files);
        if dir.Some? { RootFiles(EntriesOf(dir.value), s); }
      }
      NoDuplicatesIffMultiset(files);
      SortedIsAscending(files);
    }
  }

  // ---------- build_tree_helper ----------

  /** `nodes` is the tree of these entries at the relative path `rel`. */
  ghost predicate IsFsTree(nodes: seq<FileNode>, es: seq<Entry>, rel: string) {
    WellFormed(nodes, rel) && forall p, k :: Has(nodes, p, k) <==> FsHas(es, p, k)
  }

  lemma FsHasAppend(es: seq<Entry>, e: Entry, p: Path, k: Kind)
    ensures FsHas(es + [e], p, k) <==> FsHas(es, p, k) || EntryHas(e, p, k)
  {
    assert forall f :: f in es + [e] <==> f in es || f == e;
  }

  lemma FsHasHead(es: seq<Entry>, p: Path, k: Kind)
    requires es != []
    ensures FsHas(es, p, k) <==> EntryHas(es[0], p, k) || FsHas(es[1..], p, k)
  {
    assert forall f :: f in es <==> f == es[0] || f in es[1..];
  }

  /** First pass of `build_tree_helper`: nodes for the files, directories set aside. */
  method SplitEntries(es: seq<Entry>, rel: string) returns (nodes: seq<FileNode>, dirs: seq<Entry>)
    requires ValidEntries(es)
    ensures forall n | n in nodes :: WellFormedNode(n, rel)
    ensures forall d | d in dirs :: d.Dir? && d in es
    ensures forall i, j | 0 <= i < j < |dirs| :: dirs[i].name != dirs[j].name
    ensures DistinctNames(nodes) && forall n, d | n in nodes && d in dirs :: n.name != d.name
    ensures forall p, k :: FsHas(es, p, k) <==> Has(nodes, p, k) || FsHas(dirs, p, k)
  {
    nodes, dirs := [], [];
    for i := 0 to |es|
      invariant forall n | n in nodes :: WellFormedNode(n, rel) && exists e :: e in es[..i] && e.name == n.name
      invariant forall d | d in dirs :: d.Dir? && d in es[..i]
      invariant forall i, j | 0 <= i < j < |dirs| :: dirs[i].name != dirs[j].name
      invariant DistinctNames(nodes) && forall n, d | n in nodes && d in dirs :: n.name != d.name
      invariant forall p, k :: FsHas(es[..i], p, k) <==> Has(nodes, p, k) || FsHas(dirs, p, k)
    {
      var e := es[i];
      assert es[..i + 1] == es[..i] + [e];
      assert forall f | f in es[..i] :: f.name != e.name;
      forall p, k ensures FsHas(es[..i + 1], p, k) <==> FsHas(es[..i], p, k) || EntryHas(e, p, k) {
        FsHasAppend(es[..i], e, p, k);
      }
      match e {
        case Dir(name, _) =>
          forall p, k ensures FsHas(dirs + [e], p, k) <==> FsHas(dirs, p, k) || EntryHas(e, p, k) {
            FsHasAppend(dirs, e, p, k);
          }
          dirs := dirs + [e];
        case File(name, size) =>
          var n := FileNode(name, Child(rel, name), false, size, NoChildren);
          forall p, k ensures Has(nodes + [n], p, k) <==> Has(nodes, p, k) || EntryHas(e, p, k) {
            HasAppend(nodes, n, p, k);
          }
          nodes := nodes + [n];
        case Special(_) =>
      }
    }
    assert es[..|es|] == es;
  }

  /** `build_tree_helper`: an unreadable directory counts as empty. */
  method BuildTreeHelper(listing: Listing, rel: string) returns (nodes: seq<FileNode>)
    requires ValidEntries(EntriesOf(listing))
    ensures IsFsTree(nodes, EntriesOf(listing), rel)
    decreases listing
  {
    if listing.Unreadable? { return []; }
    var es := listing.entries;
    var dirs;
    nodes, dirs := SplitEntries(es, rel);
    for i := 0 to |dirs|
      invariant forall n | n in nodes :: WellFormedNode(n, rel)
      invariant DistinctNames(nodes) && forall n, d | n in nodes && d in dirs[i..] :: n.name != d.name
      invariant forall p, k :: FsHas(es, p, k) <==> Has(nodes, p, k) || FsHas(dirs[i..], p, k)
    {
      var d := dirs[i];
      assert d in dirs && ValidEntry(d);
      var path := Child(rel, d.name);
      var children := BuildTreeHelper(d.listing, path);
      var n := FileNode(d.name, path, true, None, ToChildren(children));
      forall p, k ensures FsHas(dirs[i..], p, k) || Has(nodes, p, k) <==> FsHas(dirs[i + 1..], p, k) || Has(nodes + [n], p, k) {
        FsHasHead(dirs[i..], p, k);
        HasAppend(nodes, n, p, k);
      }
      nodes := nodes + [n];
    }
    SortedForest(nodes, rel);
    nodes := Sort(nodes, NodeLe);
  }
}
