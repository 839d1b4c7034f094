/**
 A finite directory tree as `read_dir` shows it: entries in any order, directories that may refuse
 to be read, and special entries that are neither file nor directory.
 */
module Filesystem {
  import opened FileTree
  import opened Strings
  import opened Wrappers

  datatype Entry =
    | File(name: string, size: Option<nat>)
    | Dir(name: string, listing: Listing)
    | Special(name: string)

  datatype Listing = Unreadable | Readable(entries: seq<Entry>)

  function EntriesOf(l: Listing): seq<Entry> {
    if l.Readable? then l.entries else []
  }

  // ---------- meaning ----------

  ghost predicate EntryHas(e: Entry, p: Path, k: Kind)
    decreases |p|, 0
  {
    && p != [] && e.name == p[0]
    && match e
       case File(_, size) => |p| == 1 && k == AFile(size)
       case Dir(_, l) => if |p| == 1 then k == ADir else FsHas(EntriesOf(l), p[1..], k)
       case Special(_) => false
  }

  /** The path `p` below these entries is a directory, or a file of the given size. */
  ghost predicate FsHas(es: seq<Entry>, p: Path, k: Kind)
    decreases |p|, 1
  {
    exists e :: e in es && EntryHas(e, p, k)
  }

  predicate ValidName(name: string) { name != "" && '/' !in name }

  ghost predicate ValidEntry(e: Entry) {
    ValidName(e.name) && (e.Dir? && e.listing.Readable? ==> ValidEntries(e.listing.entries))
  }

  /** What a filesystem guarantees: names are usable and unique in their directory. */
  ghost predicate ValidEntries(es: seq<Entry>) {
    && (forall i, j | 0 <= i < j < |es| :: es[i].name != es[j].name)
    && (forall e | e in es :: ValidEntry(e))
  }

  ghost predicate HasUnreadable(es: seq<Entry>) {
    exists i :: 0 <= i < |es| && EntryUnreadable(es[i])
  }

  ghost predicate EntryUnreadable(e: Entry) {
    e.Dir? && (e.listing.Unreadable? || HasUnreadable(e.listing.entries))
  }

  /** Every directory holds a file, directly or further down. */
  ghost predicate NoBareDirs(es: seq<Entry>) {
    forall p | FsHas(es, p, ADir) :: exists q, z :: FsHas(es, p + q, AFile(z))
  }

  // ---------- path strings ----------

  /** The relative path that the code builds for a list of components. */
  function Join(p: Path): string {
    if p == [] then "" else Child(Join(p[..|p| - 1]), p[|p| - 1])
  }

  ghost predicate IsFilePath(es: seq<Entry>, s: string) {
    exists p, z :: FsHas(es, p, AFile(z)) && s == Join(p)
  }

  lemma JoinSnoc(p: Path, name: string)
    ensures Join(p + [name]) == Child(Join(p), name)
  {
    assert (p + [name])[..|p|] == p;
  }

  /** Components that survive joining and splitting again. */
  predicate Splittable(p: Path) {
    p != [] && (p[0] != "" || |p| == 1) && forall c | c in p :: '/' !in c
  }

  lemma SplitChild(rel: string, name: string)
    requires '/' !in name
    ensures SplitOn(Child(rel, name), '/') == if rel == "" then [name] else SplitOn(rel, '/') + [name]
  {
    SplitFree(name, '/');
    if rel != "" {
      SplitConcat(rel, '/', name);
      assert rel + "/" + name == rel + ("/" + name);
    }
  }

  lemma {:induction false} SplitJoin(p: Path)
    requires Splittable(p)
    ensures SplitOn(Join(p), '/') == p
    ensures Join(p) == "" || Join(p)[0] != '/'
  {
    var init, last := p[..|p| - 1], p[|p| - 1];
    assert p == init + [last];
    assert last in p;
    SplitChild(Join(init), last);
    if init != [] {
      assert init[0] == p[0];
      SplitJoin(init);
    }
  }

  /** Splitting and joining again drops exactly the leading slashes. */
  lemma JoinSplitOn(s: string)
    requires s == "" || s[0] != '/'
    ensures Splittable(SplitOn(s, '/')) && Join(SplitOn(s, '/')) == s
  {
    var p := SplitOn(s, '/');
    SplitPiecesFree(s, '/');
    JoinSplit(s, '/');
    assert p[0] != "" || |p| == 1;
    SplitJoin(p);
    JoinSplit(Join(p), '/');
  }

  lemma {:induction false} JoinNoLeadingSlash(p: Path)
    requires forall c | c in p :: '/' !in c
    ensures Join(p) == "" || Join(p)[0] != '/'
  {
    if p != [] {
      var init, last := p[..|p| - 1], p[|p| - 1];
      assert last in p;
      JoinNoLeadingSlash(init);
    }
  }

  lemma {:induction false} FsPathValid(es: seq<Entry>, p: Path, k: Kind)
    requires ValidEntries(es) && FsHas(es, p, k)
    ensures p != [] && forall c | c in p :: ValidName(c)
    decreases |p|
  {
    var e :| e in es && EntryHas(e, p, k);
    assert ValidEntry(e);
    if |p| > 1 { FsPathValid(EntriesOf(e.listing), p[1..], k); }
    assert p == [p[0]] + p[1..];
  }

  lemma FsPathSplits(es: seq<Entry>, p: Path, k: Kind)
    requires ValidEntries(es) && FsHas(es, p, k)
    ensures Splittable(p) && SplitOn(Join(p), '/') == p
  {
    FsPathValid(es, p, k);
    assert p[0] in p;
    SplitJoin(p);
  }

  // ---------- structure of a filesystem ----------

  lemma EntryUnique(es: seq<Entry>, e: Entry, f: Entry)
    requires ValidEntries(es) && e in es && f in es && e.name == f.name
    ensures e == f
  {}

  /** A path names one thing. */
  lemma {:induction false} FsKindUnique(es: seq<Entry>, p: Path, k: Kind, k': Kind)
    requires ValidEntries(es) && FsHas(es, p, k) && FsHas(es, p, k')
    ensures k == k'
    decreases |p|
  {
    var e :| e in es && EntryHas(e, p, k);
    var f :| f in es && EntryHas(f, p, k');
    EntryUnique(es, e, f);
    assert ValidEntry(e);
    if |p| > 1 { FsKindUnique(EntriesOf(e.listing), p[1..], k, k'); }
  }

  /** Everything above an entry is a directory. */
  lemma {:induction false} FsPrefixIsDir(es: seq<Entry>, p: Path, q: Path, k: Kind)
    requires p != [] && q != [] && FsHas(es, p + q, k)
    ensures FsHas(es, p, ADir)
    decreases |p|
  {
    var r := p + q;
    var e :| e in es && EntryHas(e, r, k);
    assert r[1..] == p[1..] + q;
    if |p| > 1 { FsPrefixIsDir(EntriesOf(e.listing), p[1..], q, k); }
    assert EntryHas(e, p, ADir);
  }
}
