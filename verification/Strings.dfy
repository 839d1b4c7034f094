/** Strings as the code points of Rust's `str`: order, splitting and replacing. */
module Strings {
  import opened Sorting

  /** Bytewise order of UTF-8, which is the order of the code points. */
  predicate StrLe(a: string, b: string) {
    a == [] || (b != [] && (a[0] < b[0] || (a[0] == b[0] && StrLe(a[1..], b[1..]))))
  }

  lemma {:induction false} StrLeTotal(a: string, b: string)
    ensures StrLe(a, b) || StrLe(b, a)
  {
    if a != [] && b != [] && a[0] == b[0] { StrLeTotal(a[1..], b[1..]); }
  }

  lemma {:induction false} StrLeAntisymmetric(a: string, b: string)
    requires StrLe(a, b) && StrLe(b, a)
    ensures a == b
  {
    if a != [] && b != [] {
      StrLeAntisymmetric(a[1..], b[1..]);
      assert a == [a[0]] + a[1..] && b == [b[0]] + b[1..];
    }
  }

  lemma {:induction false} StrLeTransitive(a: string, b: string, c: string)
    requires StrLe(a, b) && StrLe(b, c)
    ensures StrLe(a, c)
  {
    if a != [] && b != [] && c != [] && a[0] == b[0] == c[0] {
      StrLeTransitive(a[1..], b[1..], c[1..]);
    }
  }

  lemma StrLeOrder()
    ensures TotalOrder(StrLe)
  {
    forall a, b ensures StrLe(a, b) || StrLe(b, a) { StrLeTotal(a, b); }
    forall a, b | StrLe(a, b) && StrLe(b, a) ensures a == b { StrLeAntisymmetric(a, b); }
    forall a, b, c | StrLe(a, b) && StrLe(b, c) ensures StrLe(a, c) { StrLeTransitive(a, b, c); }
  }

  /** `a` is a prefix of `b`, or has the smaller character where the two first differ. */
  ghost predicate InOrder(a: string, b: string) {
    exists k :: SmallerAt(a, b, k)
  }

  predicate SmallerAt(a: string, b: string, k: int) {
    0 <= k <= |a| && k <= |b| && a[..k] == b[..k] && (k == |a| || (k < |b| && a[k] < b[k]))
  }

  lemma {:induction false} StrLeIff(a: string, b: string)
    ensures StrLe(a, b) <==> InOrder(a, b)
  {
    if a == [] {
      assert SmallerAt(a, b, 0);
    } else if b != [] {
      var a', b' := a[1..], b[1..];
      StrLeIff(a', b');
      assert a == [a[0]] + a' && b == [b[0]] + b';
      if a[0] < b[0] { assert SmallerAt(a, b, 0); }
      if a[0] == b[0] && StrLe(a', b') {
        var k :| SmallerAt(a', b', k);
        assert a[..k + 1] == [a[0]] + a'[..k] && b[..k + 1] == [b[0]] + b'[..k];
        assert SmallerAt(a, b, k + 1);
      }
      if k :| SmallerAt(a, b, k) && k > 0 {
        assert a[0] == a[..k][0] == b[..k][0] == b[0];
        assert a'[..k - 1] == a[..k][1..] && b'[..k - 1] == b[..k][1..];
        assert SmallerAt(a', b', k - 1);
      }
    }
  }

  /** Sorted strings, said without the comparison that sorted them. */
  ghost predicate Ascending(s: seq<string>) {
    forall i, j | 0 <= i < j < |s| :: InOrder(s[i], s[j])
  }

  lemma SortedIsAscending(s: seq<string>)
    requires SortedBy(s, StrLe)
    ensures Ascending(s)
  {
    forall i, j | 0 <= i < j < |s| ensures InOrder(s[i], s[j]) { StrLeIff(s[i], s[j]); }
  }

  /** What `sort` does to a vector of strings. */
  lemma SortStrings(s: seq<string>)
    ensures SortedBy(Sort(s, StrLe), StrLe) && multiset(Sort(s, StrLe)) == multiset(s)
    ensures forall x :: x in Sort(s, StrLe) <==> x in s
    ensures NoDuplicates(Sort(s, StrLe)) <==> NoDuplicates(s)
  {
    StrLeOrder();
    SortCorrect(s, StrLe);
    SameElements(Sort(s, StrLe), s);
    NoDuplicatesIffMultiset(s);
    NoDuplicatesIffMultiset(Sort(s, StrLe));
  }

  /** The names of a set in the order in which a `BTreeMap` lists its keys. */
  method SortedKeys(names: set<string>) returns (keys: seq<string>)
    ensures SortedBy(keys, StrLe) && Enumerates(keys, names)
  {
    var rest := names;
    var found: seq<string> := [];
    while rest != {}
      invariant rest <= names && NoDuplicates(found)
      invariant forall k :: k in found <==> k in names - rest
      decreases rest
    {
      var k :| k in rest;
      assert k !in found;
      rest := rest - {k};
      found := found + [k];
    }
    SortStrings(found);
    keys := Sort(found, StrLe);
  }

  // ---------- splitting ----------

  /** `str::split(sep)`: the pieces between separators, at least one. */
  function SplitOn(s: string, sep: char): (pieces: seq<string>)
    ensures pieces != []
  {
    if s == [] then [""]
    else if s[0] == sep then [""] + SplitOn(s[1..], sep)
    else var rest := SplitOn(s[1..], sep); [[s[0]] + rest[0]] + rest[1..]
  }

  function JoinWith(pieces: seq<string>, sep: char): string
    requires pieces != []
  {
    if |pieces| == 1 then pieces[0] else pieces[0] + [sep] + JoinWith(pieces[1..], sep)
  }

  /** Splitting loses nothing, so it is injective. */
  lemma {:induction false} JoinSplit(s: string, sep: char)
    ensures JoinWith(SplitOn(s, sep), sep) == s
  {
    if s != [] {
      JoinSplit(s[1..], sep);
      var rest := SplitOn(s[1..], sep);
      var all := SplitOn(s, sep);
      assert s == [s[0]] + s[1..];
      if s[0] == sep {
        assert all[1..] == rest;
      } else {
        assert all[1..] == rest[1..];
      }
    }
  }

  lemma {:induction false} SplitPiecesFree(s: string, sep: char)
    ensures forall p | p in SplitOn(s, sep) :: sep !in p
  {
    if s != [] {
      SplitPiecesFree(s[1..], sep);
      var rest := SplitOn(s[1..], sep);
      assert rest[0] in rest;
      assert forall p | p in rest[1..] :: p in rest;
    }
  }

  lemma {:induction false} SplitFree(s: string, sep: char)
    requires sep !in s
    ensures SplitOn(s, sep) == [s]
  {
    if s != [] {
      SplitFree(s[1..], sep);
      assert s == [s[0]] + s[1..];
    }
  }

  lemma SplitCons(c: char, s: string, sep: char)
    ensures SplitOn([c] + s, sep)
         == if c == sep then [""] + SplitOn(s, sep) else [[c] + SplitOn(s, sep)[0]] + SplitOn(s, sep)[1..]
  {
    assert ([c] + s)[1..] == s;
  }

  /** Splitting at one separator splits the two sides independently. */
  lemma {:induction false} SplitConcat(a: string, sep: char, b: string)
    ensures SplitOn(a + ([sep] + b), sep) == SplitOn(a, sep) + SplitOn(b, sep)
  {
    if a == [] {
      assert a + ([sep] + b) == [sep] + b;
      SplitCons(sep, b, sep);
    } else {
      SplitConcat(a[1..], sep, b);
      FirstOfConcat(a, [sep] + b);
      FirstOfConcat(SplitOn(a[1..], sep), SplitOn(b, sep));
      ConcatAssociates(SplitOn(a, sep)[..1], SplitOn(a, sep)[1..], SplitOn(b, sep));
    }
  }

  lemma FirstOfConcat<T>(x: seq<T>, y: seq<T>)
    requires x != []
    ensures x + y != [] && (x + y)[0] == x[0] && (x + y)[1..] == x[1..] + y
  {}

  // ---------- replacing ----------

  /** `str::replace` with a one-character pattern. */
  function ReplaceChar(s: string, c: char, to: string): string {
    if s == [] then [] else (if s[0] == c then to else [s[0]]) + ReplaceChar(s[1..], c, to)
  }

  lemma {:induction false} ReplaceConcat(a: string, b: string, c: char, to: string)
    ensures ReplaceChar(a + b, c, to) == ReplaceChar(a, c, to) + ReplaceChar(b, c, to)
  {
    if a == [] {
      assert a + b == b;
    } else {
      FirstOfConcat(a, b);
      ReplaceConcat(a[1..], b, c, to);
      var head := if a[0] == c then to else [a[0]];
      ConcatAssociates(head, ReplaceChar(a[1..], c, to), ReplaceChar(b, c, to));
    }
  }

  lemma ConcatAssociates<T>(x: seq<T>, y: seq<T>, z: seq<T>)
    ensures x + (y + z) == x + y + z
  {}

  lemma {:induction false} ReplaceAbsent(s: string, c: char, to: string)
    requires c !in s
    ensures ReplaceChar(s, c, to) == s
  {
    if s != [] {
      ReplaceAbsent(s[1..], c, to);
      assert s == [s[0]] + s[1..];
    }
  }

  /** `str::replace`: matches from the left, without overlap. */
  function ReplaceAll(s: string, pattern: string, to: string): string
    requires pattern != ""
  {
    if |s| < |pattern| then s
    else if pattern <= s then to + ReplaceAll(s[|pattern|..], pattern, to)
    else [s[0]] + ReplaceAll(s[1..], pattern, to)
  }

  /** The pattern does not begin at any of the first `n` positions. */
  ghost predicate NoMatchBefore(s: string, pattern: string, n: nat)
    requires n <= |s|
  {
    forall i | 0 <= i < n :: !(pattern <= s[i..])
  }

  lemma {:induction false} ReplaceAllNoMatch(s: string, pattern: string, to: string)
    requires pattern != "" && NoMatchBefore(s, pattern, |s|)
    ensures ReplaceAll(s, pattern, to) == s
  {
    if |s| >= |pattern| {
      NoMatchAfterHead(s, pattern, |s|);
      ReplaceAllNoMatch(s[1..], pattern, to);
      assert s == [s[0]] + s[1..];
    }
  }

  lemma ReplaceHere(b: string, pattern: string, to: string)
    requires pattern != ""
    ensures ReplaceAll(pattern + b, pattern, to) == to + ReplaceAll(b, pattern, to)
  {
    assert (pattern + b)[|pattern|..] == b;
  }

  lemma NoMatchAfterHead(s: string, pattern: string, n: nat)
    requires 0 < n <= |s| && NoMatchBefore(s, pattern, n)
    ensures !(pattern <= s) && NoMatchBefore(s[1..], pattern, n - 1)
  {
    assert s[0..] == s;
    forall i | 0 <= i < n - 1 ensures !(pattern <= s[1..][i..]) { assert s[1..][i..] == s[i + 1..]; }
  }

  /** The first match is replaced, and the rest behind it in the same way. */
  lemma {:induction false} ReplaceAllMatch(a: string, b: string, pattern: string, to: string)
    requires pattern != "" && NoMatchBefore(a + (pattern + b), pattern, |a|)
    ensures ReplaceAll(a + (pattern + b), pattern, to) == a + (to + ReplaceAll(b, pattern, to))
  {
    if a == "" {
      assert a + (pattern + b) == pattern + b;
      ReplaceHere(b, pattern, to);
    } else {
      FirstOfConcat(a, pattern + b);
      NoMatchAfterHead(a + (pattern + b), pattern, |a|);
      ReplaceAllMatch(a[1..], b, pattern, to);
      ConcatAssociates([a[0]], a[1..], to + ReplaceAll(b, pattern, to));
      assert [a[0]] + a[1..] == a;
    }
  }
}
