/** The check of configured Cache-Control values (directives of RFC 9111 section 5.2.2). */
module CacheControl {
  import opened Parsing
  import opened Strings
  import opened Wrappers

  /** The characters that `str::trim` removes: Unicode White_Space. */
  predicate IsSpace(c: char) {
    || '\t' <= c <= '\r' || c == ' ' || c == '\U{85}' || c == '\U{A0}' || c == '\U{1680}'
    || '\U{2000}' <= c <= '\U{200A}' || c == '\U{2028}' || c == '\U{2029}' || c == '\U{202F}'
    || c == '\U{205F}' || c == '\U{3000}'
  }

  function TrimStart(s: string): string {
    if s != "" && IsSpace(s[0]) then TrimStart(s[1..]) else s
  }

  function TrimEnd(s: string): string {
    if s != "" && IsSpace(s[|s| - 1]) then TrimEnd(s[..|s| - 1]) else s
  }

  function Trim(s: string): string { TrimEnd(TrimStart(s)) }

  const PLAIN: set<string> := {
    "public", "private", "no-cache", "no-store", "no-transform", "must-revalidate", "proxy-revalidate"}

  function StripPrefix(s: string, prefix: string): Option<string> {
    if prefix <= s then Some(s[|prefix|..]) else None
  }

  /** One directive, in the order of the checks. */
  predicate AcceptsDirective(d: string) {
    if d in PLAIN then true
    else if StripPrefix(d, "max-age=").Some? then
      ParseUnsigned(StripPrefix(d, "max-age=").value, U64_MAX).Some?
    else if StripPrefix(d, "s-maxage=").Some? then
      ParseUnsigned(StripPrefix(d, "s-maxage=").value, U64_MAX).Some?
    else false
  }

  predicate AcceptsAll(directives: seq<string>) {
    if directives == [] then true
    else if AcceptsDirective(Trim(directives[0])) then AcceptsAll(directives[1..])
    else false
  }

  predicate IsValidCacheControl(value: string) {
    if Trim(value) == "" then false else AcceptsAll(SplitOn(value, ','))
  }

  /** One of the nine directive forms, with any number of at most 64 bits. */
  ghost predicate Directive(d: string) {
    || d == "public" || d == "private" || d == "no-cache" || d == "no-store" || d == "no-transform"
    || d == "must-revalidate" || d == "proxy-revalidate"
    || (exists s, n :: InRange(s, n) && d == "max-age=" + s)
    || (exists s, n :: InRange(s, n) && d == "s-maxage=" + s)
  }

  ghost predicate InRange(s: string, n: nat) { Writes(s, n) && n <= 18446744073709551615 }

  lemma ParsesIff(s: string)
    ensures ParseUnsigned(s, U64_MAX).Some? <==> exists n: nat :: InRange(s, n)
  {
    forall n: nat ensures ParseUnsigned(s, U64_MAX) == Some(n) <==> InRange(s, n) { ParseGivesIff(s, U64_MAX, n); }
  }

  /** The white space characters, by their code points. */
  lemma SpacesAre(c: char)
    ensures IsSpace(c) <==>
            || 9 <= c as int <= 13 || c as int == 32 || c as int == 133 || c as int == 160 || c as int == 5760
            || 8192 <= c as int <= 8202 || c as int == 8232 || c as int == 8233 || c as int == 8239
            || c as int == 8287 || c as int == 12288
  {}

  predicate AllSpace(s: string) { forall c | c in s :: IsSpace(c) }

  lemma {:induction false} TrimStartCore(s: string) returns (i: nat)
    ensures i <= |s| && TrimStart(s) == s[i..] && AllSpace(s[..i])
    ensures TrimStart(s) == "" || !IsSpace(TrimStart(s)[0])
  {
    i := 0;
    if s != "" && IsSpace(s[0]) {
      i := TrimStartCore(s[1..]);
      assert s[..i + 1] == [s[0]] + s[1..][..i];
      i := i + 1;
    }
  }

  lemma {:induction false} TrimEndCore(s: string) returns (j: nat)
    ensures j <= |s| && TrimEnd(s) == s[..j] && AllSpace(s[j..])
    ensures TrimEnd(s) == "" || !IsSpace(TrimEnd(s)[|TrimEnd(s)| - 1])
  {
    j := |s|;
    if s != "" && IsSpace(s[|s| - 1]) {
      j := TrimEndCore(s[..|s| - 1]);
      assert s[j..] == s[..|s| - 1][j..] + [s[|s| - 1]];
    }
  }

  /** `trim` removes white space only, from both ends, and as much as there is. */
  lemma TrimIsCore(s: string) returns (i: nat, j: nat)
    ensures i <= j <= |s| && Trim(s) == s[i..j] && AllSpace(s[..i]) && AllSpace(s[j..])
    ensures Trim(s) == "" || (!IsSpace(Trim(s)[0]) && !IsSpace(Trim(s)[|Trim(s)| - 1]))
  {
    i := TrimStartCore(s);
    var t := TrimStart(s);
    var e := TrimEndCore(t);
    j := i + e;
    assert s[j..] == t[e..] && s[i..j] == t[..e];
  }

  lemma AcceptsDirectiveIff(d: string)
    ensures AcceptsDirective(d) <==> Directive(d)
  {
    if "max-age=" <= d {
      ParsesIff(d[8..]);
      assert d == "max-age=" + d[8..];
    }
    if "s-maxage=" <= d {
      ParsesIff(d[9..]);
      assert d == "s-maxage=" + d[9..];
    }
    forall n | d == "max-age=" + n ensures n == d[8..] && d[0] == 'm' {}
    forall n | d == "s-maxage=" + n ensures n == d[9..] && d[0] == 's' {}
  }

  lemma {:induction false} AcceptsAllIff(directives: seq<string>)
    ensures AcceptsAll(directives) <==> forall p | p in directives :: AcceptsDirective(Trim(p))
  {
    if directives != [] {
      AcceptsAllIff(directives[1..]);
      assert directives == [directives[0]] + directives[1..];
    }
  }

  lemma BlankIsSpace(value: string)
    requires Trim(value) == ""
    ensures AllSpace(value)
  {
    var i, j := TrimIsCore(value);
    assert value == value[..i] + value[j..];
  }

  lemma EmptyIsNoDirective()
    ensures !AcceptsDirective("")
  {}

  /** The initial test for a blank value is implied by the checks of the pieces. */
  lemma BlankIsRejected(value: string)
    requires Trim(value) == ""
    ensures SplitOn(value, ',') == [value] && !AcceptsDirective(Trim(value))
  {
    BlankIsSpace(value);
    assert ',' !in value;
    SplitFree(value, ',');
    EmptyIsNoDirective();
  }

  /** Accepted are exactly the lists of directives, separated by commas and surrounded by white space. */
  lemma IsValidIff(value: string)
    ensures IsValidCacheControl(value) <==> forall p | p in SplitOn(value, ',') :: Directive(Trim(p))
  {
    AcceptsAllIff(SplitOn(value, ','));
    forall p ensures AcceptsDirective(Trim(p)) <==> Directive(Trim(p)) { AcceptsDirectiveIff(Trim(p)); }
    if Trim(value) == "" {
      BlankIsRejected(value);
      assert value in SplitOn(value, ',');
    }
  }

  /** A comma joins two values to a valid one exactly if both are valid. */
  lemma ValidJoinIff(a: string, b: string)
    ensures IsValidCacheControl(a + "," + b) <==> IsValidCacheControl(a) && IsValidCacheControl(b)
  {
    SplitConcat(a, ',', b);
    assert a + "," + b == a + ("," + b);
    IsValidIff(a + "," + b);
    IsValidIff(a);
    IsValidIff(b);
    assert forall p | p in SplitOn(a, ',') :: p in SplitOn(a + "," + b, ',');
    assert forall p | p in SplitOn(b, ',') :: p in SplitOn(a + "," + b, ',');
  }
}
