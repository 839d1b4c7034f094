/** The HTML escaping of error pages: five ordered replacements over the whole string. */
module HtmlEscape {
  import opened Strings
  import opened Wrappers

  function EscapeHtml(s: string): string {
    ReplaceChar(ReplaceChar(ReplaceChar(ReplaceChar(ReplaceChar(
      s, '&', "&amp;"), '<', "&lt;"), '>', "&gt;"), '"', "&quot;"), '\'', "&#x27;")
  }

  /** The five special characters and their references. */
  const SPECIALS: map<char, string> := map[
    '&' := "&amp;", '<' := "&lt;", '>' := "&gt;", '"' := "&quot;", '\'' := "&#x27;"]

  function Reference(c: char): string {
    if c in SPECIALS then SPECIALS[c] else [c]
  }

  function Encode(s: string): string {
    if s == [] then [] else Reference(s[0]) + Encode(s[1..])
  }

  /** Reads text in which the specials occur only as references; anything else is rejected. */
  function Decode(t: string): Option<string> {
    if t == [] then Some([])
    else if t[0] == '&' then
      if "&amp;" <= t then Prepend('&', Decode(t[5..]))
      else if "&lt;" <= t then Prepend('<', Decode(t[4..]))
      else if "&gt;" <= t then Prepend('>', Decode(t[4..]))
      else if "&quot;" <= t then Prepend('"', Decode(t[6..]))
      else if "&#x27;" <= t then Prepend('\'', Decode(t[6..]))
      else None
    else if t[0] in SPECIALS then None
    else Prepend(t[0], Decode(t[1..]))
  }

  function Prepend(c: char, rest: Option<string>): Option<string> {
    match rest case None => None case Some(s) => Some([c] + s)
  }

  lemma EscapeConcat(a: string, b: string)
    ensures EscapeHtml(a + b) == EscapeHtml(a) + EscapeHtml(b)
  {
    ReplaceConcat(a, b, '&', "&amp;");
    var a1, b1 := ReplaceChar(a, '&', "&amp;"), ReplaceChar(b, '&', "&amp;");
    ReplaceConcat(a1, b1, '<', "&lt;");
    var a2, b2 := ReplaceChar(a1, '<', "&lt;"), ReplaceChar(b1, '<', "&lt;");
    ReplaceConcat(a2, b2, '>', "&gt;");
    var a3, b3 := ReplaceChar(a2, '>', "&gt;"), ReplaceChar(b2, '>', "&gt;");
    ReplaceConcat(a3, b3, '"', "&quot;");
    ReplaceConcat(ReplaceChar(a3, '"', "&quot;"), ReplaceChar(b3, '"', "&quot;"), '\'', "&#x27;");
  }

  lemma ReplaceOne(c: char, d: char, to: string)
    ensures ReplaceChar([c], d, to) == if c == d then to else [c]
  {
    assert [c][1..] == [];
    assert to + [] == to;
  }

  /** The later replacements leave an earlier reference alone. */
  lemma Untouched(r: string)
    requires forall c | c in {'<', '>', '"', '\''} :: c !in r
    ensures ReplaceChar(r, '<', "&lt;") == r && ReplaceChar(r, '>', "&gt;") == r
    ensures ReplaceChar(r, '"', "&quot;") == r && ReplaceChar(r, '\'', "&#x27;") == r
  {
    ReplaceAbsent(r, '<', "&lt;");
    ReplaceAbsent(r, '>', "&gt;");
    ReplaceAbsent(r, '"', "&quot;");
    ReplaceAbsent(r, '\'', "&#x27;");
  }

  lemma EscapeOne(c: char)
    ensures EscapeHtml([c]) == Reference(c)
  {
    ReplaceOne(c, '&', "&amp;");
    if c in SPECIALS { Untouched(SPECIALS[c]); }
    ReplaceOne(c, '<', "&lt;");
    ReplaceOne(c, '>', "&gt;");
    ReplaceOne(c, '"', "&quot;");
    ReplaceOne(c, '\'', "&#x27;");
  }

  /** The five references, as the five passes write them; any other character stays. */
  lemma References(c: char)
    ensures EscapeHtml([c]) ==
      if c == '&' then "&amp;" else if c == '<' then "&lt;" else if c == '>' then "&gt;"
      else if c == '"' then "&quot;" else if c == '\'' then "&#x27;" else [c]
  {
    EscapeOne(c);
  }

  /** The five passes are one per-character encoding. */
  lemma {:induction false} EscapeIsEncode(s: string)
    ensures EscapeHtml(s) == Encode(s)
  {
    if s != [] {
      assert s == [s[0]] + s[1..];
      EscapeConcat([s[0]], s[1..]);
      EscapeOne(s[0]);
      EscapeIsEncode(s[1..]);
    }
  }

  lemma DecodeReference(c: char, rest: string)
    ensures Decode(Reference(c) + rest) == Prepend(c, Decode(rest))
  {
    var t := Reference(c) + rest;
    assert t[|Reference(c)|..] == rest;
    assert t[..|Reference(c)|] == Reference(c);
    if c in SPECIALS {
      assert t[1] == Reference(c)[1] && t[2] == Reference(c)[2] && t[3] == Reference(c)[3];
    }
  }

  /** Decoding undoes escaping, so escaping is injective. */
  lemma {:induction false} DecodeEscape(s: string)
    ensures Decode(EscapeHtml(s)) == Some(s)
  {
    EscapeIsEncode(s);
    if s != [] {
      EscapeIsEncode(s[1..]);
      DecodeEscape(s[1..]);
      DecodeReference(s[0], Encode(s[1..]));
      assert s == [s[0]] + s[1..];
    }
  }

  /** A readable text starts with the reference of the first character that it stands for. */
  lemma DecodeHead(t: string)
    requires t != "" && Decode(t).Some?
    ensures var s := Decode(t).value;
            s != "" && Reference(s[0]) <= t && Decode(t[|Reference(s[0])|..]) == Some(s[1..])
  {}

  /** Escaping reaches every readable text: it undoes decoding. */
  lemma {:induction false} EscapeDecode(t: string)
    requires Decode(t).Some?
    ensures EscapeHtml(Decode(t).value) == t
    decreases |t|
  {
    var s := Decode(t).value;
    EscapeIsEncode(s);
    if t != [] {
      DecodeHead(t);
      var rest := t[|Reference(s[0])|..];
      EscapeDecode(rest);
      EscapeIsEncode(s[1..]);
      assert t == Reference(s[0]) + rest;
    }
  }

  /** At this position there is an ordinary character or the start of a reference. */
  ghost predicate CleanAt(t: string, i: int)
    requires 0 <= i < |t|
  {
    t[i] in SPECIALS ==> t[i] == '&' && exists c :: c in SPECIALS && SPECIALS[c] <= t[i..]
  }

  /** The output has no raw special character, and every ampersand in it starts a reference. */
  lemma {:induction false} EscapedIsClean(s: string)
    ensures forall i | 0 <= i < |EscapeHtml(s)| :: CleanAt(EscapeHtml(s), i)
  {
    EscapeIsEncode(s);
    if s != [] {
      EscapeIsEncode(s[1..]);
      EscapedIsClean(s[1..]);
      var r, rest, t := Reference(s[0]), Encode(s[1..]), Encode(s);
      ReferenceIsClean(s[0]);
      forall i | 0 <= i < |t| ensures CleanAt(t, i) {
        if i < |r| {
          assert CleanAt(r, i) && t[i] == r[i] && (r <= t[0..]);
        } else {
          assert CleanAt(rest, i - |r|) && t[i..] == rest[i - |r|..];
        }
      }
    }
  }

  lemma ReferenceIsClean(c: char)
    ensures forall i | 0 <= i < |Reference(c)| :: CleanAt(Reference(c), i) && (Reference(c)[i] == '&' ==> i == 0)
  {}
}
