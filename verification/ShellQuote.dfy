/**
 Quoting for `sh -c`, read back by the shell's own rules: token recognition, the backslash and single
 quotes of POSIX.1-2017 XCU sections 2.3, 2.2.1 and 2.2.2. Double quotes, expansions, comments and
 newlines do not occur in the commands; the lexer rejects them, and a string cannot hold NUL.
 */
module ShellQuote {
  import opened Parsing
  import opened Strings
  import opened Wrappers

  function Quote(path: string): string {
    "'" + ReplaceChar(path, '\'', "'\\''") + "'"
  }

  // ---------- the shell's lexer ----------

  /** A redirection is an IO number together with the operator right behind it, as in `2>`. */
  datatype Token = Word(text: string) | Operator(text: string) | Redirection(fd: string, text: string)

  datatype Mode =
    | Between
    | InWord(text: string)
    | InDigits(text: string)              // a word of unquoted digits so far
    | InQuotes(text: string)
    | AfterBackslash(text: string)
    | InOperator(fd: string, text: string)

  datatype Lexer = Lexer(tokens: seq<Token>, mode: Mode) | Failed

  const START := Lexer([], Between)

  predicate OperatorChar(c: char) {
    c == '<' || c == '>' || c == '&' || c == '|' || c == ';' || c == '(' || c == ')'
  }

  /** The operators of more than one character, grown one character at a time. */
  predicate ExtendsOperator(o: string, c: char) {
    || (c == '&' && (o == "&" || o == "<" || o == ">"))
    || (c == '|' && (o == "|" || o == ">"))
    || (c == ';' && o == ";")
    || (c == '<' && o == "<")
    || (c == '>' && (o == "<" || o == ">"))
    || (c == '-' && o == "<<")
  }

  predicate RedirectsFrom(c: char) { c == '<' || c == '>' }

  predicate Blank(c: char) { c == ' ' || c == '\t' }

  /** Characters whose meaning is not modelled: expansions of any kind, double quotes, comments, newline. */
  predicate Foreign(c: char) {
    || c == '\0' || c == '\n' || c == '"' || c == '$' || c == '`' || c == '#'
    || c == '*' || c == '?' || c == '[' || c == '~'
  }

  function Step(l: Lexer, c: char): Lexer {
    if l.Failed? || c == '\0' then Failed
    else match l.mode
      case InQuotes(t) => if c == '\'' then l.(mode := InWord(t)) else l.(mode := InQuotes(t + [c]))
      case AfterBackslash(t) => if c == '\n' then Failed else l.(mode := InWord(t + [c]))
      case InWord(t) => Unquoted(l.tokens, t, l.tokens + [Word(t)], c)
      case InDigits(t) =>
        if IsDigit(c) then l.(mode := InDigits(t + [c]))
        else if RedirectsFrom(c) then l.(mode := InOperator(t, [c]))
        else Unquoted(l.tokens, t, l.tokens + [Word(t)], c)
      case Between => Fresh(l.tokens, c)
      case InOperator(fd, o) =>
        if ExtendsOperator(o, c) then l.(mode := InOperator(fd, o + [c]))
        else Fresh(l.tokens + [OperatorToken(fd, o)], c)
  }

  function OperatorToken(fd: string, o: string): Token { if fd == "" then Operator(o) else Redirection(fd, o) }

  /** An unquoted character where no word or operator has begun. */
  function Fresh(tokens: seq<Token>, c: char): Lexer {
    if IsDigit(c) then Lexer(tokens, InDigits([c])) else Unquoted(tokens, "", tokens, c)
  }

  /** An unquoted character: `open` precedes the word begun as `text`, `closed` ends it. */
  function Unquoted(open: seq<Token>, text: string, closed: seq<Token>, c: char): Lexer {
    if Foreign(c) then Failed
    else if Blank(c) then Lexer(closed, Between)
    else if OperatorChar(c) then Lexer(closed, InOperator("", [c]))
    else if c == '\'' then Lexer(open, InQuotes(text))
    else if c == '\\' then Lexer(open, AfterBackslash(text))
    else Lexer(open, InWord(text + [c]))
  }

  function Run(l: Lexer, s: string): Lexer
    decreases s
  {
    if s == [] then l else Run(Step(l, s[0]), s[1..])
  }

  /** At the end of input an open quote or a trailing backslash is an error. */
  function Finish(l: Lexer): Option<seq<Token>> {
    if l.Failed? then None
    else match l.mode
      case Between => Some(l.tokens)
      case InWord(t) => Some(l.tokens + [Word(t)])
      case InDigits(t) => Some(l.tokens + [Word(t)])
      case InOperator(fd, o) => Some(l.tokens + [OperatorToken(fd, o)])
      case _ => None
  }

  function Tokens(command: string): Option<seq<Token>> { Finish(Run(START, command)) }

  // ---------- reading back ----------

  lemma {:induction false} RunConcat(l: Lexer, a: string, b: string)
    ensures Run(l, a + b) == Run(Run(l, a), b)
    decreases a
  {
    if a == [] {
      assert a + b == b;
    } else {
      assert (a + b)[1..] == a[1..] + b;
      RunConcat(Step(l, a[0]), a[1..], b);
    }
  }

  lemma {:induction false} RunFailed(s: string)
    ensures Run(Failed, s) == Failed
  {
    if s != [] { RunFailed(s[1..]); }
  }

  lemma RunEscapedQuote(tokens: seq<Token>, text: string)
    ensures Run(Lexer(tokens, InQuotes(text)), "'\\''") == Lexer(tokens, InQuotes(text + "'"))
  {
    var l := Lexer(tokens, InQuotes(text));
    RunConcat(l, "'", "\\''");
    RunConcat(Step(l, '\''), "\\", "''");
    RunConcat(Lexer(tokens, AfterBackslash(text)), "'", "'");
    assert "'\\''" == "'" + "\\''" && "\\''" == "\\" + "''" && "''" == "'" + "'";
    RunOne(l, '\'');
    RunOne(Lexer(tokens, InWord(text)), '\\');
    RunOne(Lexer(tokens, AfterBackslash(text)), '\'');
    RunOne(Lexer(tokens, InWord(text + "'")), '\'');
  }

  lemma RunOne(l: Lexer, c: char)
    ensures Run(l, [c]) == Step(l, c)
  {
    assert [c][1..] == [];
  }

  lemma {:induction false} RunInside(tokens: seq<Token>, text: string, path: string)
    ensures Run(Lexer(tokens, InQuotes(text)), ReplaceChar(path, '\'', "'\\''"))
         == if '\0' in path then Failed else Lexer(tokens, InQuotes(text + path))
    decreases path
  {
    var l := Lexer(tokens, InQuotes(text));
    if path == [] {
      assert text + path == text;
    } else {
      var head := if path[0] == '\'' then "'\\''" else [path[0]];
      RunConcat(l, head, ReplaceChar(path[1..], '\'', "'\\''"));
      if path[0] == '\'' { RunEscapedQuote(tokens, text); } else { RunOne(l, path[0]); }
      RunFailed(ReplaceChar(path[1..], '\'', "'\\''"));
      if path[0] != '\0' { RunInside(tokens, text + [path[0]], path[1..]); }
      assert text + [path[0]] + path[1..] == text + path;
      assert path == [path[0]] + path[1..];
    }
  }

  /** What is already part of the current word, if the lexer may start or continue a word here. */
  function Pending(l: Lexer): Option<(seq<Token>, string)> {
    if l.Failed? then None
    else match l.mode
      case Between => Some((l.tokens, ""))
      case InWord(t) => Some((l.tokens, t))
      case InDigits(t) => Some((l.tokens, t))
      case InOperator(fd, o) => Some((l.tokens + [OperatorToken(fd, o)], ""))
      case _ => None
  }

  lemma StepQuote(l: Lexer)
    requires Pending(l).Some?
    ensures Step(l, '\'') == Lexer(Pending(l).value.0, InQuotes(Pending(l).value.1))
  {}

  /** A quoted path continues the current word by exactly itself, whatever it contains. */
  lemma RunQuote(l: Lexer, path: string)
    requires Pending(l).Some? && '\0' !in path
    ensures Run(l, Quote(path)) == Lexer(Pending(l).value.0, InWord(Pending(l).value.1 + path))
  {
    var (tokens, text) := Pending(l).value;
    var body := ReplaceChar(path, '\'', "'\\''");
    assert Quote(path) == "'" + (body + "'");
    RunConcat(l, "'", body + "'");
    RunOne(l, '\'');
    StepQuote(l);
    var l' := Lexer(tokens, InQuotes(text));
    RunConcat(l', body, "'");
    RunInside(tokens, text, path);
    RunOne(Lexer(tokens, InQuotes(text + path)), '\'');
  }

  /** A quoted string is one word and the word is the string, if and only if it has no NUL. */
  lemma QuoteIsOneWordIff(path: string)
    ensures Tokens(Quote(path)) == Some([Word(path)]) <==> '\0' !in path
  {
    if '\0' in path {
      var body := ReplaceChar(path, '\'', "'\\''");
      assert Quote(path) == "'" + (body + "'");
      RunConcat(START, "'", body + "'");
      RunOne(START, '\'');
      RunConcat(Lexer([], InQuotes("")), body, "'");
      RunInside([], "", path);
      RunFailed("'");
    } else {
      RunQuote(START, path);
      assert "" + path == path && [] + [Word(path)] == [Word(path)];
    }
  }

  // ---------- commands ----------

  /** What a command is built from; a literal stands in single quotes as it is. */
  datatype Piece =
    | Bare(word: string)
    | Literal(word: string)
    | Quoted(text: string)
    | Control(op: string)
    | Redirect(fd: string, op: string)

  function Render(p: Piece): string {
    match p
    case Bare(word) => word
    case Literal(word) => "'" + word + "'"
    case Quoted(text) => Quote(text)
    case Control(op) => op
    case Redirect(fd, op) => fd + op
  }

  /** The token that a piece is meant to be. */
  function Meaning(p: Piece): Token {
    match p
    case Bare(word) => Word(word)
    case Literal(word) => Word(word)
    case Quoted(text) => Word(text)
    case Control(op) => Operator(op)
    case Redirect(fd, op) => Redirection(fd, op)
  }

  predicate PlainChar(c: char) {
    !Foreign(c) && !Blank(c) && !OperatorChar(c) && c != '\'' && c != '\\'
  }

  predicate PlainWord(w: string) {
    w != "" && forall c | c in w :: PlainChar(c)
  }

  predicate IsOperator(o: string) {
    o != "" && OperatorChar(o[0]) && forall i | 1 <= i < |o| :: ExtendsOperator(o[..i], o[i])
  }

  predicate ValidPiece(p: Piece) {
    match p
    case Bare(word) => PlainWord(word)
    case Literal(word) => '\'' !in word && '\0' !in word
    case Quoted(text) => '\0' !in text
    case Control(op) => IsOperator(op)
    case Redirect(fd, op) => fd != "" && AllDigits(fd) && IsOperator(op) && RedirectsFrom(op[0])
  }

  /** This piece may follow the operator without a blank between them. */
  predicate MayFollow(o: string, q: Piece) {
    match q
    case Bare(word) => word != "" ==> !ExtendsOperator(o, word[0])
    case Control(op) => op != "" ==> !ExtendsOperator(o, op[0])
    case _ => true
  }

  /** `q` may follow `p` without a blank between them. */
  predicate Separate(p: Piece, q: Piece) {
    if p.Control? || p.Redirect? then MayFollow(p.op, q)
    else q.Control? && (p.Bare? && AllDigits(p.word) && q.op != "" ==> !RedirectsFrom(q.op[0]))
  }

  /** A piece, and whether a blank follows it. */
  datatype Item = Item(piece: Piece, blank: bool)

  function Spell(i: Item): string { Render(i.piece) + (if i.blank then " " else "") }

  function Text(items: seq<Item>): string {
    if items == [] then "" else Spell(items[0]) + Text(items[1..])
  }

  function Meanings(items: seq<Item>): seq<Token> {
    seq(|items|, i requires 0 <= i < |items| => Meaning(items[i].piece))
  }

  predicate Valid(items: seq<Item>) {
    && (forall i | 0 <= i < |items| :: ValidPiece(items[i].piece))
    && (forall i | 0 < i < |items| :: items[i - 1].blank || Separate(items[i - 1].piece, items[i].piece))
  }

  /** A piece may start here: it neither continues a word nor extends an operator. */
  predicate Ready(l: Lexer, p: Piece) {
    l.Lexer? &&
    match l.mode
    case Between => true
    case InWord(_) => p.Control?
    case InDigits(_) => p.Control? && (p.op != "" ==> !RedirectsFrom(p.op[0]))
    case InOperator(_, o) => MayFollow(o, p)
    case _ => false
  }

  /** The lexer has just read this piece; closing it gives these tokens. */
  ghost predicate HasRead(l: Lexer, p: Piece, tokens: seq<Token>) {
    && l.Lexer? && Finish(l) == Some(tokens)
    && match p
       case Control(op) => l.mode == InOperator("", op)
       case Redirect(fd, op) => l.mode == InOperator(fd, op)
       case Bare(word) => l.mode == WordMode(word, AllDigits(word))
       case _ => l.mode.InWord?
  }

  function WordMode(text: string, digits: bool): Mode { if digits then InDigits(text) else InWord(text) }

  lemma PlainTail(w: string)
    requires PlainWord(w)
    ensures PlainChar(w[0]) && (w[1..] == "" || PlainWord(w[1..]))
    ensures AllDigits(w) <==> IsDigit(w[0]) && AllDigits(w[1..])
  {
    assert w == [w[0]] + w[1..];
    assert w[0] in w && forall c | c in w[1..] :: c in w;
  }

  lemma {:induction false} RunWord(tokens: seq<Token>, text: string, digits: bool, w: string)
    requires w == "" || PlainWord(w)
    ensures Run(Lexer(tokens, WordMode(text, digits)), w) == Lexer(tokens, WordMode(text + w, digits && AllDigits(w)))
    decreases w
  {
    if w == "" {
      assert text + w == text;
    } else {
      PlainTail(w);
      RunWord(tokens, text + [w[0]], digits && IsDigit(w[0]), w[1..]);
      assert text + [w[0]] + w[1..] == text + w;
    }
  }

  lemma StepPlain(l: Lexer, c: char)
    requires l.Lexer? && (l.mode.Between? || l.mode.InOperator?) && PlainChar(c)
    requires l.mode.InOperator? ==> !ExtendsOperator(l.mode.text, c)
    ensures Step(l, c) == Lexer(Finish(l).value, WordMode([c], IsDigit(c)))
  {
    assert "" + [c] == [c];
  }

  lemma RunBare(l: Lexer, w: string)
    requires PlainWord(w) && Ready(l, Bare(w))
    ensures Run(l, w) == Lexer(Finish(l).value, WordMode(w, AllDigits(w)))
  {
    PlainTail(w);
    StepPlain(l, w[0]);
    RunWord(Finish(l).value, [w[0]], IsDigit(w[0]), w[1..]);
    assert [w[0]] + w[1..] == w;
  }

  lemma {:induction false} RunRestOfOperator(tokens: seq<Token>, fd: string, o: string, i: nat)
    requires IsOperator(o) && 1 <= i <= |o|
    ensures Run(Lexer(tokens, InOperator(fd, o[..i])), o[i..]) == Lexer(tokens, InOperator(fd, o))
    decreases |o| - i
  {
    if i == |o| {
      assert o[..i] == o && o[i..] == "";
    } else {
      assert o[..i] + [o[i]] == o[..i + 1] && o[i..][1..] == o[i + 1..];
      assert o[i] != '\0';
      RunRestOfOperator(tokens, fd, o, i + 1);
    }
  }

  /** An operator ends the word or the operator before it. */
  lemma RunOperator(l: Lexer, o: string)
    requires IsOperator(o) && Ready(l, Control(o))
    ensures Run(l, o) == Lexer(Finish(l).value, InOperator("", o))
  {
    assert o[..1] == [o[0]];
    assert Step(l, o[0]) == Lexer(Finish(l).value, InOperator("", [o[0]]));
    RunRestOfOperator(Finish(l).value, "", o, 1);
  }

  lemma DigitsArePlain(fd: string)
    requires fd != "" && AllDigits(fd)
    ensures PlainWord(fd) && forall o :: !ExtendsOperator(o, fd[0])
  {
    assert fd[0] in fd;
  }

  /** Right behind a number, a redirection takes the number along. */
  lemma RunRedirect(l: Lexer, fd: string, o: string)
    requires ValidPiece(Redirect(fd, o)) && Ready(l, Redirect(fd, o)) && !l.mode.InWord? && !l.mode.InDigits?
    ensures Run(l, fd + o) == Lexer(Finish(l).value, InOperator(fd, o))
  {
    DigitsArePlain(fd);
    RunConcat(l, fd, o);
    RunBare(l, fd);
    assert o[..1] == [o[0]];
    assert Step(Lexer(Finish(l).value, InDigits(fd)), o[0]) == Lexer(Finish(l).value, InOperator(fd, [o[0]]));
    RunRestOfOperator(Finish(l).value, fd, o, 1);
  }

  lemma RunPiece(l: Lexer, p: Piece)
    requires ValidPiece(p) && Ready(l, p)
    ensures HasRead(Run(l, Render(p)), p, Finish(l).value + [Meaning(p)])
  {
    match p {
      case Bare(word) => RunBare(l, word);
      case Literal(word) =>
        ReplaceAbsent(word, '\'', "'\\''");
        RunQuote(l, word);
        assert "" + word == word;
      case Quoted(text) =>
        RunQuote(l, text);
        assert "" + text == text;
      case Control(op) => RunOperator(l, op);
      case Redirect(fd, op) => RunRedirect(l, fd, op);
    }
  }

  lemma RunItem(l: Lexer, i: Item)
    requires ValidPiece(i.piece) && Ready(l, i.piece)
    ensures var r := Run(l, Spell(i));
            && r.Lexer? && Finish(r) == Some(Finish(l).value + [Meaning(i.piece)])
            && forall q: Piece :: i.blank || Separate(i.piece, q) ==> Ready(r, q)
  {
    RunPiece(l, i.piece);
    var r := Run(l, Render(i.piece));
    if i.blank {
      RunConcat(l, Render(i.piece), " ");
      RunOne(r, ' ');
    } else {
      assert Render(i.piece) + "" == Render(i.piece);
    }
  }

  lemma ValidTail(items: seq<Item>)
    requires Valid(items) && items != []
    ensures ValidPiece(items[0].piece) && Valid(items[1..])
    ensures |items| > 1 ==> items[0].blank || Separate(items[0].piece, items[1].piece)
  {}

  lemma MeaningsCons(tokens: seq<Token>, items: seq<Item>)
    requires items != []
    ensures tokens + [Meaning(items[0].piece)] + Meanings(items[1..]) == tokens + Meanings(items)
  {}

  lemma {:induction false} RunItems(l: Lexer, items: seq<Item>)
    requires Valid(items) && l.Lexer? && Finish(l).Some? && (items != [] ==> Ready(l, items[0].piece))
    ensures Finish(Run(l, Text(items))) == Some(Finish(l).value + Meanings(items))
    decreases items
  {
    if items == [] {
      assert Finish(l).value + Meanings(items) == Finish(l).value;
    } else {
      var first, rest := items[0], items[1..];
      ValidTail(items);
      RunItem(l, first);
      RunConcat(l, Spell(first), Text(rest));
      RunItems(Run(l, Spell(first)), rest);
      MeaningsCons(Finish(l).value, items);
    }
  }

  /** A command reads as the tokens that its pieces mean, whatever is quoted. */
  lemma CommandTokens(items: seq<Item>)
    requires Valid(items)
    ensures Tokens(Text(items)) == Some(Meanings(items))
  {
    RunItems(START, items);
    assert [] + Meanings(items) == Meanings(items);
  }
}
