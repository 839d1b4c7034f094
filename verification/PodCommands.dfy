/** Three of the commands that the Kubernetes backend sends to a pod, and how the pod's shell reads them. */
module PodCommands {
  import opened ShellQuote
  import opened Wrappers

  function W(word: string): Item { Item(Bare(word), true) }

  function L(word: string): Item { Item(Literal(word), true) }

  function O(op: string): Item { Item(Control(op), true) }

  function R(fd: string, op: string): Item { Item(Redirect(fd, op), true) }

  function Q(path: string): Item { Item(Quoted(path), true) }

  /** The item with no blank behind it. */
  function Tight(i: Item): Item { i.(blank := false) }

  // Each command is given by its pieces; the source's format string stands above it.

  /** `if sudo test -L {}; then echo 'SYMLINK'; fi` */
  function SymlinkCommand(path: string): seq<Item> {
    [W("if"), W("sudo"), W("test"), W("-L"), Tight(Q(path)), O(";"),
     W("then"), W("echo"), Tight(L("SYMLINK")), O(";"), Tight(W("fi"))]
  }

  /** `sudo wc -c < {} 2>/dev/null || echo '0'` */
  function SizeCommand(path: string): seq<Item> {
    [W("sudo"), W("wc"), W("-c"), O("<"), Q(path), Tight(R("2", ">")), W("/dev/null"),
     O("||"), W("echo"), Tight(L("0"))]
  }

  /** `sudo test -f {} && sudo rm -f {} && echo 'deleted' || echo 'notfound'` */
  function DeleteCommand(path: string): seq<Item> {
    [W("sudo"), W("test"), W("-f"), Q(path), O("&&"), W("sudo"), W("rm"), W("-f"), Q(path),
     O("&&"), W("echo"), L("deleted"), O("||"), W("echo"), Tight(L("notfound"))]
  }

  lemma CommonWords()
    ensures PlainWord("sudo") && PlainWord("test") && PlainWord("echo")
  {}

  lemma SymlinkWords()
    ensures PlainWord("if") && PlainWord("-L") && PlainWord("then") && PlainWord("fi")
  {}

  lemma SizeWords()
    ensures PlainWord("wc") && PlainWord("-c") && PlainWord("/dev/null")
  {}

  lemma DeleteWords()
    ensures PlainWord("-f") && PlainWord("rm")
  {}

  lemma OperatorsUsed()
    ensures IsOperator("<") && IsOperator(">") && IsOperator(";") && IsOperator("||") && IsOperator("&&")
  {
    assert "||"[..1] == "|" && "&&"[..1] == "&";
  }

  lemma SymlinkCommandMeans(path: string)
    ensures Meanings(SymlinkCommand(path)) ==
      [Word("if"), Word("sudo"), Word("test"), Word("-L"), Word(path), Operator(";"),
       Word("then"), Word("echo"), Word("SYMLINK"), Operator(";"), Word("fi")]
  {}

  lemma SymlinkCommandTokens(path: string)
    requires '\0' !in path
    ensures Tokens(Text(SymlinkCommand(path))) == Some(
      [Word("if"), Word("sudo"), Word("test"), Word("-L"), Word(path), Operator(";"),
       Word("then"), Word("echo"), Word("SYMLINK"), Operator(";"), Word("fi")])
  {
    CommonWords();
    SymlinkWords();
    OperatorsUsed();
    SymlinkCommandMeans(path);
    CommandTokens(SymlinkCommand(path));
  }

  lemma SizeCommandMeans(path: string)
    ensures Meanings(SizeCommand(path)) ==
      [Word("sudo"), Word("wc"), Word("-c"), Operator("<"), Word(path),
       Redirection("2", ">"), Word("/dev/null"), Operator("||"), Word("echo"), Word("0")]
  {}

  lemma SizeCommandTokens(path: string)
    requires '\0' !in path
    ensures Tokens(Text(SizeCommand(path))) == Some(
      [Word("sudo"), Word("wc"), Word("-c"), Operator("<"), Word(path),
       Redirection("2", ">"), Word("/dev/null"), Operator("||"), Word("echo"), Word("0")])
  {
    CommonWords();
    SizeWords();
    OperatorsUsed();
    SizeCommandMeans(path);
    CommandTokens(SizeCommand(path));
  }

  lemma DeleteCommandMeans(path: string)
    ensures Meanings(DeleteCommand(path)) ==
      [Word("sudo"), Word("test"), Word("-f"), Word(path),
       Operator("&&"), Word("sudo"), Word("rm"), Word("-f"), Word(path),
       Operator("&&"), Word("echo"), Word("deleted"), Operator("||"), Word("echo"), Word("notfound")]
  {}

  lemma DeleteCommandTokens(path: string)
    requires '\0' !in path
    ensures Tokens(Text(DeleteCommand(path))) == Some(
      [Word("sudo"), Word("test"), Word("-f"), Word(path),
       Operator("&&"), Word("sudo"), Word("rm"), Word("-f"), Word(path),
       Operator("&&"), Word("echo"), Word("deleted"), Operator("||"), Word("echo"), Word("notfound")])
  {
    CommonWords();
    DeleteWords();
    OperatorsUsed();
    DeleteCommandMeans(path);
    CommandTokens(DeleteCommand(path));
  }
}
