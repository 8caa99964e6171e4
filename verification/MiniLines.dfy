/** What particular lines of minishell mean: pipelines, lists and redirections, from the text to the tree. */
module MiniLines {
  import opened CStrings
  import opened G = MiniGrammar
  import opened T = MiniTokens
  import opened N = MiniNumbers
  import opened MiniRoundTrip

  /** A quoted word as an item, and as an argument. */
  function Quoted(w: string): Item { G.Word(Letters(w)) }

  function Alone(w: string): Arguments { Arguments(Str(Letters(w)), None) }

  lemma QuotedItem(w: string)
    requires Writable(w)
    ensures Printable(Quoted(w)) && Written(Quoted(w)) == Backslashed(w) && TextRun(Letters(w))
  {
    LettersPieces(w);
    LettersText(w);
  }

  /** The line of a tree. */
  lemma LineIs(t: Sequential, s: string)
    requires SequentialFormed(t) && (forall i <- SequentialYield(t) :: Printable(i))
    requires PrintLine(SequentialYield(t)) == s
    ensures Line(s) && ParseCommandLine(Tokens(s, false)) == Some(t)
  {
    hide SequentialFormed, SequentialYield, Printable, PrintLine, Tokens, ParseCommandLine, Line;
    PrintedTree(t);
  }

  lemma Spell(i: Item, items: seq<Item>, s: string)
    requires PrintLine(items) == s
    ensures PrintLine([i] + items) == " " + Written(i) + s
  {
    assert ([i] + items)[1..] == items;
  }

  lemma Operators()
    ensures Written(Op(Pipe, 0)) == "|" && Written(Op(Semicolon, 0)) == ";"
    ensures Printable(Op(Pipe, 0)) && Printable(Op(Semicolon, 0))
  {
    assert "" + "|" == "|" && "" + ";" == ";";
  }

  /** One word, and what follows it. */
  function Behind(w: string, rest: string): string { " " + Backslashed(w) + rest }

  /** u | v ; w is a list of a pipeline and a command. */
  lemma PipeThenList(u: string, v: string, w: string)
    requires Writable(u) && Writable(v) && Writable(w)
    ensures var s := Behind(u, " |" + Behind(v, " ;" + Behind(w, "\n")));
            Line(s) && ParseCommandLine(Tokens(s, false)) ==
              Some(Sequential(Piped(Alone(u), Some(Piped(Alone(v), None))), true,
                  Some(Sequential(Piped(Alone(w), None), false, None))))
  {
    hide Tokens, Line, Printable, Written, ParseCommandLine, PrintLine, Letters, Backslashed;
    var items := [Quoted(u)] + ([Op(Pipe, 0)] + ([Quoted(v)] + ([Op(Semicolon, 0)] + ([Quoted(w)] + []))));
    QuotedItem(u);
    QuotedItem(v);
    QuotedItem(w);
    Operators();
    NoItems();
    Spell(Quoted(w), [], "\n");
    Spell(Op(Semicolon, 0), [Quoted(w)] + [], Behind(w, "\n"));
    Spell(Quoted(v), [Op(Semicolon, 0)] + ([Quoted(w)] + []), " ;" + Behind(w, "\n"));
    Spell(Op(Pipe, 0), [Quoted(v)] + ([Op(Semicolon, 0)] + ([Quoted(w)] + [])), Behind(v, " ;" + Behind(w, "\n")));
    var s := Behind(u, " |" + Behind(v, " ;" + Behind(w, "\n")));
    Spell(Quoted(u), [Op(Pipe, 0)] + ([Quoted(v)] + ([Op(Semicolon, 0)] + ([Quoted(w)] + []))),
      " |" + Behind(v, " ;" + Behind(w, "\n")));
    var t := Sequential(Piped(Alone(u), Some(Piped(Alone(v), None))), true,
      Some(Sequential(Piped(Alone(w), None), false, None)));
    PipeListTree(u, v, w, t);
    LineIs(t, s);
  }

  lemma NoItems()
    ensures PrintLine([]) == "\n"
  {
  }

  lemma PipeListTree(u: string, v: string, w: string, t: Sequential)
    requires TextRun(Letters(u)) && TextRun(Letters(v)) && TextRun(Letters(w))
    requires t == Sequential(Piped(Alone(u), Some(Piped(Alone(v), None))), true,
        Some(Sequential(Piped(Alone(w), None), false, None)))
    ensures SequentialFormed(t)
    ensures SequentialYield(t)
            == [Quoted(u)] + ([Op(Pipe, 0)] + ([Quoted(v)] + ([Op(Semicolon, 0)] + ([Quoted(w)] + []))))
  {
    hide TextRun, Letters;
    AloneParts(u);
    AloneParts(v);
    AloneParts(w);
    assert PipedFormed(Piped(Alone(v), None)) && PipedFormed(t.piped) && PipedFormed(Piped(Alone(w), None));
    assert SequentialFormed(t.rest.value);
    assert PipedYield(Piped(Alone(v), None)) == [Quoted(v)] && PipedYield(Piped(Alone(w), None)) == [Quoted(w)];
    assert PipedYield(t.piped) == [Quoted(u)] + ([Op(Pipe, 0)] + [Quoted(v)]);
    assert SequentialYield(t.rest.value) == [Quoted(w)] + [] + [] == [Quoted(w)];
    assert SequentialYield(t) == PipedYield(t.piped) + [Op(Semicolon, 0)] + SequentialYield(t.rest.value);
    assert [Quoted(u)] + ([Op(Pipe, 0)] + [Quoted(v)]) + [Op(Semicolon, 0)] + [Quoted(w)]
        == [Quoted(u)] + ([Op(Pipe, 0)] + ([Quoted(v)] + ([Op(Semicolon, 0)] + ([Quoted(w)] + []))));
  }

  lemma AloneParts(w: string)
    requires TextRun(Letters(w))
    ensures ArgumentsFormed(Alone(w)) && ArgumentsYield(Alone(w)) == [Quoted(w)]
  {
    hide TextRun, Letters;
    assert ArgYield(Str(Letters(w))) + [] == [Quoted(w)];
  }

  /** The text of a redirection, and what it is: "<" and "<<" are for descriptor 0, ">" and ">>" for 1. */
  function Redirection(kind: TokenType): string {
    match kind
    case Input => "<"
    case HereDocument => "<<"
    case Output => ">"
    case _ => ">>"
  }

  /** c <op w redirects the standard descriptor of the operator, c n<op w descriptor n. */
  lemma Redirections(c: string, kind: TokenType, n: nat, w: string)
    requires Writable(c) && Writable(w) && RedirectionKind(kind) && n <= INT_MAX
    ensures var s := Behind(c, " " + Digits(n) + Redirection(kind) + Behind(w, "\n"));
            Line(s) && ParseCommandLine(Tokens(s, false)) ==
              Some(Sequential(Piped(Arguments(Str(Letters(c)),
                  Some(Arguments(Redir(kind, n, Letters(w)), None))), None), false, None))
  {
    hide Tokens, Line, Printable, Written, ParseCommandLine, PrintLine, Letters, Backslashed, Digits;
    var op := Op(kind, n);
    QuotedItem(c);
    QuotedItem(w);
    RedirectionItem(kind, n);
    NoItems();
    Spell(Quoted(w), [], "\n");
    Spell(op, [Quoted(w)] + [], Behind(w, "\n"));
    Spell(Quoted(c), [op] + ([Quoted(w)] + []), " " + Digits(n) + Redirection(kind) + Behind(w, "\n"));
    var t := Sequential(Piped(Arguments(Str(Letters(c)),
      Some(Arguments(Redir(kind, n, Letters(w)), None))), None), false, None);
    RedirectionTree(c, kind, n, w, t);
    LineIs(t, Behind(c, " " + Digits(n) + Redirection(kind) + Behind(w, "\n")));
  }

  lemma RedirectionItem(kind: TokenType, n: nat)
    requires RedirectionKind(kind) && n <= INT_MAX
    ensures Printable(Op(kind, n)) && " " + Written(Op(kind, n)) == " " + Digits(n) + Redirection(kind)
  {
    hide Digits;
  }

  lemma RedirectionTree(c: string, kind: TokenType, n: nat, w: string, t: Sequential)
    requires TextRun(Letters(c)) && TextRun(Letters(w)) && RedirectionKind(kind)
    requires t == Sequential(Piped(Arguments(Str(Letters(c)),
        Some(Arguments(Redir(kind, n, Letters(w)), None))), None), false, None)
    ensures SequentialFormed(t)
    ensures SequentialYield(t) == [Quoted(c)] + ([Op(kind, n)] + ([Quoted(w)] + []))
  {
    hide TextRun, Letters;
    var r := Arguments(Redir(kind, n, Letters(w)), None);
    assert ArgumentsFormed(r) && ArgumentsFormed(t.piped.command) && PipedFormed(t.piped);
    assert ArgumentsYield(r) == [Op(kind, n), Quoted(w)] + [] == [Op(kind, n), Quoted(w)];
    assert ArgumentsYield(t.piped.command) == [Quoted(c)] + [Op(kind, n), Quoted(w)];
    assert PipedYield(t.piped) == ArgumentsYield(t.piped.command) + [];
    assert SequentialYield(t) == PipedYield(t.piped) + [] + [] == PipedYield(t.piped);
    assert [Quoted(c)] + [Op(kind, n), Quoted(w)] == [Quoted(c)] + ([Op(kind, n)] + ([Quoted(w)] + []));
  }

  /** Without a number in front of it. */
  lemma DefaultDescriptor(kind: TokenType, rest: string)
    requires RedirectionKind(kind) && Follows(rest)
    ensures var s := Redirection(kind) + rest;
            Line(s) && Next(s, false) ==
              Lexeme(Token(kind, "", if kind == Input || kind == HereDocument then 0 else 1), rest, false)
  {
    var s := Redirection(kind) + rest;
    LineAppend(Redirection(kind), rest);
    assert |Redirection(kind)| == 1 ==> s[1..] == rest;
    assert |Redirection(kind)| == 2 ==> s[2..] == rest;
  }
}
