/** The command grammar of minishell (42-minishell/parse1.c and parse2.c): trees, the parser as
    functions over token sequences, and the grammar that it accepts, stated independently. */
module MiniGrammar {
  import opened CStrings

  /** The token types of lexer.h; for redirections, length holds the file descriptor. */
  datatype TokenType =
    | EndOfInput | ParseError
    | NonExpandable | Expandable | ExpandableQuoted
    | Pipe | Input | HereDocument | Output | Appending
    | Semicolon | Newline | Space

  datatype Token = Token(kind: TokenType, text: string, length: int)

  predicate IsText(t: Token) { t.kind == Expandable || t.kind == NonExpandable || t.kind == ExpandableQuoted }

  predicate IsRedirection(t: Token) {
    t.kind == Input || t.kind == HereDocument || t.kind == Output || t.kind == Appending
  }

  /** Tokens at which every parsing function stops. */
  predicate IsStop(t: Token) { t.kind == EndOfInput || t.kind == ParseError || t.kind == Newline }

  /** What the lexer delivers: the parser never reads past a stop token. */
  predicate Ended(ts: seq<Token>) { |ts| > 0 && IsStop(ts[|ts| - 1]) }

  // ---- trees ----

  /** A string is a chain of text tokens without spaces between them. */
  datatype Arg = Str(parts: seq<Token>) | Redir(kind: TokenType, fd: int, word: seq<Token>)

  datatype Arguments = Arguments(arg: Arg, rest: Option<Arguments>)

  datatype Piped = Piped(command: Arguments, next: Option<Piped>)

  datatype Sequential = Sequential(piped: Piped, delimiter: bool, rest: Option<Sequential>)

  /** The outcome of a parsing function: NULL, or a node with its error flag; and what is left. */
  datatype Result<T> = Nothing(rest: seq<Token>) | Node(tree: T, error: bool, rest: seq<Token>)

  // ---- the parser ----

  function SkipSpaces(ts: seq<Token>): (r: seq<Token>)
    requires Ended(ts)
    ensures Ended(r) && |r| <= |ts| && r[0].kind != Space
  {
    if ts[0].kind == Space then SkipSpaces(ts[1..]) else ts
  }

  /** The text tokens at the start of ts. */
  function Run(ts: seq<Token>): (n: nat)
    requires Ended(ts)
    ensures n < |ts| && !IsText(ts[n]) && Ended(ts[n..]) && forall k :: 0 <= k < n ==> IsText(ts[k])
    ensures n > 0 <==> IsText(ts[0])
  {
    if IsText(ts[0]) then 1 + Run(ts[1..]) else 0
  }

  function ParseString(ts: seq<Token>): (r: Result<seq<Token>>)
    requires Ended(ts)
    ensures Ended(r.rest) && !IsText(r.rest[0]) && |r.rest| <= |ts| && (r.Node? ==> |r.rest| < |ts| && r.tree != [])
  {
    var n := Run(ts);
    if n == 0 then Nothing(ts) else Node(ts[..n], false, ts[n..])
  }

  function ParseRedirection(ts: seq<Token>): (r: Result<Arg>)
    requires Ended(ts)
    ensures Ended(r.rest) && |r.rest| <= |ts| && (r.Node? ==> |r.rest| < |ts| && !IsText(r.rest[0]))
  {
    if !IsRedirection(ts[0]) then Nothing(ts)
    else
      var s := ParseString(SkipSpaces(ts[1..]));
      match s
      case Nothing(rest) => Node(Redir(ts[0].kind, ts[0].length, []), true, rest)
      case Node(word, _, rest) => Node(Redir(ts[0].kind, ts[0].length, word), false, rest)
  }

  /** One argument: a redirection, or else a string. The source tries both, one after the other;
      behind a redirection there is never a string. */
  function ParseArg(ts: seq<Token>): (r: Result<Arg>)
    requires Ended(ts)
    ensures Ended(r.rest) && |r.rest| <= |ts| && (r.Node? ==> |r.rest| < |ts|)
  {
    var redir := ParseRedirection(ts);
    if redir.Node? then redir
    else
      match ParseString(redir.rest)
      case Nothing(rest) => Nothing(rest)
      case Node(parts, error, rest) => Node(Str(parts), error, rest)
  }

  function ParseArguments(ts: seq<Token>): (r: Result<Arguments>)
    requires Ended(ts)
    ensures Ended(r.rest) && |r.rest| <= |ts| && (r.Node? ==> |r.rest| < |ts|)
    decreases |ts|
  {
    match ParseArg(SkipSpaces(ts))
    case Nothing(rest) => Nothing(rest)
    case Node(arg, error, rest) =>
      match ParseArguments(rest)
      case Nothing(rest') => Node(Arguments(arg, None), error, rest')
      case Node(more, error', rest') => Node(Arguments(arg, Some(more)), error || error', rest')
  }

  function ParsePiped(ts: seq<Token>): (r: Result<Piped>)
    requires Ended(ts)
    ensures Ended(r.rest) && |r.rest| <= |ts| && (r.Node? ==> |r.rest| < |ts|)
    decreases |ts|
  {
    match ParseArguments(ts)
    case Nothing(rest) => Nothing(rest)
    case Node(command, error, rest) =>
      var rest1 := SkipSpaces(rest);
      if rest1[0].kind != Pipe then Node(Piped(command, None), error, rest1)
      else
        match ParsePiped(SkipSpaces(rest1[1..]))
        case Nothing(rest2) => Node(Piped(command, None), true, rest2)
        case Node(next, error', rest2) => Node(Piped(command, Some(next)), error || error', rest2)
  }

  function ParseSequential(ts: seq<Token>): (r: Result<Sequential>)
    requires Ended(ts)
    ensures Ended(r.rest) && |r.rest| <= |ts| && (r.Node? ==> |r.rest| < |ts|)
    decreases |ts|
  {
    match ParsePiped(SkipSpaces(ts))
    case Nothing(rest) => Nothing(rest)
    case Node(piped, error, rest) =>
      var rest1 := SkipSpaces(rest);
      if rest1[0].kind != Semicolon then Node(Sequential(piped, false, None), error, rest1)
      else
        match ParseSequential(SkipSpaces(rest1[1..]))
        case Nothing(rest2) => Node(Sequential(piped, true, None), error, rest2)
        case Node(more, error', rest2) => Node(Sequential(piped, true, Some(more)), error || error', rest2)
  }

  function ParseCommandLine(ts: seq<Token>): Option<Sequential>
    requires Ended(ts)
  {
    match ParseSequential(ts)
    case Nothing(_) => None
    case Node(t, error, rest) => if SkipSpaces(rest)[0].kind == Newline && !error then Some(t) else None
  }

  // ---- the grammar ----

  /** Spaces only matter in that they separate strings: a token sequence as words, operators and
      the stop token at its end. */
  datatype Item = Word(parts: seq<Token>) | Op(kind: TokenType, fd: int)

  function Items(ts: seq<Token>): (r: seq<Item>)
    requires Ended(ts)
    ensures |r| > 0
    decreases |ts|
  {
    var t := ts[0];
    if t.kind == Space then Items(ts[1..])
    else if IsText(t) then [Word(ts[..Run(ts)])] + Items(ts[Run(ts)..])
    else if IsRedirection(t) then [Op(t.kind, t.length)] + Items(ts[1..])
    else if IsStop(t) then [Op(t.kind, 0)]
    else [Op(t.kind, 0)] + Items(ts[1..])
  }

  function ArgYield(a: Arg): seq<Item> {
    match a
    case Str(parts) => [Word(parts)]
    case Redir(kind, fd, word) => [Op(kind, fd), Word(word)]
  }

  function ArgumentsYield(a: Arguments): (r: seq<Item>)
    ensures |r| > 0
  {
    ArgYield(a.arg) + if a.rest.Some? then ArgumentsYield(a.rest.value) else []
  }

  function PipedYield(p: Piped): (r: seq<Item>)
    ensures |r| > 0
  {
    ArgumentsYield(p.command) + if p.next.Some? then [Op(Pipe, 0)] + PipedYield(p.next.value) else []
  }

  function SequentialYield(s: Sequential): (r: seq<Item>)
    ensures |r| > 0
  {
    PipedYield(s.piped) +
    (if s.delimiter then [Op(Semicolon, 0)] else []) +
    (if s.rest.Some? then SequentialYield(s.rest.value) else [])
  }

  predicate TextRun(parts: seq<Token>) { parts != [] && forall k :: 0 <= k < |parts| ==> IsText(parts[k]) }

  /** Trees of the grammar: every string has parts, every redirection has a redirection operator
      and a word, and there is a delimiter between commands. */
  predicate ArgFormed(a: Arg) {
    match a
    case Str(parts) => TextRun(parts)
    case Redir(kind, _, word) =>
      (kind == Input || kind == HereDocument || kind == Output || kind == Appending) && TextRun(word)
  }

  predicate ArgumentsFormed(a: Arguments) {
    ArgFormed(a.arg) && (a.rest.Some? ==> ArgumentsFormed(a.rest.value))
  }

  predicate PipedFormed(p: Piped) {
    ArgumentsFormed(p.command) && (p.next.Some? ==> PipedFormed(p.next.value))
  }

  predicate SequentialFormed(s: Sequential) {
    PipedFormed(s.piped) && (s.rest.Some? ==> s.delimiter && SequentialFormed(s.rest.value))
  }

  // ---- the parser against the grammar ----

  lemma {:induction false} SkipItems(ts: seq<Token>)
    requires Ended(ts)
    ensures Items(SkipSpaces(ts)) == Items(ts)
    decreases |ts|
  {
    if ts[0].kind == Space { SkipItems(ts[1..]); }
  }

  predicate RedirectionKind(k: TokenType) { k == Input || k == HereDocument || k == Output || k == Appending }

  predicate StopKind(k: TokenType) { k == EndOfInput || k == ParseError || k == Newline }

  /** The next item can only be a "|", a ";" or a stop. */
  predicate Closed(items: seq<Item>) { |items| > 0 && items[0].Op? && !RedirectionKind(items[0].kind) }

  predicate AtStop(items: seq<Item>) { |items| > 0 && items[0].Op? && StopKind(items[0].kind) }

  /** The first item of a sequence of tokens, by the kind of its first token. */
  lemma ItemsHead(ts: seq<Token>)
    requires Ended(ts) && ts[0].kind != Space
    ensures IsText(ts[0]) ==> Items(ts) == [Word(ts[..Run(ts)])] + Items(ts[Run(ts)..])
    ensures !IsText(ts[0]) ==> Items(ts)[0] == Op(ts[0].kind, if IsRedirection(ts[0]) then ts[0].length else 0)
    ensures !IsText(ts[0]) && !IsStop(ts[0]) ==> Ended(ts[1..]) && Items(ts)[1..] == Items(ts[1..])
    ensures IsStop(ts[0]) ==> |Items(ts)| == 1
  {
    hide Run;
    if IsText(ts[0]) {
    } else if IsRedirection(ts[0]) {
      assert Items(ts) == [Op(ts[0].kind, ts[0].length)] + Items(ts[1..]);
    } else if !IsStop(ts[0]) {
      assert Items(ts) == [Op(ts[0].kind, 0)] + Items(ts[1..]);
    }
  }

  lemma StringItems(ts: seq<Token>)
    requires Ended(ts) && ts[0].kind != Space
    ensures match ParseString(ts)
            case Nothing(rest) => rest == ts && Items(ts)[0].Op?
            case Node(parts, error, rest) => !error && TextRun(parts) && Items(ts) == [Word(parts)] + Items(rest)
  {
    hide Items;
    ItemsHead(ts);
  }

  /** No tree of the grammar has this operator where no word follows. */
  predicate Dangling(items: seq<Item>) {
    |items| > 1 && items[0].Op? && RedirectionKind(items[0].kind) && items[1].Op?
  }

  /** A redirection without a word behind it is recorded as an error. Nothing here is by induction on
      ts, which Dafny would try. */
  lemma {:induction false} RedirectionItems(ts: seq<Token>)
    requires Ended(ts) && IsRedirection(ts[0])
    ensures var r := ParseRedirection(ts);
            && r.Node?
            && (r.error ==> Dangling(Items(ts)))
            && (!r.error ==> ArgFormed(r.tree) && Items(ts) == ArgYield(r.tree) + Items(r.rest))
  {
    hide Items, Run, SkipSpaces, ParseString;
    var rest := SkipSpaces(ts[1..]);
    SkipItems(ts[1..]);
    StringItems(rest);
    ItemsHead(ts);
    var items := Items(ts);
    assert items == [items[0]] + items[1..];
    match ParseString(rest)
    case Nothing(_) =>
    case Node(word, _, after) =>
      assert items == [items[0]] + ([Word(word)] + Items(after));
      assert items == [items[0], Word(word)] + Items(after);
  }

  lemma ArgItems(ts: seq<Token>)
    requires Ended(ts)
    ensures match ParseArg(SkipSpaces(ts))
            case Nothing(rest) => Items(rest) == Items(ts) && Closed(Items(ts))
            case Node(arg, error, rest) =>
              && !Closed(Items(ts))
              && if error then Dangling(Items(ts)) else ArgFormed(arg) && Items(ts) == ArgYield(arg) + Items(rest)
  {
    hide Items, Run, SkipSpaces, ParseString;
    var s := SkipSpaces(ts);
    SkipItems(ts);
    if IsRedirection(s[0]) {
      RedirectionItems(s);
    } else {
      ItemsHead(s);
      StringItems(s);
    }
  }

  lemma {:induction false} ArgumentsSound(ts: seq<Token>)
    requires Ended(ts)
    ensures match ParseArguments(ts)
            case Nothing(rest) => Items(rest) == Items(ts) && Closed(Items(ts))
            case Node(t, error, rest) =>
              !error ==> ArgumentsFormed(t) && Items(ts) == ArgumentsYield(t) + Items(rest) && Closed(Items(rest))
    decreases |ts|
  {
    hide Items, Run, SkipSpaces, ParseArg, ArgFormed, ArgYield, Closed, Dangling;
    ArgItems(ts);
    match ParseArg(SkipSpaces(ts))
    case Nothing(_) =>
    case Node(arg, error, rest) =>
      ArgumentsSound(rest);
      if !error {
        match ParseArguments(rest)
        case Nothing(rest') => assert ArgumentsYield(Arguments(arg, None)) == ArgYield(arg);
        case Node(more, error', rest') =>
          if !error' {
            assert Items(ts) == ArgYield(arg) + (ArgumentsYield(more) + Items(rest'));
            assert Items(ts) == ArgumentsYield(Arguments(arg, Some(more))) + Items(rest');
          }
      }
  }

  /** One step over an operator that is not a redirection and not a stop. */
  lemma Step(ts: seq<Token>, kind: TokenType)
    requires Ended(ts) && SkipSpaces(ts)[0].kind == kind && (kind == Pipe || kind == Semicolon)
    ensures var s := SkipSpaces(ts);
            Ended(s[1..]) && Items(ts) == [Op(kind, 0)] + Items(SkipSpaces(s[1..]))
  {
    hide Items, Run, SkipSpaces;
    var s := SkipSpaces(ts);
    SkipItems(ts);
    ItemsHead(s);
    assert Items(s) == [Items(s)[0]] + Items(s)[1..];
    SkipItems(s[1..]);
  }

  /** No step: the first token is not of the given kind, and neither is the first item. */
  lemma NoStep(ts: seq<Token>, kind: TokenType)
    requires Ended(ts) && (kind == Pipe || kind == Semicolon)
    ensures SkipSpaces(ts)[0].kind == kind <==> Items(ts)[0] == Op(kind, 0)
    ensures Items(ts)[0].Op? ==> (SkipSpaces(ts)[0].kind == kind <==> Items(ts)[0].kind == kind)
    ensures Items(SkipSpaces(ts)) == Items(ts)
  {
    hide Items, Run, SkipSpaces;
    SkipItems(ts);
    ItemsHead(SkipSpaces(ts));
  }

  lemma {:induction false} PipedSound(ts: seq<Token>)
    requires Ended(ts)
    ensures match ParsePiped(ts)
            case Nothing(rest) => Items(rest) == Items(ts) && Closed(Items(ts))
            case Node(t, error, rest) =>
              !error ==> PipedFormed(t) && Items(ts) == PipedYield(t) + Items(rest) && Closed(Items(rest))
    decreases |ts|
  {
    hide Items, Run, SkipSpaces, ParseArguments, ArgumentsFormed, ArgumentsYield, Closed;
    ArgumentsSound(ts);
    match ParseArguments(ts)
    case Nothing(_) =>
    case Node(command, error, rest) =>
      NoStep(rest, Pipe);
      var rest1 := SkipSpaces(rest);
      if rest1[0].kind == Pipe {
        Step(rest, Pipe);
        var after := SkipSpaces(rest1[1..]);
        PipedSound(after);
        match ParsePiped(after)
        case Nothing(_) =>
        case Node(next, error', rest2) =>
          if !error && !error' {
            assert Items(ts) == ArgumentsYield(command) + ([Op(Pipe, 0)] + (PipedYield(next) + Items(rest2)));
            assert Items(ts) == PipedYield(Piped(command, Some(next))) + Items(rest2);
          }
      } else {
        assert PipedYield(Piped(command, None)) == ArgumentsYield(command);
      }
  }

  lemma {:induction false} SequentialSound(ts: seq<Token>)
    requires Ended(ts)
    ensures match ParseSequential(ts)
            case Nothing(rest) => Items(rest) == Items(ts) && Closed(Items(ts))
            case Node(t, error, rest) =>
              !error ==> SequentialFormed(t) && Items(ts) == SequentialYield(t) + Items(rest)
    decreases |ts|
  {
    hide Items, Run, SkipSpaces, ParsePiped, PipedFormed, PipedYield, Closed;
    SkipItems(ts);
    PipedSound(SkipSpaces(ts));
    match ParsePiped(SkipSpaces(ts))
    case Nothing(_) =>
    case Node(piped, error, rest) =>
      NoStep(rest, Semicolon);
      var rest1 := SkipSpaces(rest);
      if rest1[0].kind == Semicolon {
        Step(rest, Semicolon);
        var after := SkipSpaces(rest1[1..]);
        SequentialSound(after);
        match ParseSequential(after)
        case Nothing(rest2) =>
          if !error {
            assert Items(ts) == SequentialYield(Sequential(piped, true, None)) + Items(rest2);
          }
        case Node(more, error', rest2) =>
          if !error && !error' {
            assert Items(ts) == PipedYield(piped) + ([Op(Semicolon, 0)] + (SequentialYield(more) + Items(rest2)));
            assert Items(ts) == SequentialYield(Sequential(piped, true, Some(more))) + Items(rest2);
          }
      } else {
        assert SequentialYield(Sequential(piped, false, None)) == PipedYield(piped);
      }
  }

  /** What is parsed where the items start with a word, and what follows it. */
  lemma AfterWord(ts: seq<Token>, parts: seq<Token>, follow: seq<Item>)
    requires Ended(ts) && Items(ts) == [Word(parts)] + follow
    ensures var s := SkipSpaces(ts);
            && !IsRedirection(s[0]) && ParseString(s).Node? && ParseString(s).tree == parts && !ParseString(s).error
            && Items(ParseString(s).rest) == follow
  {
    hide Items, Run, SkipSpaces, ParseString;
    var s := SkipSpaces(ts);
    SkipItems(ts);
    ItemsHead(s);
    StringItems(s);
    assert Items(s)[0] == Word(parts) && Items(s)[1..] == follow;
    match ParseString(s)
    case Nothing(_) =>
    case Node(word, _, rest) => assert Items(s)[0] == Word(word) && Items(s)[1..] == Items(rest);
  }

  lemma ArgComplete(ts: seq<Token>, a: Arg, follow: seq<Item>)
    requires Ended(ts) && ArgFormed(a) && Items(ts) == ArgYield(a) + follow
    ensures var r := ParseArg(SkipSpaces(ts)); r.Node? && r.tree == a && !r.error && Items(r.rest) == follow
  {
    hide Items, Run, SkipSpaces, ParseString;
    match a
    case Str(parts) => AfterWord(ts, parts, follow);
    case Redir(kind, fd, word) =>
      var s := SkipSpaces(ts);
      SkipItems(ts);
      ItemsHead(s);
      assert Items(s)[0] == Op(kind, fd) && Items(s)[1..] == [Word(word)] + follow;
      AfterWord(s[1..], word, follow);
  }

  lemma ClosedArguments(ts: seq<Token>)
    requires Ended(ts) && Closed(Items(ts))
    ensures ParseArguments(ts).Nothing? && Items(ParseArguments(ts).rest) == Items(ts)
  {
    hide Items, Run, SkipSpaces, ParseArg;
    ArgItems(ts);
  }

  lemma {:induction false} ArgumentsComplete(ts: seq<Token>, a: Arguments, follow: seq<Item>)
    requires Ended(ts) && ArgumentsFormed(a) && Items(ts) == ArgumentsYield(a) + follow && Closed(follow)
    ensures var r := ParseArguments(ts); r.Node? && r.tree == a && !r.error && Items(r.rest) == follow
    decreases a
  {
    hide Items, Run, SkipSpaces, ParseArg, ArgFormed, ArgYield, Closed;
    var more := if a.rest.Some? then ArgumentsYield(a.rest.value) else [];
    assert Items(ts) == ArgYield(a.arg) + (more + follow);
    ArgComplete(ts, a.arg, more + follow);
    var r := ParseArg(SkipSpaces(ts));
    if a.rest.Some? {
      ArgumentsComplete(r.rest, a.rest.value, follow);
    } else {
      assert more + follow == follow;
      ClosedArguments(r.rest);
    }
  }

  lemma {:induction false} PipedComplete(ts: seq<Token>, p: Piped, follow: seq<Item>)
    requires Ended(ts) && PipedFormed(p) && Items(ts) == PipedYield(p) + follow && Closed(follow)
            && follow[0].kind != Pipe
    ensures var r := ParsePiped(ts); r.Node? && r.tree == p && !r.error && Items(r.rest) == follow
    decreases p
  {
    hide Items, Run, SkipSpaces, ParseArguments, ArgumentsFormed, ArgumentsYield;
    var more := if p.next.Some? then [Op(Pipe, 0)] + PipedYield(p.next.value) else [];
    assert Items(ts) == ArgumentsYield(p.command) + (more + follow);
    assert p.next.None? ==> more + follow == follow;
    ArgumentsComplete(ts, p.command, more + follow);
    var rest := ParseArguments(ts).rest;
    NoStep(rest, Pipe);
    if p.next.Some? {
      assert more + follow == [Op(Pipe, 0)] + (PipedYield(p.next.value) + follow);
      Step(rest, Pipe);
      var after := SkipSpaces(SkipSpaces(rest)[1..]);
      assert Items(after) == Items(rest)[1..] == PipedYield(p.next.value) + follow;
      PipedComplete(after, p.next.value, follow);
    }
  }

  lemma {:induction false} SequentialComplete(ts: seq<Token>, t: Sequential, follow: seq<Item>)
    requires Ended(ts) && SequentialFormed(t) && Items(ts) == SequentialYield(t) + follow && AtStop(follow)
    ensures var r := ParseSequential(ts); r.Node? && r.tree == t && !r.error && Items(r.rest) == follow
    decreases t
  {
    hide Items, Run, SkipSpaces, ParsePiped, PipedFormed, PipedYield;
    var more := if t.rest.Some? then SequentialYield(t.rest.value) else [];
    var delim := if t.delimiter then [Op(Semicolon, 0)] else [];
    assert Items(ts) == PipedYield(t.piped) + (delim + (more + follow));
    assert !t.delimiter ==> delim + (more + follow) == follow;
    assert t.rest.None? ==> more + follow == follow;
    SkipItems(ts);
    PipedComplete(SkipSpaces(ts), t.piped, delim + (more + follow));
    var rest := ParsePiped(SkipSpaces(ts)).rest;
    NoStep(rest, Semicolon);
    if t.delimiter {
      Step(rest, Semicolon);
      var after := SkipSpaces(SkipSpaces(rest)[1..]);
      assert Items(after) == Items(rest)[1..] == more + follow;
      if t.rest.Some? {
        SequentialComplete(after, t.rest.value, follow);
      } else {
        NothingAtStop(after);
      }
    }
  }

  lemma NothingAtStop(ts: seq<Token>)
    requires Ended(ts) && AtStop(Items(ts))
    ensures ParseSequential(ts).Nothing? && Items(ParseSequential(ts).rest) == Items(ts)
  {
    hide Items, Run, SkipSpaces, ParseArguments;
    SkipItems(ts);
    ClosedArguments(SkipSpaces(ts));
  }

  /** Exactness: a line is parsed to t exactly when t is a tree of the grammar whose leaves, in
      order, are the words and operators of the line, up to its newline. */
  lemma CommandLineExact(ts: seq<Token>, t: Sequential)
    requires Ended(ts)
    ensures ParseCommandLine(ts) == Some(t)
            <==> SequentialFormed(t) && Items(ts) == SequentialYield(t) + [Op(Newline, 0)]
  {
    hide Items, Run, SkipSpaces, ParseSequential, SequentialYield, SequentialFormed;
    var r := ParseSequential(ts);
    if ParseCommandLine(ts) == Some(t) {
      SequentialSound(ts);
      var s := SkipSpaces(r.rest);
      SkipItems(r.rest);
      ItemsHead(s);
      assert Items(s) == [Op(Newline, 0)];
    }
    if SequentialFormed(t) && Items(ts) == SequentialYield(t) + [Op(Newline, 0)] {
      SequentialComplete(ts, t, [Op(Newline, 0)]);
      SkipItems(r.rest);
      ItemsHead(SkipSpaces(r.rest));
    }
  }

  /** A line has at most one reading. */
  lemma OneReading(ts: seq<Token>, t: Sequential, u: Sequential)
    requires Ended(ts) && SequentialFormed(t) && SequentialFormed(u)
    requires Items(ts) == SequentialYield(t) + [Op(Newline, 0)] == SequentialYield(u) + [Op(Newline, 0)]
    ensures t == u
  {
    hide *;
    CommandLineExact(ts, t);
    CommandLineExact(ts, u);
  }

  /** A bare newline is not accepted, although the comment in parse1.c:4-8 lists it. */
  lemma BareNewlineRejected(ts: seq<Token>)
    requires Ended(ts) && Items(ts) == [Op(Newline, 0)]
    ensures ParseCommandLine(ts) == None
  {
    hide Items, ParseSequential;
    NothingAtStop(ts);
  }

  // ---- items and tokens ----

  /** What an item keeps of a token. */
  function Shape(t: Token): Token {
    if IsText(t) then t else Token(t.kind, "", if IsRedirection(t) then t.length else 0)
  }

  /** The tokens of a line without its spaces, up to the first stop token. */
  function Spaceless(ts: seq<Token>): seq<Token>
    requires Ended(ts)
  {
    if IsStop(ts[0]) then [Shape(ts[0])]
    else if ts[0].kind == Space then Spaceless(ts[1..])
    else [Shape(ts[0])] + Spaceless(ts[1..])
  }

  function Flat(items: seq<Item>): seq<Token> {
    if items == [] then []
    else (match items[0] case Word(parts) => parts case Op(kind, fd) => [Token(kind, "", fd)]) + Flat(items[1..])
  }

  /** Grouping tokens into items loses nothing but the spaces. */
  lemma {:induction false} ItemsFlat(ts: seq<Token>)
    requires Ended(ts)
    ensures Flat(Items(ts)) == Spaceless(ts)
    decreases |ts|
  {
    if IsText(ts[0]) {
      var n := Run(ts);
      ItemsFlat(ts[n..]);
      RunSpaceless(ts, n);
      assert Items(ts)[1..] == Items(ts[n..]);
    } else if !IsStop(ts[0]) {
      ItemsFlat(ts[1..]);
      if ts[0].kind != Space { assert Items(ts)[1..] == Items(ts[1..]); }
    }
  }

  lemma TailSlices(ts: seq<Token>, n: nat)
    requires 0 < n < |ts|
    ensures ts[1..][n - 1..] == ts[n..] && ts[..n] == [ts[0]] + ts[1..][..n - 1]
    ensures forall k :: 0 <= k < n - 1 ==> ts[1..][k] == ts[k + 1]
  {
  }

  lemma {:induction false} RunSpaceless(ts: seq<Token>, n: nat)
    requires Ended(ts) && n < |ts| && forall k :: 0 <= k < n ==> IsText(ts[k])
    ensures Ended(ts[n..]) && Spaceless(ts) == ts[..n] + Spaceless(ts[n..])
    decreases n
  {
    if n > 0 {
      var tail := ts[1..];
      TailSlices(ts, n);
      RunSpaceless(tail, n - 1);
      assert Spaceless(ts) == [ts[0]] + Spaceless(tail);
    } else {
      assert ts[0..] == ts;
    }
  }

  lemma {:induction false} FlatAppend(items: seq<Item>, more: seq<Item>)
    ensures Flat(items + more) == Flat(items) + Flat(more)
    decreases |items|
  {
    if items == [] {
      assert items + more == more;
    } else {
      FlatAppend(items[1..], more);
      assert (items + more)[1..] == items[1..] + more;
    }
  }

  /** The leaves of the tree of a line are the tokens of the line, in order, but for the spaces. */
  lemma YieldIsInput(ts: seq<Token>, t: Sequential)
    requires Ended(ts) && ParseCommandLine(ts) == Some(t)
    ensures SequentialFormed(t) && Spaceless(ts) == Flat(SequentialYield(t)) + [Token(Newline, "", 0)]
  {
    hide *;
    CommandLineExact(ts, t);
    ItemsFlat(ts);
    FlatAppend(SequentialYield(t), [Op(Newline, 0)]);
    FlatOp(Newline);
  }

  lemma FlatOp(kind: TokenType)
    ensures Flat([Op(kind, 0)]) == [Token(kind, "", 0)]
  {
    assert [Op(kind, 0)][1..] == [];
  }

  // ---- here-documents ----

  function ArgHeredocs(a: Arg): seq<Arg> { if a.Redir? && a.kind == HereDocument then [a] else [] }

  /** The "<<" redirections, from left to right. */
  function ArgumentsHeredocs(a: Arguments): seq<Arg> {
    ArgHeredocs(a.arg) + if a.rest.Some? then ArgumentsHeredocs(a.rest.value) else []
  }

  function PipedHeredocs(p: Piped): seq<Arg> {
    ArgumentsHeredocs(p.command) + if p.next.Some? then PipedHeredocs(p.next.value) else []
  }

  function SequentialHeredocs(s: Sequential): seq<Arg> {
    PipedHeredocs(s.piped) + if s.rest.Some? then SequentialHeredocs(s.rest.value) else []
  }
}
