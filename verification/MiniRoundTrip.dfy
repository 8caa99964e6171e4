/** The lexer and the parser of minishell together: every tree that any line is read as can be written
    as a line, and is read back from it as itself. */
module MiniRoundTrip {
  import opened CStrings
  import opened G = MiniGrammar
  import opened N = MiniNumbers
  import opened T = MiniTokens

  // ---- numbers ----

  lemma DescriptorDigits(fd: nat)
    requires fd <= INT_MAX
    ensures IsDescriptor(Digits(fd)) && Decimal(Digits(fd)) == fd
  {
    DecimalDigits(fd);
    assert Power10(5) == 100000 && Power10(10) == 100000 * Power10(5);
    DigitsLength(fd, 10);
  }

  // ---- writing ----

  /** A piece of a word as the lexer delivers it: quoted by a backslash or by single quotes, bare, or
      from inside double quotes. */
  predicate IsPiece(p: Token) {
    && p.length == |p.text| && '\n' !in p.text && '\U{ff}' !in p.text
    && match p.kind
       case NonExpandable => '\'' !in p.text || |p.text| == 1
       case Expandable => p.text != "" && forall k :: 0 <= k < |p.text| ==> !EndsWord(p.text[k], k)
       case ExpandableQuoted => forall k :: 0 <= k < |p.text| ==> !EndsQuoted(p.text[k], k)
       case _ => false
  }

  /** A bare piece right behind a bare piece starts with a "$", which is why it is not part of it. */
  predicate Adjacent(p: Token, q: Token) {
    p.kind == Expandable && q.kind == Expandable ==> q.text != "" && q.text[0] == '$'
  }

  predicate Pieces(parts: seq<Token>) {
    && (forall k :: 0 <= k < |parts| ==> IsPiece(parts[k]))
    && forall k :: 1 <= k < |parts| ==> Adjacent(parts[k - 1], parts[k])
  }

  /** The items that can be written: words made of pieces, operators, and redirections with
      descriptors that fit into an int. */
  predicate Printable(i: Item) {
    match i
    case Word(parts) => parts != [] && Pieces(parts)
    case Op(kind, fd) => if RedirectionKind(kind) then 0 <= fd <= INT_MAX
        else (kind == Pipe || kind == Semicolon) && fd == 0
  }

  function WrittenPiece(p: Token): string {
    match p.kind
    case Expandable => p.text
    case ExpandableQuoted => "\"" + p.text + "\""
    case _ => if |p.text| == 1 then "\\" + p.text else "'" + p.text + "'"
  }

  function WrittenWord(parts: seq<Token>): string {
    if parts == [] then "" else WrittenPiece(parts[0]) + WrittenWord(parts[1..])
  }

  function Symbols(kind: TokenType): string {
    match kind
    case Pipe => "|"
    case Semicolon => ";"
    case Input => "<"
    case HereDocument => "<<"
    case Output => ">"
    case _ => ">>"
  }

  function Written(i: Item): string {
    match i
    case Word(parts) => WrittenWord(parts)
    case Op(kind, fd) => (if RedirectionKind(kind) && fd >= 0 then Digits(fd) else "") + Symbols(kind)
  }

  /** Every item behind a blank, and a newline at the end. */
  function PrintLine(items: seq<Item>): string {
    if items == [] then "\n" else " " + Written(items[0]) + PrintLine(items[1..])
  }

  // ---- reading ----

  /** rest follows an item: it starts with a blank or is the end of the line. */
  predicate Follows(rest: string) { Line(rest) && (rest[0] == ' ' || rest[0] == '\n') }

  lemma BlankTokens(s: string)
    requires Line(s) && !IsBlank(s[0])
    ensures Line(" " + s) && Items(Tokens(" " + s, false)) == Items(Tokens(s, false))
  {
    hide Items;
    LineAppend(" ", s);
    hide Line;
    var t := " " + s;
    assert t[1..] == s && DropBlanks(s) == s;
    assert Next(t, false) == Lexeme(Plain(Space), s, false);
    SpaceItems(Tokens(s, false));
    assert Tokens(t, false) == [Plain(Space)] + Tokens(s, false);
  }

  lemma SpaceItems(ts: seq<Token>)
    requires Ended(ts)
    ensures Ended([Plain(Space)] + ts) && Items([Plain(Space)] + ts) == Items(ts)
  {
    assert ([Plain(Space)] + ts)[1..] == ts;
  }

  /** A line that starts with a blank, or ends, does not start with a text token. */
  lemma FollowsTokens(rest: string)
    requires Follows(rest)
    ensures !IsText(Tokens(rest, false)[0])
  {
    hide DropBlanks;
  }

  lemma WordItems(parts: seq<Token>, ts: seq<Token>)
    requires Ended(ts) && !IsText(ts[0]) && TextRun(parts)
    ensures Ended(parts + ts) && Items(parts + ts) == [G.Word(parts)] + Items(ts)
  {
    var all := parts + ts;
    RunIs(all, |parts|);
    assert all[..|parts|] == parts && all[|parts|..] == ts;
    ItemsHead(all);
  }

  /** Characters that end a bare word behind its first character. */
  predicate Bounds(c: char) { EndsWord(c, 1) && c != '<' && c != '>' }

  lemma BareNext(p: Token, tail: string)
    requires IsPiece(p) && p.kind == Expandable && Line(tail) && Bounds(tail[0])
    ensures var s := p.text + tail; Line(s) && !IsBlank(s[0]) && Next(s, false) == Lexeme(p, tail, false)
  {
    var w, s := p.text, p.text + tail;
    LineAppend(w, tail);
    assert forall k :: 0 <= k < |w| ==> s[k] == w[k];
    assert s[|w|] == tail[0];
    var n := WordEnd(s, 0);
    assert n == |w| && s[..n] == w && s[n..] == tail;
    hide Line, IsDescriptor;
    assert T.Word(s) == Lexeme(p, tail, false);
  }

  lemma DoubleQuotedBody(p: Token, tail: string)
    requires IsPiece(p) && p.kind == ExpandableQuoted && Line(tail)
    ensures var body := p.text + ("\"" + tail); Line(body) && DoubleQuoted(body) == Lexeme(p, tail, false)
  {
    var w, body := p.text, p.text + ("\"" + tail);
    LineAppend("\"", tail);
    LineAppend(w, "\"" + tail);
    hide Line;
    assert body[|w|] == '"' && forall k :: 0 <= k < |w| ==> body[k] == w[k];
    NonEmpty(body);
    var n := QuotedEnd(body, 0);
    assert n == |w| && body[..n] == w && body[n + 1..] == tail;
  }

  lemma DoubleQuotedNext(p: Token, tail: string)
    requires IsPiece(p) && p.kind == ExpandableQuoted && Line(tail)
    ensures var s := "\"" + p.text + "\"" + tail;
            Line(s) && !IsBlank(s[0]) && Next(s, false) == Lexeme(p, tail, false)
  {
    hide IsPiece, DoubleQuoted, IsDescriptor, DropBlanks, Symbol, T.Word, SingleQuoted;
    var body := p.text + ("\"" + tail);
    var s := "\"" + p.text + "\"" + tail;
    DoubleQuotedBody(p, tail);
    LineAppend("\"", body);
    hide Line;
    assert s == "\"" + body && s[1..] == body;
  }

  /** A written piece is the next token. */
  lemma PieceNext(p: Token, tail: string)
    requires IsPiece(p) && Line(tail) && tail[0] != '<' && tail[0] != '>' && (p.kind == Expandable ==> Bounds(tail[0]))
    ensures var s := WrittenPiece(p) + tail;
            && Line(s) && !IsBlank(s[0]) && s[0] != '<' && s[0] != '>'
            && (Bounds(s[0]) <==> p.kind != Expandable || p.text[0] == '$')
            && Next(s, false) == Lexeme(p, tail, false)
  {
    hide Next, Line, IsDescriptor, DropBlanks;
    var w, s := p.text, WrittenPiece(p) + tail;
    if p.kind == Expandable {
      BareNext(p, tail);
    } else if p.kind == ExpandableQuoted {
      DoubleQuotedNext(p, tail);
    } else if |w| == 1 {
      assert w[0] in w;
      BackslashNext(w[0], tail);
      assert w == [w[0]] && s == ['\\', w[0]] + tail;
    } else {
      SingleQuotedReadsBack(w, tail);
    }
  }

  /** A written word is read as its pieces. */
  lemma {:induction false} WordTokens(parts: seq<Token>, rest: string)
    requires Pieces(parts) && Follows(rest)
    ensures var s := WrittenWord(parts) + rest;
            && Line(s) && s[0] != '<' && s[0] != '>' && (parts != [] ==> !IsBlank(s[0]))
            && (Bounds(s[0]) <==> parts == [] || parts[0].kind != Expandable || parts[0].text[0] == '$')
            && Tokens(s, false) == parts + Tokens(rest, false)
    decreases |parts|
  {
    hide Line, Next, Tokens, IsPiece, WrittenPiece, IsBlank, IsSymbol;
    if parts == [] {
      assert WrittenWord(parts) + rest == rest && parts + Tokens(rest, false) == Tokens(rest, false);
      RestBounds(rest);
    } else {
      var tail := WrittenWord(parts[1..]) + rest;
      WordTokens(parts[1..], rest);
      PieceText(parts[0]);
      PieceNext(parts[0], tail);
      var s := WrittenPiece(parts[0]) + tail;
      assert WrittenWord(parts) + rest == s;
      TokensStep(s);
      assert [parts[0]] + (parts[1..] + Tokens(rest, false)) == parts + Tokens(rest, false);
    }
  }

  lemma RestBounds(rest: string)
    requires Follows(rest)
    ensures Line(rest) && Bounds(rest[0])
  {
  }

  lemma PieceText(p: Token)
    requires IsPiece(p)
    ensures IsText(p) && (p.kind == Expandable ==> p.text != "")
  {
  }

  lemma WordRead(parts: seq<Token>, rest: string)
    requires parts != [] && Pieces(parts) && Follows(rest)
    ensures var s := WrittenWord(parts) + rest;
            Line(s) && !IsBlank(s[0]) && Items(Tokens(s, false)) == [G.Word(parts)] + Items(Tokens(rest, false))
  {
    hide Items, Tokens, Line, IsPiece, WrittenWord;
    WordTokens(parts, rest);
    forall k | 0 <= k < |parts| ensures IsText(parts[k]) { PieceText(parts[k]); }
    FollowsTokens(rest);
    WordItems(parts, Tokens(rest, false));
  }

  lemma OperatorTokens(s: string, l: Lexeme)
    requires Line(s) && Next(s, false) == l && !l.quoted && Line(l.rest)
    requires !IsText(l.token) && !IsStop(l.token) && l.token.kind != Space
    ensures Items(Tokens(s, false)) ==
              [Op(l.token.kind, if IsRedirection(l.token) then l.token.length else 0)] + Items(Tokens(l.rest, false))
  {
    hide Next, Line, Run;
    var ts := Tokens(l.rest, false);
    assert Tokens(s, false) == [l.token] + ts;
    assert ([l.token] + ts)[1..] == ts;
  }

  lemma WrittenSymbol(kind: TokenType, rest: string)
    requires (kind == Pipe || kind == Semicolon || RedirectionKind(kind)) && Follows(rest)
    ensures var s := Symbols(kind) + rest;
            && Line(s) && IsSymbol(s[0])
            && Symbol(s).rest == rest && Symbol(s).token.kind == kind
  {
    var s := Symbols(kind) + rest;
    LineAppend(Symbols(kind), rest);
    assert |Symbols(kind)| == 1 ==> s[1..] == rest;
    assert |Symbols(kind)| == 2 ==> s[2..] == rest;
  }

  lemma WrittenOperator(kind: TokenType, rest: string)
    requires (kind == Pipe || kind == Semicolon) && Follows(rest)
    ensures var s := Written(Op(kind, 0)) + rest;
            Line(s) && !IsBlank(s[0]) && Items(Tokens(s, false)) == [Op(kind, 0)] + Items(Tokens(rest, false))
  {
    hide Items, Tokens, Line, Symbol;
    var s := Symbols(kind) + rest;
    WrittenSymbol(kind, rest);
    assert "" + Symbols(kind) == Symbols(kind);
    assert Next(s, false) == Symbol(s);
    OperatorTokens(s, Symbol(s));
  }

  /** Digits in front of a redirection are read as a word first. */
  lemma DigitsWord(d: string, rest: string)
    requires d != "" && AllDigits(d) && Line(rest) && (rest[0] == '<' || rest[0] == '>')
    ensures var s := d + rest; Line(s) && !IsSpecial(s[0]) && T.Word(s) == Lexeme(Text(Expandable, d), rest, false)
  {
    var s := d + rest;
    assert forall c <- d :: c != '\U{ff}';
    LineAppend(d, rest);
    assert forall k :: 0 <= k < |d| ==> s[k] == d[k] && d[k] in d;
    var n := WordEnd(s, 0);
    assert s[|d|] == rest[0];
    if n != |d| { assert false; }
    assert s[..n] == d && s[n..] == rest;
  }

  lemma WrittenRedirection(kind: TokenType, fd: nat, rest: string)
    requires RedirectionKind(kind) && fd <= INT_MAX && Follows(rest)
    ensures var s := Written(Op(kind, fd)) + rest;
            Line(s) && !IsBlank(s[0]) && Items(Tokens(s, false)) == [Op(kind, fd)] + Items(Tokens(rest, false))
  {
    hide Items, Tokens, Line, Symbol, IsDescriptor, T.Word, Digits;
    var tail := Symbols(kind) + rest;
    var s := Digits(fd) + tail;
    WrittenSymbol(kind, rest);
    NonEmpty(tail);
    assert tail[0] == '<' || tail[0] == '>';
    DescriptorDigits(fd);
    DigitsWord(Digits(fd), tail);
    assert Digits(fd) + Symbols(kind) + rest == s;
    var l := WithDescriptor(T.Word(s));
    assert l == Symbol(tail).(token := Symbol(tail).token.(length := fd));
    assert Next(s, false) == l;
    OperatorTokens(s, l);
  }

  lemma WrittenItem(i: Item, rest: string)
    requires Printable(i) && Follows(rest)
    ensures var s := Written(i) + rest;
            Line(s) && !IsBlank(s[0]) && Items(Tokens(s, false)) == [i] + Items(Tokens(rest, false))
  {
    hide Items, Tokens, Line, Written;
    match i
    case Word(parts) =>
      assert Written(i) == WrittenWord(parts) by { WrittenIs(i); }
      WordRead(parts, rest);
    case Op(kind, fd) =>
      if RedirectionKind(kind) { WrittenRedirection(kind, fd, rest); } else { WrittenOperator(kind, rest); }
  }

  lemma WrittenIs(i: Item)
    requires i.Word?
    ensures Written(i) == WrittenWord(i.parts)
  {
  }

  /** What is written for a sequence of items is read as these items. */
  lemma {:induction false} PrintedItems(items: seq<Item>)
    requires forall i <- items :: Printable(i)
    ensures Follows(PrintLine(items)) && Items(Tokens(PrintLine(items), false)) == items + [Op(Newline, 0)]
    decreases |items|
  {
    hide Items, Tokens, Line, Written, Printable;
    if items == [] {
      EmptyLine();
    } else {
      var rest := PrintLine(items[1..]);
      PrintedItems(items[1..]);
      WrittenItem(items[0], rest);
      var s := Written(items[0]) + rest;
      BlankTokens(s);
      assert PrintLine(items) == " " + s;
      assert items + [Op(Newline, 0)] == [items[0]] + (items[1..] + [Op(Newline, 0)]);
    }
  }

  lemma EmptyLine()
    ensures Line("\n") && Items(Tokens("\n", false)) == [Op(Newline, 0)]
  {
    assert Tokens("\n", false) == [Plain(Newline)];
  }

  /** Main result: every tree of the grammar whose items can be written is read back as itself. */
  lemma PrintedTree(t: Sequential)
    requires SequentialFormed(t) && forall i <- SequentialYield(t) :: Printable(i)
    ensures Line(PrintLine(SequentialYield(t)))
    ensures ParseCommandLine(Tokens(PrintLine(SequentialYield(t)), false)) == Some(t)
  {
    hide Items, Tokens, Line, Written, Printable, PrintLine, SequentialFormed, SequentialYield, ParseCommandLine;
    PrintedItems(SequentialYield(t));
    CommandLineExact(Tokens(PrintLine(SequentialYield(t)), false), t);
  }

  // ---- the lexer delivers nothing that cannot be written ----

  /** A token as the lexer delivers it. */
  predicate Delivered(t: Token) {
    if IsText(t) then IsPiece(t) else IsRedirection(t) ==> 0 <= t.length <= INT_MAX
  }

  lemma EscapeDelivered(s: string, quoted: bool)
    requires Line(s) && s[0] == '\\'
    ensures var t := Escape(s, quoted).token; t.kind == NonExpandable && IsPiece(t)
  {
    var t := Escape(s, quoted).token;
    assert s[1] in s;
    assert t.text == "\\" || t.text == [s[1]];
  }

  lemma SymbolDelivered(s: string)
    requires Line(s) && IsSymbol(s[0])
    ensures Delivered(Symbol(s).token) && !IsText(Symbol(s).token)
  {
  }

  lemma PrefixClean(s: string, n: nat)
    requires Line(s) && n < |s| && forall k :: 0 <= k < n ==> s[k] != '\n'
    ensures '\n' !in s[..n] && '\U{ff}' !in s[..n]
  {
    forall c | c in s[..n] ensures c in s && c != '\n' {
      var k :| 0 <= k < n && s[..n][k] == c;
      assert s[k] == c;
    }
  }

  lemma WordDelivered(s: string)
    requires Line(s) && !IsSpecial(s[0])
    ensures var l := T.Word(s); IsPiece(l.token) && (l.token.kind == Expandable ==> Bounding(l.rest))
  {
    hide Line, Escape;
    NonEmpty(s);
    if s[0] == '\\' {
      EscapeDelivered(s, false);
    } else {
      PrefixClean(s, WordEnd(s, 0));
    }
  }

  /** Behind a bare piece the line goes on with something that ends it. */
  predicate Bounding(rest: string) { rest != "" && EndsWord(rest[0], 1) }

  lemma DoubleQuotedDelivered(s: string)
    requires Line(s)
    ensures var t := DoubleQuoted(s).token; Delivered(t) && t.kind != Expandable
  {
    hide Line, Escape;
    NonEmpty(s);
    if s[0] == '\\' {
      EscapeDelivered(s, true);
    } else {
      PrefixClean(s, QuotedEnd(s, 0));
    }
  }

  lemma SingleQuotedDelivered(s: string)
    requires Line(s)
    ensures var t := SingleQuoted(s).token; Delivered(t) && t.kind != Expandable
  {
    hide Line;
    NonEmpty(s);
    var n := SingleEnd(s, 0);
    PrefixClean(s, n);
    forall c | c in s[..n] ensures c != '\'' {
      var k :| 0 <= k < n && s[..n][k] == c;
      assert s[k] == c;
    }
  }

  /** Every token is one that can be written; behind a bare piece there is something that ends it. */
  lemma NextDelivered(s: string, quoted: bool)
    requires Line(s)
    ensures var l := Next(s, quoted); Delivered(l.token) && (l.token.kind == Expandable ==> Bounding(l.rest))
  {
    hide Line, DoubleQuoted, SingleQuoted, T.Word, Symbol, DropBlanks, IsDescriptor, Bounding, IsPiece;
    NonEmpty(s);
    if quoted {
      DoubleQuotedDelivered(s);
    } else if IsBlank(s[0]) || s[0] == '\n' {
    } else if IsSymbol(s[0]) {
      SymbolDelivered(s);
    } else if s[0] == '"' {
      LineTail(s, 1);
      DoubleQuotedDelivered(s[1..]);
    } else if s[0] == '\'' {
      LineTail(s, 1);
      SingleQuotedDelivered(s[1..]);
    } else {
      WordDelivered(s);
      DescriptorDelivered(T.Word(s));
      PieceText(T.Word(s).token);
    }
  }

  lemma DescriptorDelivered(l: Lexeme)
    requires Line(l.rest) && !l.quoted && IsPiece(l.token)
    ensures WithDescriptor(l) == l || (Delivered(WithDescriptor(l).token) && !IsText(WithDescriptor(l).token))
  {
    hide Line;
    NonEmpty(l.rest);
    if IsDescriptor(l.token.text) && (l.rest[0] == '<' || l.rest[0] == '>') {
      SymbolDelivered(l.rest);
    }
  }

  /** A bare piece at the beginning of what follows a bare piece starts with a "$". */
  lemma BareBehindBare(s: string)
    requires Line(s) && Bounding(s) && Next(s, false).token.kind == Expandable
    ensures Next(s, false).token.text != "" && Next(s, false).token.text[0] == '$'
  {
    hide Line, DropBlanks, IsDescriptor;
    NonEmpty(s);
    if s[0] == '"' {
      LineTail(s, 1);
      DoubleQuotedDelivered(s[1..]);
    } else if s[0] == '\'' {
      LineTail(s, 1);
      SingleQuotedDelivered(s[1..]);
    } else if s[0] == '\\' {
      EscapeDelivered(s, false);
    }
  }

  /** All tokens of a line, and which of them stand side by side. */
  ghost predicate AllDelivered(ts: seq<Token>) {
    && (forall k :: 0 <= k < |ts| ==> Delivered(ts[k]))
    && forall k :: 1 <= k < |ts| ==> Adjacent(ts[k - 1], ts[k])
  }

  lemma {:induction false} TokensDelivered(s: string, quoted: bool)
    requires Line(s)
    ensures AllDelivered(Tokens(s, quoted))
    decreases |s|, quoted
  {
    hide Line, Next, Delivered;
    var l := Next(s, quoted);
    NextDelivered(s, quoted);
    if !IsStop(l.token) {
      TokensDelivered(l.rest, l.quoted);
      var more := Tokens(l.rest, l.quoted);
      assert Tokens(s, quoted) == [l.token] + more;
      assert more[0] == Next(l.rest, l.quoted).token;
      if l.token.kind == Expandable && more[0].kind == Expandable {
        BareUnquoted(s, quoted);
        BareBehindBare(l.rest);
      }
    }
  }

  lemma BareUnquoted(s: string, quoted: bool)
    requires Line(s) && Next(s, quoted).token.kind == Expandable
    ensures !Next(s, quoted).quoted
  {
    hide Line, DropBlanks, IsDescriptor;
    NonEmpty(s);
    if quoted {
      DoubleQuotedDelivered(s);
    } else if s[0] == '"' {
      LineTail(s, 1);
      DoubleQuotedDelivered(s[1..]);
    }
  }

  /** All items but the stop can be written. */
  lemma {:induction false} ItemsPrintable(ts: seq<Token>)
    requires Ended(ts) && AllDelivered(ts)
    ensures forall k :: 0 <= k < |Items(ts)| - 1 ==> Printable(Items(ts)[k])
    decreases |ts|
  {
    hide Run, IsPiece, Adjacent;
    if ts[0].kind == Space {
      ItemsPrintable(ts[1..]);
    } else {
      ItemsHead(ts);
      if IsText(ts[0]) {
        RunPrintable(ts);
        ItemsPrintable(ts[Run(ts)..]);
      } else if !IsStop(ts[0]) {
        ItemsPrintable(ts[1..]);
      }
    }
  }

  lemma RunPrintable(ts: seq<Token>)
    requires Ended(ts) && AllDelivered(ts) && IsText(ts[0])
    ensures Printable(G.Word(ts[..Run(ts)])) && AllDelivered(ts[Run(ts)..])
  {
    hide Run, IsPiece, Adjacent;
  }

  lemma OnlyPrintable(s: string, t: Sequential)
    requires Line(s) && ParseCommandLine(Tokens(s, false)) == Some(t)
    ensures SequentialFormed(t) && forall i <- SequentialYield(t) :: Printable(i)
  {
    hide Items, Tokens, Line, Printable, SequentialFormed, SequentialYield, ParseCommandLine, AllDelivered;
    var ts, y := Tokens(s, false), SequentialYield(t);
    CommandLineExact(ts, t);
    TokensDelivered(s, false);
    ItemsPrintable(ts);
    forall i | i in y ensures Printable(i) {
      var k :| 0 <= k < |y| && y[k] == i;
      assert Items(ts)[k] == i;
    }
  }

  /** Main result: the trees that lines are read as are exactly the trees of the grammar whose items
      can be written; each of them is read back from its own text. */
  lemma TreesExactly(t: Sequential)
    ensures (exists s :: Line(s) && ParseCommandLine(Tokens(s, false)) == Some(t))
            <==> SequentialFormed(t) && forall i <- SequentialYield(t) :: Printable(i)
  {
    hide *;
    if SequentialFormed(t) && forall i <- SequentialYield(t) :: Printable(i) { PrintedTree(t); }
    forall s | Line(s) && ParseCommandLine(Tokens(s, false)) == Some(t)
      ensures SequentialFormed(t) && forall i <- SequentialYield(t) :: Printable(i)
    {
      OnlyPrintable(s, t);
    }
  }

  // ---- words quoted by backslashes ----

  predicate Writable(w: string) { w != "" && '\n' !in w && '\U{ff}' !in w }

  /** A word quoted by backslashes is a command of one argument, which is that word. */
  lemma QuotedCommand(w: string)
    requires Writable(w)
    ensures var t := Sequential(Piped(Arguments(Str(Letters(w)), None), None), false, None);
            Line(" " + Backslashed(w) + "\n") && ParseCommandLine(Tokens(" " + Backslashed(w) + "\n", false)) == Some(t)
  {
    hide Items, Tokens, Line, Letters, Backslashed, ParseCommandLine;
    var t := Sequential(Piped(Arguments(Str(Letters(w)), None), None), false, None);
    LettersPieces(w);
    assert SequentialYield(t) == [G.Word(Letters(w))];
    PrintedTree(t);
    assert PrintLine([G.Word(Letters(w))]) == " " + Backslashed(w) + "\n";
  }

  lemma {:induction false} LettersPieces(w: string)
    requires '\n' !in w && '\U{ff}' !in w
    ensures Pieces(Letters(w)) && WrittenWord(Letters(w)) == Backslashed(w) && |Letters(w)| == |w|
    ensures forall k :: 0 <= k < |w| ==> Letters(w)[k].kind == NonExpandable
    decreases |w|
  {
    if w != "" {
      LettersPieces(w[1..]);
      assert w[0] in w && w[..1] == [w[0]];
      assert Letters(w)[0] == Text(NonExpandable, w[..1]) && Letters(w)[1..] == Letters(w[1..]);
    }
  }
}
