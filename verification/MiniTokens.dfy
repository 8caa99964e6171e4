/** The tokens of a line of minishell, as functions of the rest of the line and the quoting state
    (what lexer1.c to lexer4.c in 42-minishell compute), and what holds of them. */
module MiniTokens {
  import opened CStrings
  import opened G = MiniGrammar

  const INT_MAX := 2147483647

  /** A line ends in a newline and has no byte 0xFF, which getc would confuse with EOF. */
  predicate Line(s: string) { s != "" && s[|s| - 1] == '\n' && '\U{ff}' !in s }

  /** A token, what follows it, and whether the lexer is then inside double quotes. */
  datatype Lexeme = Lexeme(token: Token, rest: string, quoted: bool)

  function Text(kind: TokenType, s: string): Token { Token(kind, s, |s|) }

  function Plain(kind: TokenType): Token { Token(kind, "", 0) }

  predicate IsBlank(c: char) { c == ' ' || c == '\t' }

  predicate IsSymbol(c: char) { c == ';' || c == '|' || c == '<' || c == '>' }

  predicate IsSpecial(c: char) { IsBlank(c) || IsSymbol(c) || c == '\n' || c == '"' || c == '\'' }

  function DropBlanks(s: string): (r: string)
    ensures |r| <= |s| && (Line(s) ==> Line(r) && !IsBlank(r[0]))
  {
    if s != "" && IsBlank(s[0]) then DropBlanks(s[1..]) else s
  }

  function Symbol(s: string): (r: Lexeme)
    requires Line(s) && IsSymbol(s[0])
    ensures Line(r.rest) && |r.rest| < |s| && !r.quoted
  {
    if s[0] == ';' then Lexeme(Plain(Semicolon), s[1..], false)
    else if s[0] == '|' then Lexeme(Plain(Pipe), s[1..], false)
    else if s[0] == '<' then
      if s[1] == '<' then Lexeme(Plain(HereDocument), s[2..], false) else Lexeme(Plain(Input), s[1..], false)
    else
      if s[1] == '>' then Lexeme(Token(Appending, "", 1), s[2..], false)
          else Lexeme(Token(Output, "", 1), s[1..], false)
  }

  /** Inside double quotes only these characters are escaped by a backslash; the terminating NUL of
      the table counts, too. */
  predicate IsQuotable(c: char) { c == '$' || c == '"' || c == '\'' || c == '\\' || c == '`' || c == '\0' }

  /** A backslash and what it escapes; a backslash that escapes nothing stands for itself. */
  function Escape(s: string, quoted: bool): (r: Lexeme)
    requires Line(s) && s[0] == '\\'
    ensures Line(r.rest) && |r.rest| < |s| && r.quoted == quoted
  {
    if s[1] != '\n' && (!quoted || IsQuotable(s[1])) then Lexeme(Text(NonExpandable, s[1..2]), s[2..], quoted)
    else Lexeme(Text(NonExpandable, "\\"), s[1..], quoted)
  }

  /** A word ends before a backslash, a special character or a "$" that is not its first. */
  predicate EndsWord(c: char, pos: nat) { c == '\\' || IsSpecial(c) || (c == '$' && pos > 0) }

  predicate EndsQuoted(c: char, pos: nat) { c == '\\' || c == '"' || c == '\n' || (c == '$' && pos > 0) }

  predicate EndsSingle(c: char) { c == '\'' || c == '\n' }

  function WordEnd(s: string, pos: nat): (n: nat)
    requires Line(s) && pos < |s|
    ensures pos <= n < |s| && EndsWord(s[n], n) && Line(s[n..])
    ensures forall k :: pos <= k < n ==> !EndsWord(s[k], k)
    decreases |s| - pos
  {
    if EndsWord(s[pos], pos) then pos else WordEnd(s, pos + 1)
  }

  function QuotedEnd(s: string, pos: nat): (n: nat)
    requires Line(s) && pos < |s|
    ensures pos <= n < |s| && EndsQuoted(s[n], n) && Line(s[n..])
    ensures forall k :: pos <= k < n ==> !EndsQuoted(s[k], k)
    decreases |s| - pos
  {
    if EndsQuoted(s[pos], pos) then pos else QuotedEnd(s, pos + 1)
  }

  function SingleEnd(s: string, pos: nat): (n: nat)
    requires Line(s) && pos < |s|
    ensures pos <= n < |s| && EndsSingle(s[n]) && Line(s[n..])
    ensures forall k :: pos <= k < n ==> !EndsSingle(s[k])
    decreases |s| - pos
  {
    if EndsSingle(s[pos]) then pos else SingleEnd(s, pos + 1)
  }

  function Word(s: string): (r: Lexeme)
    requires Line(s) && !IsSpecial(s[0])
    ensures Line(r.rest) && |r.rest| < |s| && !r.quoted && r.token.length == |r.token.text|
  {
    if s[0] == '\\' then Escape(s, false)
    else var n := WordEnd(s, 0); Lexeme(Text(Expandable, s[..n]), s[n..], false)
  }

  predicate AllDigits(s: string) { forall c <- s :: IsDigit(c) }

  function Decimal(s: string): nat
    requires AllDigits(s)
  {
    if s == "" then 0
    else
      assert s[|s| - 1] in s;
      Decimal(s[..|s| - 1]) * 10 + (s[|s| - 1] as int - '0' as int)
  }

  /** A number of at most ten digits that fits into an int. */
  predicate IsDescriptor(s: string) { AllDigits(s) && |s| <= 10 && Decimal(s) <= INT_MAX }

  /** Digits right before "<" or ">" are the file descriptor of the redirection. */
  function WithDescriptor(l: Lexeme): (r: Lexeme)
    requires Line(l.rest) && !l.quoted
    ensures Line(r.rest) && |r.rest| <= |l.rest| && !r.quoted
  {
    if IsDescriptor(l.token.text) && (l.rest[0] == '<' || l.rest[0] == '>') then
      var r := Symbol(l.rest);
      r.(token := r.token.(length := Decimal(l.token.text)))
    else l
  }

  function DoubleQuoted(s: string): (r: Lexeme)
    requires Line(s)
    ensures Line(r.rest) && (|r.rest| < |s| || (r.rest == s && !r.quoted))
  {
    if s[0] == '\\' then Escape(s, true)
    else
      var n := QuotedEnd(s, 0);
      if s[n] == '"' then Lexeme(Text(ExpandableQuoted, s[..n]), s[n + 1..], false)
      else if s[n] == '\n' then Lexeme(Plain(ParseError), s[n..], false)
      else Lexeme(Text(ExpandableQuoted, s[..n]), s[n..], true)
  }

  function SingleQuoted(s: string): (r: Lexeme)
    requires Line(s)
    ensures Line(r.rest) && |r.rest| <= |s| && !r.quoted
  {
    var n := SingleEnd(s, 0);
    if s[n] == '\'' then Lexeme(Text(NonExpandable, s[..n]), s[n + 1..], false)
    else Lexeme(Plain(ParseError), s[n..], false)
  }

  /** The next token of a line. Either the line gets shorter, or it stays and double quotes end. */
  function Next(s: string, quoted: bool): (r: Lexeme)
    requires Line(s)
    ensures |r.rest| < |s| || (r.rest == s && quoted && !r.quoted)
    ensures r.token.kind != Newline ==> Line(r.rest)
  {
    if quoted then DoubleQuoted(s)
    else if IsBlank(s[0]) then Lexeme(Plain(Space), DropBlanks(s[1..]), false)
    else if s[0] == '\n' then Lexeme(Plain(Newline), s[1..], false)
    else if IsSymbol(s[0]) then Symbol(s)
    else if s[0] == '"' then DoubleQuoted(s[1..])
    else if s[0] == '\'' then SingleQuoted(s[1..])
    else WithDescriptor(Word(s))
  }

  /** What the parser gets to see of a line. */
  function Tokens(s: string, quoted: bool): (ts: seq<Token>)
    requires Line(s)
    ensures Ended(ts)
    decreases |s|, quoted
  {
    var l := Next(s, quoted);
    if IsStop(l.token) then [l.token] else [l.token] + Tokens(l.rest, l.quoted)
  }

  // ---- the rest of a line ----

  predicate IsSuffix(r: string, s: string) { |r| <= |s| && s[|s| - |r|..] == r }

  lemma SuffixTrans(a: string, b: string, c: string)
    requires IsSuffix(a, b) && IsSuffix(b, c)
    ensures IsSuffix(a, c)
  {
    assert b[|b| - |a|..] == c[|c| - |b|..][|b| - |a|..] == c[|c| - |a|..];
  }

  lemma DropSuffix(s: string, k: nat)
    requires k <= |s|
    ensures IsSuffix(s[k..], s)
  {
  }

  lemma {:induction false} BlanksSuffix(s: string)
    ensures IsSuffix(DropBlanks(s), s)
    decreases |s|
  {
    hide IsSuffix;
    DropSuffix(s, 0);
    assert s[0..] == s;
    if s != "" && IsBlank(s[0]) {
      BlanksSuffix(s[1..]);
      DropSuffix(s, 1);
      SuffixTrans(DropBlanks(s[1..]), s[1..], s);
    }
  }

  lemma SymbolSuffix(s: string)
    requires Line(s) && IsSymbol(s[0])
    ensures IsSuffix(Symbol(s).rest, s)
  {
    hide IsSuffix;
    DropSuffix(s, 1);
    if |s| > 1 { DropSuffix(s, 2); }
  }

  lemma WordSuffix(s: string)
    requires Line(s) && !IsSpecial(s[0])
    ensures IsSuffix(Word(s).rest, s)
  {
    hide IsSuffix, WordEnd;
    if s[0] == '\\' {
      DropSuffix(s, 1);
      if |s| > 1 { DropSuffix(s, 2); }
    } else {
      DropSuffix(s, WordEnd(s, 0));
    }
  }

  lemma DoubleQuotedSuffix(s: string)
    requires Line(s)
    ensures IsSuffix(DoubleQuoted(s).rest, s)
  {
    hide IsSuffix, QuotedEnd;
    if s[0] == '\\' {
      DropSuffix(s, 1);
      if |s| > 1 { DropSuffix(s, 2); }
    } else {
      DropSuffix(s, QuotedEnd(s, 0));
      DropSuffix(s, QuotedEnd(s, 0) + 1);
    }
  }

  lemma SingleQuotedSuffix(s: string)
    requires Line(s)
    ensures IsSuffix(SingleQuoted(s).rest, s)
  {
    hide IsSuffix, SingleEnd;
    DropSuffix(s, SingleEnd(s, 0));
    DropSuffix(s, SingleEnd(s, 0) + 1);
  }

  /** The lexer goes through the line from left to right: what is left is always an end of it. */
  lemma NextSuffix(s: string, quoted: bool)
    requires Line(s)
    ensures IsSuffix(Next(s, quoted).rest, s)
  {
    hide IsSuffix, Line, DropBlanks, Symbol, Word, DoubleQuoted, SingleQuoted;
    NonEmpty(s);
    DropSuffix(s, 1);
    if quoted {
      DoubleQuotedSuffix(s);
    } else if IsBlank(s[0]) {
      BlanksSuffix(s[1..]);
      SuffixTrans(DropBlanks(s[1..]), s[1..], s);
    } else if s[0] == '\n' {
    } else if IsSymbol(s[0]) {
      SymbolSuffix(s);
    } else if s[0] == '"' {
      LineTail(s, 1);
      DoubleQuotedSuffix(s[1..]);
      SuffixTrans(DoubleQuoted(s[1..]).rest, s[1..], s);
    } else if s[0] == '\'' {
      LineTail(s, 1);
      SingleQuotedSuffix(s[1..]);
      SuffixTrans(SingleQuoted(s[1..]).rest, s[1..], s);
    } else {
      WordSuffix(s);
      var w := Word(s);
      NonEmpty(w.rest);
      if IsDescriptor(w.token.text) && (w.rest[0] == '<' || w.rest[0] == '>') {
        SymbolSuffix(w.rest);
        SuffixTrans(Symbol(w.rest).rest, w.rest, s);
      }
    }
  }

  lemma NonEmpty(s: string)
    requires Line(s)
    ensures |s| > 0 && (s[0] != '\n' ==> |s| > 1)
  {
  }

  lemma LineTail(s: string, k: nat)
    requires Line(s) && k < |s|
    ensures Line(s[k..])
  {
  }

  lemma LineAppend(a: string, s: string)
    requires Line(s) && '\U{ff}' !in a
    ensures Line(a + s)
  {
  }

  // ---- descriptors ----

  lemma {:induction false} DecimalBound(s: string)
    requires AllDigits(s)
    ensures Decimal(s) < Power10(|s|)
    decreases |s|
  {
    if s != "" {
      assert s[|s| - 1] in s;
      DecimalBound(s[..|s| - 1]);
    }
  }

  function Power10(n: nat): nat { if n == 0 then 1 else 10 * Power10(n - 1) }

  /** Of two numbers with equally many digits, the first different digit decides. */
  lemma {:induction false} FirstDifference(a: string, b: string, i: nat)
    requires AllDigits(a) && AllDigits(b) && i < |a| == |b|
    requires a[..i] == b[..i] && a[i] > b[i]
    ensures Decimal(a) > Decimal(b)
    decreases |a|
  {
    var n := |a| - 1;
    assert a[n] in a && b[n] in b;
    var p, q := a[..n], b[..n];
    if i < n {
      assert p[..i] == a[..i] && q[..i] == b[..i];
      FirstDifference(p, q, i);
    }
  }

  // ---- quoting ----

  /** Every character of w behind a backslash. */
  function Backslashed(w: string): string {
    if w == "" then "" else "\\" + w[..1] + Backslashed(w[1..])
  }

  function Letters(w: string): seq<Token> {
    if w == "" then [] else [Text(NonExpandable, w[..1])] + Letters(w[1..])
  }

  /** An escaped character is read as itself, unless it is a digit right before "<" or ">". */
  lemma BackslashNext(c: char, tail: string)
    requires Line(tail) && c != '\n' && c != '\U{ff}'
    ensures var s := ['\\', c] + tail;
            && Line(s)
            && (Next(s, false) == Lexeme(Text(NonExpandable, [c]), tail, false) <==>
                  !(IsDigit(c) && (tail[0] == '<' || tail[0] == '>')))
  {
    var s := ['\\', c] + tail;
    LineAppend(['\\', c], tail);
    hide Line;
    assert s[1..2] == [c] && s[2..] == tail;
    assert Word(s) == Lexeme(Text(NonExpandable, [c]), tail, false);
    if IsDigit(c) {
      assert [c][..0] == "" && [c][0] == c;
      assert Decimal([c]) == c as int - '0' as int;
    } else {
      assert c in [c];
    }
  }

  lemma TokensStep(s: string)
    requires Line(s) && IsText(Next(s, false).token) && !Next(s, false).quoted
    ensures var l := Next(s, false); Line(l.rest) && Tokens(s, false) == [l.token] + Tokens(l.rest, false)
  {
    hide Next;
  }

  /** Quoting by backslashes is safe: every character comes back as itself, and none of them is
      expanded, splits a word or is an operator. */
  lemma {:induction false} BackslashedReadsBack(w: string, rest: string)
    requires Line(rest) && '\n' !in w && '\U{ff}' !in w && rest[0] != '<' && rest[0] != '>'
    ensures Line(Backslashed(w) + rest) && Tokens(Backslashed(w) + rest, false) == Letters(w) + Tokens(rest, false)
    decreases |w|
  {
    hide Line, Next, Tokens;
    NonEmpty(rest);
    if w == "" {
      assert Backslashed(w) + rest == rest && Letters(w) + Tokens(rest, false) == Tokens(rest, false);
    } else {
      var tail := Backslashed(w[1..]) + rest;
      var s := Backslashed(w) + rest;
      BackslashedReadsBack(w[1..], rest);
      BackslashedHead(w[1..], rest);
      assert w[0] in w && w[..1] == [w[0]];
      BackslashNext(w[0], tail);
      assert s == ['\\', w[0]] + tail;
      TokensStep(s);
      var t := Text(NonExpandable, w[..1]);
      assert Letters(w) == [t] + Letters(w[1..]);
      assert Tokens(s, false) == [t] + (Letters(w[1..]) + Tokens(rest, false));
    }
  }

  lemma BackslashedHead(w: string, rest: string)
    requires rest != "" && rest[0] != '<' && rest[0] != '>'
    ensures var s := Backslashed(w) + rest; s[0] != '<' && s[0] != '>'
  {
  }

  lemma {:induction false} LettersText(w: string)
    ensures |Letters(w)| == |w| && forall k :: 0 <= k < |w| ==> IsText(Letters(w)[k])
    decreases |w|
  {
    if w != "" { LettersText(w[1..]); }
  }

  lemma RunIs(ts: seq<Token>, n: nat)
    requires Ended(ts) && n < |ts| && !IsText(ts[n]) && forall k :: 0 <= k < n ==> IsText(ts[k])
    ensures Run(ts) == n
  {
    if Run(ts) != n { assert false; }
  }

  /** Single quotes: anything but a newline and the quote itself comes back in one token. */
  lemma SingleQuotedReadsBack(w: string, rest: string)
    requires Line(rest) && '\n' !in w && '\'' !in w && '\U{ff}' !in w
    ensures Line("'" + w + "'" + rest)
            && Next("'" + w + "'" + rest, false) == Lexeme(Text(NonExpandable, w), rest, false)
  {
    var s := "'" + w + "'" + rest;
    LineAppend("'" + w + "'", rest);
    LineTail(s, 1);
    SingleQuotedBody(w, rest);
    hide Line, DropBlanks, Symbol, Word, DoubleQuoted, SingleQuoted;
    assert s[1..] == w + "'" + rest;
  }

  lemma SingleQuotedBody(w: string, rest: string)
    requires Line(w + "'" + rest) && '\n' !in w && '\'' !in w
    ensures SingleQuoted(w + "'" + rest) == Lexeme(Text(NonExpandable, w), rest, false)
  {
    hide Line;
    var t := w + "'" + rest;
    NonEmpty(t);
    assert forall k :: 0 <= k < |w| ==> t[k] == w[k] && w[k] in w;
    assert t[|w|] == '\'';
    var n := SingleEnd(t, 0);
    if n != |w| { assert false; }
    assert t[..n] == w && t[n + 1..] == rest;
  }

  /** The one exception of the backslash: an escaped digit before a redirection is not a word but
      its file descriptor, because lex_check_redirection_with_fd only looks at the text. */
  lemma EscapedDigitIsDescriptor()
    ensures Line("\\2>x\n") && Next("\\2>x\n", false) == Lexeme(Token(Output, "", 2), "x\n", false)
  {
    var s := "\\2>x\n";
    assert s[1..2] == "2" && s[2..] == ">x\n" && ">x\n"[1..] == "x\n";
    assert "2"[..0] == "" && Decimal("2") == 2;
    assert Word(s) == Lexeme(Text(NonExpandable, "2"), ">x\n", false);
  }
}
