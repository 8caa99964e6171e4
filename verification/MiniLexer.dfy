/** The lexer of minishell (42-minishell/lexer1.c to lexer4.c), which moves a position through a
    buffer and writes into a growing token text. */
module MiniLexer {
  import opened CStrings
  import opened G = MiniGrammar
  import opened N = MiniNumbers
  import opened T = MiniTokens

  datatype LexState = Normal | InSingleQuotes | InDoubleQuotes

  /** t_token; max_length is the length of the text buffer. */
  class TokenBuffer {
    var text: array<char>
    var length: int
    var kind: TokenType

    /** lex_init_token */
    constructor ()
      ensures text.Length > 0 && fresh(text)
    {
      text := new char[1024](_ => '\0');
      length, kind := 0, ParseError;
    }

    /** What the parser looks at. */
    ghost function View(): Token
      reads this, text
    {
      if (kind == Expandable || kind == NonExpandable || kind == ExpandableQuoted) && 0 <= length <= text.Length then
        Text(kind, text[..length])
      else
        Token(kind, "", if RedirectionKind(kind) then length else 0)
    }

    /** lex_expand_text_buf */
    method Expand()
      requires text.Length > 0
      modifies this`text
      ensures fresh(text) && text.Length == 2 * old(text.Length) && text[..old(text.Length)] == old(text[..])
    {
      var bigger := new char[text.Length * 2](_ => '\0');
      var i := 0;
      while i < text.Length
        invariant 0 <= i <= text.Length && bigger[..i] == text[..i] && text == old(text)
        modifies bigger
      {
        bigger[i] := text[i];
        i := i + 1;
      }
      assert text[..i] == text[..];
      text := bigger;
    }

    /** Writes one more character; there is always room left for another one. */
    method Put(pos: int, ch: char) returns (next: int)
      requires 0 <= pos < text.Length
      modifies this`text, text
      ensures next == pos + 1 < text.Length && text[..next] == old(text[..pos]) + [ch]
      ensures text == old(text) || fresh(text)
    {
      text[pos] := ch;
      next := pos + 1;
      assert text[..next] == text[..pos] + [ch];
      if next == text.Length {
        Expand();
      }
    }
  }

  /** One character further into what was left of the buffer at some time. */
  lemma ReadStep(buffer: string, start: nat, pos: nat)
    requires Line(buffer) && start + pos < |buffer|
    ensures var s := buffer[start..];
            && buffer[start + pos] == s[pos] && s[..pos + 1] == s[..pos] + [s[pos]]
            && (s[pos] != '\n' ==> pos + 1 < |s|) && s[pos] != '\U{ff}'
            && Line(s) && Line(s[pos..])
  {
    assert buffer[start + pos] in buffer;
  }

  lemma Slices(buffer: string, start: nat, pos: nat)
    requires start + pos <= |buffer|
    ensures buffer[start..][pos..] == buffer[start + pos..]
  {
  }

  lemma WordStep(s: string, pos: nat)
    requires Line(s) && pos < |s| && (s[pos] != '\n' ==> pos + 1 < |s|)
    ensures if EndsWord(s[pos], pos) then WordEnd(s, pos) == pos
            else s[pos] != '\n' && WordEnd(s, pos) == WordEnd(s, pos + 1)
  {
  }

  lemma DoubleQuotedStep(s: string, pos: nat)
    requires Line(s) && pos < |s| && (s[pos] != '\n' ==> pos + 1 < |s|)
    ensures if s[pos] == '\\' || s[pos] == '"' || s[pos] == '\n' || (s[pos] == '$' && pos > 0)
            then QuotedEnd(s, pos) == pos
            else QuotedEnd(s, pos) == QuotedEnd(s, pos + 1)
  {
  }

  lemma SingleQuotedStep(s: string, pos: nat)
    requires Line(s) && pos < |s| && (s[pos] != '\n' ==> pos + 1 < |s|)
    ensures if s[pos] == '\'' || s[pos] == '\n' then SingleEnd(s, pos) == pos
            else SingleEnd(s, pos) == SingleEnd(s, pos + 1)
  {
  }

  lemma EscapeText(s: string)
    requires Line(s) && s[0] == '\\'
    ensures T.Escape(s, false).token.kind == NonExpandable
  {
  }

  /** EOF is -1, and so is the byte 0xFF as a signed char. */
  class Buffer {
    const buffer: string
    var curPos: int
    var lexStat: LexState

    constructor (line: string)
      requires Line(line)
      ensures Valid() && Rest() == line && lexStat == Normal
    {
      buffer, curPos, lexStat := line, 0, Normal;
      new;
      assert line[0..] == line;
    }

    ghost predicate Valid()
      reads this
    {
      Line(buffer) && 0 <= curPos <= |buffer|
    }

    /** What has not been read yet. */
    ghost function Rest(): string
      reads this
      requires Valid()
    {
      buffer[curPos..]
    }

    ghost predicate At(l: T.Lexeme, quoted: LexState)
      reads this
    {
      Valid() && Rest() == l.rest && lexStat == if l.quoted then InDoubleQuotes else quoted
    }

    /** lex_getc */
    method GetC() returns (ch: Option<char>)
      requires Valid()
      modifies `curPos
      ensures Valid()
      ensures if old(curPos) == |buffer| then ch == None && curPos == old(curPos)
              else ch == Some(buffer[old(curPos)]) && curPos == old(curPos) + 1
    {
      if curPos == |buffer| { return None; }
      var c := buffer[curPos];
      assert c in buffer;
      curPos := curPos + 1;
      return if c == '\U{ff}' then None else Some(c);
    }

    /** lex_ungetc */
    method UngetC()
      requires Valid()
      modifies `curPos
      ensures curPos == old(curPos) - 1 && (Valid() <==> old(curPos) > 0)
    {
      curPos := curPos - 1;
    }

    /** lex_get_spaces */
    method GetSpaces(result: TokenBuffer, ch: Option<char>) returns (found: bool)
      requires Valid()
      requires ch.Some? && IsBlank(ch.value) ==> Line(Rest())
      modifies `curPos, result`kind
      ensures Valid() && found == (ch.Some? && (IsBlank(ch.value) || ch.value == '\n'))
      ensures !found ==> Rest() == old(Rest()) && result.kind == old(result.kind)
      ensures found && IsBlank(ch.value) ==> result.kind == Space && Rest() == DropBlanks(old(Rest()))
      ensures found && !IsBlank(ch.value) ==> result.kind == Newline && Rest() == old(Rest())
    {
      if ch.Some? && IsBlank(ch.value) {
        while true
          invariant Valid() && Line(Rest()) && DropBlanks(Rest()) == DropBlanks(old(Rest()))
          decreases |buffer| - curPos
        {
          var c := GetC();
          if c.None? || !IsBlank(c.value) {
            if c.Some? { UngetC(); }
            result.kind := Space;
            break;
          }
        }
        return true;
      } else if ch == Some('\n') {
        result.kind := Newline;
        return true;
      }
      return false;
    }

    /** lex_get_lt_gt */
    method GetLtGt(result: TokenBuffer, c: char)
      requires Valid() && curPos > 0 && Line(Rest()) && (c == '<' || c == '>') && buffer[curPos - 1] == c
      modifies `curPos, result`kind, result`length
      ensures var l := Symbol([c] + old(Rest()));
              Valid() && Rest() == l.rest && result.kind == l.token.kind && result.length == l.token.length
    {
      hide Symbol, Line;
      DoubledSymbol(c, Rest());
      Slices(buffer, curPos, 1);
      if c == '<' {
        var ch := GetC();
        if ch == Some('<') {
          result.kind := HereDocument;
        } else {
          UngetC();
          result.kind := Input;
        }
        result.length := 0;
      } else {
        var ch := GetC();
        if ch == Some('>') {
          result.kind := Appending;
        } else {
          result.kind := Output;
          if ch != None { UngetC(); }
        }
        result.length := 1;
      }
    }

    /** lex_get_symbols */
    method GetSymbols(result: TokenBuffer, ch: Option<char>) returns (found: bool)
      requires Valid() && curPos > 0
      requires ch.Some? && IsSymbol(ch.value) ==> Line(Rest()) && buffer[curPos - 1] == ch.value
      modifies `curPos, result`kind, result`length
      ensures Valid() && found == (ch.Some? && IsSymbol(ch.value))
      ensures !found ==> Rest() == old(Rest()) && result.kind == old(result.kind) && result.length == old(result.length)
      ensures found ==>
                var l := Symbol([ch.value] + old(Rest()));
                Rest() == l.rest && result.kind == l.token.kind
                    && (RedirectionKind(result.kind) ==> result.length == l.token.length)
    {
      if ch == Some(';') {
        result.kind := Semicolon;
      } else if ch == Some('|') {
        result.kind := Pipe;
      } else if ch == Some('<') || ch == Some('>') {
        GetLtGt(result, ch.value);
      } else {
        return false;
      }
      return true;
    }

    /** lex_escaped: in double quotes a backslash only escapes some characters. */
    method Escaped(result: TokenBuffer) returns (found: bool)
      requires Valid() && Line(Rest()) && result.text.Length > 0 && lexStat != InSingleQuotes
      modifies `curPos, result, result.text
      ensures Valid() && found == (old(Rest())[0] == '\\') && result.text == old(result.text)
      ensures !found ==> Rest() == old(Rest()) && result.kind == old(result.kind)
      ensures found ==>
                var l := Escape(old(Rest()), lexStat == InDoubleQuotes);
                Rest() == l.rest && result.View() == l.token && result.length == 1
    {
      ghost var s := Rest();
      var ch := GetC();
      if ch == Some('\\') {
        ch := GetC();
        var c := if ch.Some? then ch.value else '\U{ff}';
        if c != '\n' && (lexStat == Normal || (lexStat == InDoubleQuotes && IsQuotable(c))) {
          result.text[0] := c;
          result.length := 1;
          result.kind := NonExpandable;
          assert result.text[..1] == s[1..2];
          return true;
        }
        UngetC();
        result.text[0] := '\\';
        result.length := 1;
        result.kind := NonExpandable;
        assert result.text[..1] == "\\";
        return true;
      }
      UngetC();
      return false;
    }

    /** Lines are read into the text of a token from here on. */
    ghost predicate Reading(s: string, start: nat, pos: int, result: TokenBuffer)
      reads this, result, result.text
    {
      && Valid() && start <= |buffer| && s == buffer[start..] && Line(s)
      && 0 <= pos < |s| && curPos == start + pos
      && pos < result.text.Length && 1 < result.text.Length && result.text[..pos] == s[..pos]
    }

    /** The loop of lex_read_word. */
    method CopyWord(result: TokenBuffer) returns (pos: int)
      requires Valid() && Line(Rest()) && result.text.Length > 1
      modifies `curPos, result`text, result.text
      ensures Reading(old(Rest()), old(curPos), pos, result) && pos == WordEnd(old(Rest()), 0)
      ensures result.text == old(result.text) || fresh(result.text)
    {
      hide Line, WordEnd;
      ghost var s, start := Rest(), curPos;
      NonEmpty(s);
      assert s == buffer[start..];
      hide Buffer.Rest, EndsWord;
      pos := 0;
      while true
        invariant Reading(s, start, pos, result) && WordEnd(s, 0) == WordEnd(s, pos)
        invariant result.text == old(result.text) || fresh(result.text)
        decreases |s| - pos
      {
        ReadStep(buffer, start, pos);
        WordStep(s, pos);
        var ch := GetC();
        if ch == None { break; }
        if EndsWord(ch.value, pos) {
          UngetC();
          break;
        }
        pos := result.Put(pos, ch.value);
      }
    }

    /** lex_read_word */
    method ReadWord(result: TokenBuffer)
      requires Valid() && Line(Rest()) && !IsSpecial(Rest()[0]) && result.text.Length > 1
      requires lexStat == Normal && result.kind == Expandable
      modifies `curPos, result, result.text
      ensures At(T.Word(old(Rest())), Normal) && result.View() == T.Word(old(Rest())).token
      ensures 0 <= result.length < result.text.Length && 1 < result.text.Length && IsText(result.View())
      ensures result.text == old(result.text) || fresh(result.text)
    {
      hide Line, WordEnd, T.Escape;
      ghost var s, start := Rest(), curPos;
      var found := Escaped(result);
      if found {
        assert result.View().kind == NonExpandable by { EscapeText(s); }
        return;
      }
      var pos := CopyWord(result);
      result.length := pos;
      Slices(buffer, start, pos);
    }

    /** The loop of lex_read_double_quoted: stops with the quoting state and the type set. */
    method CopyDoubleQuoted(result: TokenBuffer) returns (pos: int, ghost n: nat)
      requires Valid() && Line(Rest()) && result.text.Length > 1
      requires lexStat == InDoubleQuotes && result.kind == ExpandableQuoted
      modifies `curPos, `lexStat, result`text, result`kind, result.text
      ensures var s := old(Rest());
              && n == QuotedEnd(s, 0) && pos == n && Valid() && n < |s|
              && curPos == old(curPos) + n + (if s[n] == '"' then 1 else 0)
              && lexStat == (if s[n] == '"' || s[n] == '\n' then Normal else InDoubleQuotes)
              && result.kind == (if s[n] == '\n' then ParseError else ExpandableQuoted)
              && pos < result.text.Length && 1 < result.text.Length && result.text[..pos] == s[..pos]
      ensures result.text == old(result.text) || fresh(result.text)
    {
      hide Line, QuotedEnd;
      ghost var s, start := Rest(), curPos;
      NonEmpty(s);
      assert s == buffer[start..];
      hide Buffer.Rest, EndsQuoted;
      pos := 0;
      while true
        invariant Reading(s, start, pos, result) && QuotedEnd(s, 0) == QuotedEnd(s, pos)
        invariant lexStat == InDoubleQuotes && result.kind == ExpandableQuoted
        invariant result.text == old(result.text) || fresh(result.text)
        decreases |s| - pos
      {
        ReadStep(buffer, start, pos);
        DoubleQuotedStep(s, pos);
        n := pos;
        var ch := GetC();
        if ch == Some('"') || ch == Some('\n') || ch == None { lexStat := Normal; }
        if ch == Some('\n') || ch == None { result.kind := ParseError; }
        if ch == Some('\\') || ch == Some('\n') || ch == None || (ch == Some('$') && pos > 0) { UngetC(); }
        if ch == Some('\\') || ch == Some('"') || ch == Some('\n') || ch == None
            || (ch == Some('$') && pos > 0) { break; }
        pos := result.Put(pos, ch.value);
      }
    }

    /** lex_read_double_quoted */
    method ReadDoubleQuoted(result: TokenBuffer)
      requires Valid() && Line(Rest()) && result.text.Length > 1
      requires lexStat == InDoubleQuotes && result.kind == ExpandableQuoted
      modifies `curPos, `lexStat, result, result.text
      ensures At(DoubleQuoted(old(Rest())), Normal) && result.View() == DoubleQuoted(old(Rest())).token
      ensures result.text.Length > 1 && (result.text == old(result.text) || fresh(result.text))
    {
      hide Line, QuotedEnd, T.Escape;
      ghost var s, start := Rest(), curPos;
      var found := Escaped(result);
      if found { return; }
      var pos, n := CopyDoubleQuoted(result);
      result.length := pos;
      Slices(buffer, start, n);
      Slices(buffer, start, curPos - start);
    }

    /** The loop of lex_read_single_quoted. */
    method CopySingleQuoted(result: TokenBuffer) returns (pos: int, ghost n: nat)
      requires Valid() && Line(Rest()) && result.text.Length > 1
      requires lexStat == InSingleQuotes && result.kind == NonExpandable
      modifies `curPos, `lexStat, result`text, result`kind, result.text
      ensures var s := old(Rest());
              && n == SingleEnd(s, 0) && pos == n && Valid() && n < |s|
              && curPos == old(curPos) + n + (if s[n] == '\'' then 1 else 0)
              && lexStat == Normal
              && result.kind == (if s[n] == '\n' then ParseError else NonExpandable)
              && pos < result.text.Length && 1 < result.text.Length && result.text[..pos] == s[..pos]
      ensures result.text == old(result.text) || fresh(result.text)
    {
      hide Line, SingleEnd;
      ghost var s, start := Rest(), curPos;
      NonEmpty(s);
      assert s == buffer[start..];
      hide Buffer.Rest, EndsSingle;
      pos := 0;
      while true
        invariant Reading(s, start, pos, result) && SingleEnd(s, 0) == SingleEnd(s, pos)
        invariant lexStat == InSingleQuotes && result.kind == NonExpandable
        invariant result.text == old(result.text) || fresh(result.text)
        decreases |s| - pos
      {
        ReadStep(buffer, start, pos);
        SingleQuotedStep(s, pos);
        n := pos;
        var ch := GetC();
        if ch == Some('\'') || ch == Some('\n') || ch == None { lexStat := Normal; }
        if ch == Some('\n') || ch == None {
          result.kind := ParseError;
          UngetC();
        }
        if ch == Some('\'') || ch == Some('\n') || ch == None { break; }
        pos := result.Put(pos, ch.value);
      }
    }

    /** lex_read_single_quoted */
    method ReadSingleQuoted(result: TokenBuffer)
      requires Valid() && Line(Rest()) && result.text.Length > 1
      requires lexStat == InSingleQuotes && result.kind == NonExpandable
      modifies `curPos, `lexStat, result, result.text
      ensures At(SingleQuoted(old(Rest())), Normal) && result.View() == SingleQuoted(old(Rest())).token
      ensures result.text.Length > 1 && (result.text == old(result.text) || fresh(result.text))
    {
      hide Line, SingleEnd;
      ghost var s, start := Rest(), curPos;
      var pos, n := CopySingleQuoted(result);
      result.length := pos;
      Slices(buffer, start, n);
      Slices(buffer, start, curPos - start);
    }

    /** lex_get_quoted; the state is always the normal one here, so that parse_die is not called. */
    method GetQuoted(result: TokenBuffer, ch: Option<char>) returns (found: bool)
      requires Valid() && lexStat == Normal && result.text.Length > 1
      requires ch.Some? && (ch.value == '"' || ch.value == '\'') ==> Line(Rest())
      modifies `curPos, `lexStat, result, result.text
      ensures found == (ch.Some? && (ch.value == '"' || ch.value == '\''))
      ensures !found ==> Valid() && curPos == old(curPos) && lexStat == Normal && result.text == old(result.text)
      ensures found ==>
                var l := if ch.value == '"' then DoubleQuoted(old(Rest())) else SingleQuoted(old(Rest()));
                At(l, Normal) && result.View() == l.token
      ensures result.text.Length > 1 && (result.text == old(result.text) || fresh(result.text))
    {
      hide Line;
      if ch == Some('"') {
        lexStat := InDoubleQuotes;
        result.kind := ExpandableQuoted;
        ReadDoubleQuoted(result);
        return true;
      } else if ch == Some('\'') {
        lexStat := InSingleQuotes;
        result.kind := NonExpandable;
        ReadSingleQuoted(result);
        return true;
      }
      return false;
    }

    /** lex_check_redirection_with_fd */
    method CheckRedirectionWithFd(result: TokenBuffer)
      requires Valid() && Line(Rest()) && 0 <= result.length < result.text.Length && IsText(result.View())
      modifies `curPos, result, result.text
      ensures var r := WithDescriptor(T.Lexeme(old(result.View()), old(Rest()), false));
              Valid() && Rest() == r.rest && result.View() == r.token
      ensures result.text == old(result.text)
    {
      hide Symbol, Decimal, Line, AtoiResult, NumLength, Leading;
      ghost var t, rest := result.text[..result.length], Rest();
      NonEmpty(rest);
      Slices(buffer, curPos, 1);
      assert [rest[0]] + rest[1..] == rest;
      var i := 0;
      while i < result.length
        invariant 0 <= i <= result.length && forall k :: 0 <= k < i ==> IsDigit(result.text[k])
      {
        if !IsDigit(result.text[i]) {
          assert t[i] in t;
          return;
        }
        i := i + 1;
      }
      assert AllDigits(t);
      result.text[i] := '\0';
      assert result.text[..result.length] == t;
      var ch := GetC();
      var isRedirection := ch == Some('<') || ch == Some('>');
      if isRedirection {
        DescriptorFits(t);
        var overflow := IsIntOverflow(result.text[..i], 1);
        isRedirection := !overflow;
      }
      if isRedirection {
        DescriptorRead(t);
        var fd := Atoi(result.text[..i]);
        SymbolKind(rest);
        LineTail(rest, 1);
        var _ := GetSymbols(result, ch);
        result.length := fd;
      } else {
        UngetC();
      }
    }

    /** The token that starts the rest s of the line has been delivered. */
    ghost predicate Delivered(s: string, quoted: bool, result: TokenBuffer)
      reads this, result, result.text
      requires Line(s)
    {
      At(Next(s, quoted), Normal) && result.View() == Next(s, quoted).token && result.text.Length > 1
    }

    /** lex_get_token on blanks, newlines and operators; ch has been read. */
    method GetSpecial(result: TokenBuffer, ch: char, ghost s: string) returns (found: bool)
      requires Valid() && lexStat == Normal && curPos > 0 && buffer[curPos - 1] == ch && result.text.Length > 1
      requires Line(s) && s == [ch] + Rest()
      modifies `curPos, result`kind, result`length
      ensures found == (IsBlank(ch) || ch == '\n' || IsSymbol(ch))
      ensures if found then Delivered(s, false, result) else Valid() && curPos == old(curPos)
    {
      hide Line, DropBlanks, Symbol, Next;
      assert s[0] == ch && s[1..] == Rest();
      if ch != '\n' {
        NonEmpty(s);
        LineTail(s, 1);
      }
      NextSpecial(s);
      found := GetSpaces(result, Some(ch));
      if found { return; }
      found := GetSymbols(result, Some(ch));
      if found { SymbolKind(s); }
    }

    /** lex_get_token where a word starts. */
    method GetWord(result: TokenBuffer, ghost s: string)
      requires Valid() && lexStat == Normal && result.text.Length > 1
      requires s == Rest() && Line(s) && !IsSpecial(s[0])
      modifies `curPos, result, result.text
      ensures Delivered(s, false, result) && (result.text == old(result.text) || fresh(result.text))
    {
      hide Line, T.Word, WithDescriptor, Next;
      NextWord(s);
      result.kind := Expandable;
      ReadWord(result);
      CheckRedirectionWithFd(result);
    }

    /** lex_get_token. One call reads one token, never leaves the line and never ends inside single
        quotes. */
    method GetToken(result: TokenBuffer)
      requires Valid() && Line(Rest()) && lexStat != InSingleQuotes && result.text.Length > 1
      modifies `curPos, `lexStat, result, result.text
      ensures Delivered(old(Rest()), old(lexStat) == InDoubleQuotes, result)
      ensures curPos > old(curPos) || (curPos == old(curPos) && old(lexStat) == InDoubleQuotes && lexStat == Normal)
      ensures result.text == old(result.text) || fresh(result.text)
    {
      hide Line, DoubleQuoted, SingleQuoted, Next;
      ghost var s := Rest();
      NonEmpty(s);
      if lexStat == Normal {
        Slices(buffer, curPos, 1);
        assert [s[0]] + s[1..] == s;
        var ch := GetC();
        var found := GetSpecial(result, ch.value, s);
        if found { return; }
        LineTail(s, 1);
        NextQuoted(s);
        found := GetQuoted(result, ch);
        if found { return; }
        found := GetEof(result, ch);
        if found { return; }
        UngetC();
        GetWord(result, s);
        return;
      }
      NextInside(s);
      result.kind := ExpandableQuoted;
      ReadDoubleQuoted(result);
    }
  }

  // ---- the cases of Next ----

  lemma NextSpecial(s: string)
    requires Line(s)
    ensures IsBlank(s[0]) ==> Next(s, false) == T.Lexeme(T.Plain(Space), DropBlanks(s[1..]), false)
    ensures s[0] == '\n' ==> Next(s, false) == T.Lexeme(T.Plain(Newline), s[1..], false)
    ensures IsSymbol(s[0]) ==> Next(s, false) == Symbol(s)
  {
  }

  lemma NextQuoted(s: string)
    requires Line(s) && (s[0] == '"' || s[0] == '\'' ==> Line(s[1..]))
    ensures s[0] == '"' ==> Next(s, false) == DoubleQuoted(s[1..])
    ensures s[0] == '\'' ==> Next(s, false) == SingleQuoted(s[1..])
  {
  }

  lemma NextWord(s: string)
    requires Line(s) && !IsSpecial(s[0])
    ensures Next(s, false) == WithDescriptor(T.Word(s))
  {
  }

  lemma NextInside(s: string)
    requires Line(s)
    ensures Next(s, true) == DoubleQuoted(s)
  {
  }

  /** lex_get_eof */
  method GetEof(result: TokenBuffer, ch: Option<char>) returns (found: bool)
    modifies result`kind
    ensures found == ch.None? && result.kind == if found then EndOfInput else old(result.kind)
  {
    if ch == None {
      result.kind := EndOfInput;
      return true;
    }
    return false;
  }

  /** "<" and ">" by what follows them. */
  lemma DoubledSymbol(c: char, rest: string)
    requires Line(rest) && (c == '<' || c == '>')
    ensures Line([c] + rest) && rest != ""
    ensures var l := Symbol([c] + rest);
            && l.rest == (if rest[0] == c then rest[1..] else rest)
            && l.token.kind == (if c == '<' then if rest[0] == c then HereDocument else Input
                                else if rest[0] == c then Appending else Output)
            && l.token.length == if c == '<' then 0 else 1
  {
    var s := [c] + rest;
    LineAppend([c], rest);
    assert s[1..] == rest && s[2..] == rest[1..];
  }

  lemma SymbolKind(s: string)
    requires Line(s) && IsSymbol(s[0])
    ensures var t := Symbol(s).token;
            && t == Token(t.kind, "", if RedirectionKind(t.kind) then t.length else 0)
            && (RedirectionKind(t.kind) <==> s[0] == '<' || s[0] == '>')
            && !IsText(t)
  {
  }
}
