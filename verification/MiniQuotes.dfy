/** Double quotes in minishell: which characters a backslash escapes inside them, and that every text
    can be written in them. */
module MiniQuotes {
  import opened CStrings
  import opened G = MiniGrammar
  import opened T = MiniTokens

  /** Inside double quotes a backslash escapes "$", both quotes, the back quote, the backslash and NUL;
      before any other character it stands for itself, and the character comes next. */
  lemma BackslashInside(c: char, tail: string)
    requires Line(tail) && c != '\n' && c != '\U{ff}'
    ensures var s := ['\\', c] + tail;
            Line(s) && Line([c] + tail) &&
            Next(s, true) ==
              if c == '$' || c == '"' || c == '\'' || c == '`' || c == '\\' || c == '\0'
              then Lexeme(Token(NonExpandable, [c], 1), tail, true)
              else Lexeme(Token(NonExpandable, "\\", 1), [c] + tail, true)
  {
    var s := ['\\', c] + tail;
    LineAppend(['\\', c], tail);
    LineAppend([c], tail);
    hide Line;
    assert s[1..2] == [c] && s[2..] == tail && s[1..] == [c] + tail;
  }

  /** Characters that have to be escaped. */
  predicate Active(c: char) { c == '"' || c == '\\' || c == '$' || c == '`' }

  /** w as it is written inside double quotes. */
  function Escaped(w: string): string {
    if w == "" then ""
    else (if Active(w[0]) then ['\\', w[0]] else [w[0]]) + Escaped(w[1..])
  }

  function Texts(ts: seq<Token>): string {
    if ts == [] then "" else ts[0].text + Texts(ts[1..])
  }

  /** Pieces of a quoted text; in those that are expanded there is nothing to expand. */
  predicate Protected(ts: seq<Token>) {
    forall t <- ts :: t.kind == NonExpandable || (t.kind == ExpandableQuoted && '$' !in t.text && '`' !in t.text)
  }

  /** How many characters w starts with that need not be escaped. */
  function Passive(w: string): (n: nat)
    ensures n <= |w| && (n < |w| ==> Active(w[n])) && forall k :: 0 <= k < n ==> !Active(w[k])
  {
    if w == "" || Active(w[0]) then 0 else 1 + Passive(w[1..])
  }

  lemma {:induction false} EscapedPassive(w: string, n: nat)
    requires n <= |w| && forall k :: 0 <= k < n ==> !Active(w[k])
    ensures Escaped(w) == w[..n] + Escaped(w[n..])
    decreases n
  {
    if n == 0 {
      assert w[0..] == w;
    } else {
      EscapedPassive(w[1..], n - 1);
      assert w[1..][n - 1..] == w[n..] && w[..n] == [w[0]] + w[1..][..n - 1];
    }
  }

  lemma {:induction false} EscapedLine(w: string, rest: string)
    requires Line(rest) && '\n' !in w && '\U{ff}' !in w
    ensures Line(Escaped(w) + ("\"" + rest)) && '\n' !in Escaped(w)
  {
    if w == "" {
      LineAppend("\"", rest);
      assert "" + ("\"" + rest) == "\"" + rest;
    } else {
      EscapedLine(w[1..], rest);
      var u := if Active(w[0]) then ['\\', w[0]] else [w[0]];
      assert w[0] in w;
      LineAppend(u, Escaped(w[1..]) + ("\"" + rest));
      assert Escaped(w) + ("\"" + rest) == u + (Escaped(w[1..]) + ("\"" + rest));
    }
  }

  /** A run of passive characters is one piece; the quote behind it is taken with it. */
  lemma PassiveNext(p: string, tail: string)
    requires Line(p + tail) && Line(tail) && '\n' !in p && (forall k :: 0 <= k < |p| ==> !Active(p[k]))
    requires if p == "" then tail[0] == '"' else tail[0] == '"' || tail[0] == '\\'
    ensures Next(p + tail, true) ==
              if tail[0] == '"' then Lexeme(Text(ExpandableQuoted, p), tail[1..], false)
              else Lexeme(Text(ExpandableQuoted, p), tail, true)
  {
    hide Line;
    NonEmpty(tail);
    var s := p + tail;
    assert s[|p|] == tail[0] && s[..|p|] == p && s[|p|..] == tail && s[|p| + 1..] == tail[1..];
    forall k | 0 <= k < |p| ensures !EndsQuoted(s[k], k) { assert s[k] == p[k] && p[k] in p; }
    NonEmpty(s);
    var n := QuotedEnd(s, 0);
    assert n == |p|;
    assert s[0] != '\\';
  }

  lemma TokensOn(s: string, quoted: bool)
    requires Line(s) && IsText(Next(s, quoted).token)
    ensures var l := Next(s, quoted); Line(l.rest) && Tokens(s, quoted) == [l.token] + Tokens(l.rest, l.quoted)
  {
    hide Next;
  }

  /** One more piece in front. */
  lemma PieceInFront(s: string, l: Lexeme, more: seq<Token>, rest: string)
    requires Line(s) && Next(s, true) == l && IsText(l.token) && Line(l.rest) && Line(rest)
    requires Tokens(l.rest, l.quoted) == more + Tokens(rest, false) && Protected([l.token]) && Protected(more)
    ensures var pieces := [l.token] + more;
            Tokens(s, true) == pieces + Tokens(rest, false) && Protected(pieces)
            && Texts(pieces) == l.token.text + Texts(more)
  {
    hide Line, Next, Tokens;
    TokensOn(s, true);
    assert [l.token] + (more + Tokens(rest, false)) == [l.token] + more + Tokens(rest, false);
    assert l.token in [l.token] && ([l.token] + more)[1..] == more;
  }

  /** Inside the quotes, up to the closing one. */
  lemma {:induction false} QuotedTail(w: string, rest: string) returns (pieces: seq<Token>)
    requires Line(rest) && '\n' !in w && '\U{ff}' !in w
    ensures pieces != [] && Protected(pieces) && Texts(pieces) == w
    ensures var s := Escaped(w) + ("\"" + rest);
            Line(s) && Next(s, true).token == pieces[0] && Tokens(s, true) == pieces + Tokens(rest, false)
    decreases |w|
  {
    hide Line, Next, Tokens, Texts, Passive;
    var s := Escaped(w) + ("\"" + rest);
    EscapedLine(w, rest);
    if w != "" && Active(w[0]) {
      var tail := Escaped(w[1..]) + ("\"" + rest);
      var more := QuotedTail(w[1..], rest);
      assert w[0] in w;
      assert s == ['\\', w[0]] + tail;
      BackslashInside(w[0], tail);
      pieces := [Token(NonExpandable, [w[0]], 1)] + more;
      PieceInFront(s, Next(s, true), more, rest);
      assert [w[0]] + w[1..] == w;
    } else {
      var n := Passive(w);
      EscapedPassive(w, n);
      var tail := Escaped(w[n..]) + ("\"" + rest);
      assert s == w[..n] + tail;
      PassiveStarts(w);
      pieces := PassivePieces(w, n, rest, tail);
    }
  }

  lemma {:induction false} PassivePieces(w: string, n: nat, rest: string, tail: string) returns (pieces: seq<Token>)
    requires Line(rest) && '\n' !in w && '\U{ff}' !in w && n == Passive(w) && (w == "" || n > 0)
    requires tail == Escaped(w[n..]) + ("\"" + rest)
    ensures pieces != [] && Protected(pieces) && Texts(pieces) == w
    ensures var s := w[..n] + tail;
            Line(s) && Next(s, true).token == pieces[0] && Tokens(s, true) == pieces + Tokens(rest, false)
    decreases |w|, 0
  {
    hide Line, Next, Tokens, Escaped, Passive, Texts, Protected;
    var p, s := w[..n], w[..n] + tail;
    EscapedPassive(w, n);
    EscapedLine(w, rest);
    assert s == Escaped(w) + ("\"" + rest);
    EscapedLine(w[n..], rest);
    PassivePiece(w, n);
    EscapedStart(w[n..], rest);
    PassiveNext(p, tail);
    NoPieces();
    var l := Next(s, true);
    if n == |w| {
      assert w[n..] == "" && tail[1..] == rest && p == w && [] + Tokens(rest, false) == Tokens(rest, false);
      PieceInFront(s, l, [], rest);
      pieces := [l.token] + [];
      assert p + "" == w;
    } else {
      var more := QuotedTail(w[n..], rest);
      PieceInFront(s, l, more, rest);
      pieces := [l.token] + more;
      assert p + w[n..] == w;
    }
  }

  lemma PassiveStarts(w: string)
    ensures w == "" || Active(w[0]) || Passive(w) > 0
  {
  }

  lemma NoPieces()
    ensures Protected([]) && Texts([]) == ""
  {
  }

  lemma EscapedStart(w: string, rest: string)
    requires w == "" || Active(w[0])
    ensures var tail := Escaped(w) + ("\"" + rest);
            if w == "" then tail == "\"" + rest else tail[0] == '\\'
  {
  }

  lemma PassivePiece(w: string, n: nat)
    requires n <= |w| && '\n' !in w && forall k :: 0 <= k < n ==> !Active(w[k])
    ensures Protected([Text(ExpandableQuoted, w[..n])]) && '\n' !in w[..n]
    ensures forall k :: 0 <= k < n ==> !Active(w[..n][k])
  {
    var p := w[..n];
    forall c | c in p ensures c in w && !Active(c) {
      var k :| 0 <= k < n && p[k] == c;
      assert w[k] == c;
    }
  }

  /** Every text can be written in double quotes: with a backslash in front of each double quote,
      backslash, "$" and back quote, it is read as pieces whose texts, joined, are that text, and in
      which nothing is left to be expanded. */
  lemma DoubleQuotedReadsBack(w: string, rest: string) returns (pieces: seq<Token>)
    requires Line(rest) && '\n' !in w && '\U{ff}' !in w
    ensures var s := "\"" + Escaped(w) + "\"" + rest;
            Line(s) && Tokens(s, false) == pieces + Tokens(rest, false)
    ensures Protected(pieces) && Texts(pieces) == w
  {
    hide Line, Tokens, DropBlanks, IsDescriptor, DoubleQuoted, SingleQuoted, T.Word;
    var inside := Escaped(w) + ("\"" + rest);
    pieces := QuotedTail(w, rest);
    var s := "\"" + Escaped(w) + "\"" + rest;
    assert s == "\"" + inside && s[1..] == inside;
    LineAppend("\"", inside);
    assert Next(s, false) == DoubleQuoted(inside) == Next(inside, true);
    assert IsText(pieces[0]) by { assert pieces[0] in pieces; }
    TokensOn(s, false);
    TokensOn(inside, true);
  }
}
