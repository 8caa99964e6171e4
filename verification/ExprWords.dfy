/** Arithmetic expressions as they are written: every tree of the grammar, with its tokens spelled out
    and blanks between them, is read back as itself. */
module ExprWords {
  import opened CStrings
  import opened Int64
  import opened Literals
  import opened ExprLex
  import opened ExprGrammar
  import opened ExprUnambiguous
  import opened ExprSemantics
  import opened ExprRejected

  // ---- spelling ----

  /** How an operator is written. */
  function Spelling(k: Kind): string {
    match k
    case Eq => "="
    case Ques => "?"
    case Col => ":"
    case Comma => ","
    case LPar => "("
    case RPar => ")"
    case Not => "!"
    case BNot => "~"
    case LOr => "||"
    case LAnd => "&&"
    case BOr => "|"
    case BXor => "^"
    case BAnd => "&"
    case EqEq => "=="
    case Neq => "!="
    case Leq => "<="
    case Geq => ">="
    case Lt => "<"
    case Gt => ">"
    case LSh => "<<"
    case RSh => ">>"
    case Plus => "+"
    case Minus => "-"
    case Mul => "*"
    case Div => "/"
    case Mod => "%"
    case Power => "**"
    case PreInc => "++"
    case PreDec => "--"
    case PostInc => "++"
    case PostDec => "--"
    case _ => ""
  }

  /** v modulo 2^64, as a number that is not negative. */
  function Unsigned(v: int64): (n: nat)
    ensures n == v || n == v + TWO_64
  {
    if v >= 0 then v else v + TWO_64
  }

  function Spelled(t: Token): string {
    match t
    case Id(x) => x
    case Lit(v) => Print(Unsigned(v), 10)
    case AssignOp(op) => Spelling(op) + "="
    case Sym(k) => Spelling(k)
    case Bad(_) => ""
  }

  predicate Letter(c: char) { 'a' <= c <= 'z' || 'A' <= c <= 'Z' || c == '_' }

  /** A letter or an underscore, and then letters, underscores and digits. */
  predicate IsName(x: string) {
    x != "" && Letter(x[0]) && forall c <- x :: Letter(c) || '0' <= c <= '9'
  }

  predicate Blanks(g: string) { forall c <- g :: c == ' ' || c == '\t' || c == '\n' }

  /** A character that cannot be a part of t, where t is in front of it. */
  predicate Ends(t: Token, c: char) {
    match t
    case Id(_) => !Letter(c) && !('0' <= c <= '9')
    case Lit(_) => !Letter(c) && !('0' <= c <= '9') && c != '#' && c != '@'
    case AssignOp(_) => true
    case Sym(k) =>
      && (c == '=' ==>
            (|Spelling(k)| == 2 && k != LSh && k != RSh) || k == LPar || k == RPar || k == Ques || k == Col ||
            k == Comma || k == BNot)
      && (k == Lt ==> c != '<') && (k == Gt ==> c != '>') && (k == BAnd ==> c != '&') && (k == BOr ==> c != '|')
      && (k == Mul ==> c != '*') && (k == Plus ==> c != '+') && (k == Minus ==> c != '-')
    case Bad(_) => false
  }

  /** The operators of op=. */
  predicate OfAssignment(k: Kind) {
    k == Mul || k == Div || k == Mod || k == Plus || k == Minus ||
    k == LSh || k == RSh || k == BAnd || k == BXor || k == BOr
  }

  /** The tokens with a gap behind each of them. */
  function Written(ts: seq<Token>, gaps: seq<string>): string
    requires |gaps| == |ts|
  {
    if ts == [] then "" else Spelled(ts[0]) + (gaps[0] + Written(ts[1..], gaps[1..]))
  }

  /** There are blanks behind each token, or something that cannot be a part of it. */
  predicate Fits(ts: seq<Token>, gaps: seq<string>)
    requires |gaps| == |ts|
  {
    ts == [] ||
    (Blanks(gaps[0]) && (gaps[0] != "" || Ends(ts[0], At(Written(ts[1..], gaps[1..]), 0))) && Fits(ts[1..], gaps[1..]))
  }

  /** The next token of ts is one that can be written, in a context where it means itself. */
  predicate Writable(t: Token, next: seq<Token>, ctx: Context) {
    match t
    case Id(x) => IsName(x)
    case Lit(_) => true
    case AssignOp(op) => OfAssignment(op)
    case Sym(k) =>
      && Spelling(k) != ""
      && (k == PreInc || k == PreDec ==> ctx == Plain && next != [] && next[0].Id?)
      && (k == PostInc || k == PostDec ==> ctx == AfterName)
    case Bad(_) => false
  }

  predicate AllWritable(ts: seq<Token>, ctx: Context, stepped: bool) {
    ts == [] ||
    (Writable(ts[0], ts[1..], ctx)
     && AllWritable(ts[1..], NextContext(stepped, ts[0]), ts[0] == Sym(PreInc) || ts[0] == Sym(PreDec)))
  }

  // ---- reading what is written ----

  lemma {:induction false} GapSkipped(s: string, i: nat, g: string)
    requires i + |g| <= |s| && s[i..i + |g|] == g && Blanks(g)
    ensures SkipSpace(s, i) == SkipSpace(s, i + |g|)
    decreases |g|
  {
    if g != "" {
      assert s[i] == g[0] && g[0] in g;
      assert s[i + 1..i + 1 + |g[1..]|] == g[1..] && forall c <- g[1..] :: c in g;
      GapSkipped(s, i + 1, g[1..]);
    }
  }

  lemma {:induction false} NameRuns(s: string, i: nat, e: nat)
    requires i <= e <= |s| && !NameChar(At(s, e)) && forall k :: i <= k < e ==> NameChar(s[k])
    ensures NameEnd(s, i) == e
    decreases e - i
  {
    if i < e { NameRuns(s, i + 1, e); }
  }

  lemma {:induction false} DigitsRun(s: string, i: nat, e: nat)
    requires i <= e <= |s| && !NumberChar(At(s, e)) && forall k :: i <= k < e ==> IsDigit(s[k])
    ensures NumberEnd(s, i) == e
    decreases e - i
  {
    if i < e { DigitsRun(s, i + 1, e); }
  }

  /** A written token, with something behind it that is not a part of it, is read as itself. */
  lemma TokenRead(s: string, i: nat, t: Token, next: seq<Token>, ctx: Context)
    requires Writable(t, next, ctx)
    requires var u := Spelled(t); i + |u| <= |s| && s[i..i + |u|] == u && Ends(t, At(s, i + |u|))
    requires next != [] && next[0].Id? ==> NameStart(At(s, SkipSpace(s, i + |Spelled(t)|)))
    ensures Lex(s, i, ctx) == Lexed(t, i + |Spelled(t)|)
  {
    hide StrLong, Print, Lex, LexOperator, Ends, SkipSpace, NameStart, Letter, IsName, Spelling, OfAssignment;
    match t
    case Id(x) => NameRead(s, i, x, ctx);
    case Lit(v) => NumberRead(s, i, v, ctx);
    case AssignOp(op) => AssignRead(s, i, op, ctx);
    case Sym(k) => SymbolRead(s, i, k, next, ctx);
  }

  lemma NameRead(s: string, i: nat, x: string, ctx: Context)
    requires IsName(x) && i + |x| <= |s| && s[i..i + |x|] == x && Ends(Id(x), At(s, i + |x|))
    ensures Lex(s, i, ctx) == Lexed(Id(x), i + |x|)
  {
    hide StrLong;
    forall k | i <= k < i + |x| ensures NameChar(s[k]) { assert s[k] == x[k - i] && x[k - i] in x; }
    NameRuns(s, i, i + |x|);
    assert s[i] == x[0];
    assert SkipSpace(s, i) == i;
  }

  lemma NumberRead(s: string, i: nat, v: int64, ctx: Context)
    requires var u := Spelled(Lit(v)); i + |u| <= |s| && s[i..i + |u|] == u && Ends(Lit(v), At(s, i + |u|))
    ensures Lex(s, i, ctx) == Lexed(Lit(v), i + |Spelled(Lit(v))|)
  {
    hide StrLong;
    var u := Spelled(Lit(v));
    forall k | i <= k < i + |u| ensures IsDigit(s[k]) { assert s[k] == u[k - i] && u[k - i] in u; }
    DigitsRun(s, i, i + |u|);
    DecimalLiteral(Unsigned(v));
    assert Wrap(Unsigned(v)) == v;
    assert SkipSpace(s, i) == i;
  }

  lemma AssignRead(s: string, i: nat, op: Kind, ctx: Context)
    requires OfAssignment(op)
    requires var u := Spelling(op) + "=";
             i + |u| <= |s| && s[i..i + |u|] == u
    ensures Lex(s, i, ctx) == Lexed(AssignOp(op), i + |Spelling(op)| + 1)
  {
    hide Lex, LexOperator;
    var u := Spelling(op);
    Characters(s, i, u + "=");
    if op == LSh || op == RSh {
      ShiftAssign(s, i, op, ctx);
    } else {
      assert s[i + 0] == u[0] && s[i + 1] == '=';
      PlainAssign(s, i, op, ctx);
    }
  }

  lemma Characters(s: string, i: nat, u: string)
    requires i + |u| <= |s| && s[i..i + |u|] == u
    ensures forall k :: 0 <= k < |u| ==> s[i + k] == u[k]
    ensures |u| > 0 ==> s[i] == u[0]
  {
    forall k | 0 <= k < |u| ensures s[i + k] == u[k] { assert s[i..i + |u|][k] == s[i + k]; }
  }

  lemma ShiftAssign(s: string, i: nat, op: Kind, ctx: Context)
    requires (op == LSh || op == RSh) && i + 3 <= |s| && s[i..i + 3] == if op == LSh then "<<=" else ">>="
    ensures Lex(s, i, ctx) == Lexed(AssignOp(op), i + 3)
  {
    hide StrLong;
    var w := s[i..i + 3];
    assert w[0] == s[i] && w[1] == s[i + 1] && w[2] == s[i + 2];
    OperatorRead(s, i, ctx);
    assert LexOperator(s, i, ctx) == Lexed(AssignOp(op), i + 3);
  }

  /** A character that starts neither a name nor a number, and is no blank. */
  predicate Operator(c: char) {
    c != '\0' && !CrWhitespace(c) && !NameStart(c) && !IsDigit(c)
  }

  lemma Operators(k: Kind)
    requires |Spelling(k)| == 1
    ensures Operator(Spelling(k)[0]) && ArithOp(Spelling(k)[0]) == Some(k)
    ensures OfAssignment(k) ==> IsAssignable(k) && Spelling(k)[0] != '='
    ensures OfAssignment(k) ==> Spelling(k)[0] != '!' && Spelling(k)[0] != '<' && Spelling(k)[0] != '>'
  {
  }

  lemma PlainAssign(s: string, i: nat, op: Kind, ctx: Context)
    requires OfAssignment(op) && op != LSh && op != RSh
    requires i + 2 <= |s| && [s[i]] == Spelling(op) && s[i + 1] == '='
    ensures Lex(s, i, ctx) == Lexed(AssignOp(op), i + 2)
  {
    hide StrLong, ArithOp, IsAssignable;
    assert Spelling(op)[0] == s[i];
    Operators(op);
    hide Spelling, OfAssignment;
    OperatorRead(s, i, ctx);
    assert LexOperator(s, i, ctx) == Lexed(AssignOp(op), i + 2);
  }

  lemma OperatorRead(s: string, i: nat, ctx: Context)
    requires i < |s| && Operator(s[i])
    ensures Lex(s, i, ctx) == LexOperator(s, i, ctx)
  {
    hide StrLong, LexOperator;
    assert SkipSpace(s, i) == i;
  }

  lemma SymbolRead(s: string, i: nat, k: Kind, next: seq<Token>, ctx: Context)
    requires Writable(Sym(k), next, ctx)
    requires var u := Spelling(k);
             i + |u| <= |s| && s[i..i + |u|] == u && Ends(Sym(k), At(s, i + |u|))
    requires next != [] && next[0].Id? ==> NameStart(At(s, SkipSpace(s, i + |Spelling(k)|)))
    ensures Lex(s, i, ctx) == Lexed(Sym(k), i + |Spelling(k)|)
  {
    hide Lex, LexOperator;
    var u := Spelling(k);
    Characters(s, i, u);
    if |u| == 1 {
      SingleRead(s, i, k, ctx);
    } else if k == PreInc || k == PreDec || k == PostInc || k == PostDec {
      StepRead(s, i, k, ctx);
    } else {
      DoubleRead(s, i, k, ctx);
    }
  }

  /** c does not make an operator of two characters out of k. */
  lemma NoDouble(k: Kind, c: char)
    requires |Spelling(k)| == 1 && Ends(Sym(k), c)
    ensures var d := Spelling(k)[0];
            && (d == '<' || d == '>' || d == '&' || d == '|' || d == '*' || d == '+' || d == '-' ==> c != d)
            && (c == '=' ==> d != '=' && d != '!' && d != '<' && d != '>' && !IsAssignable(k))
  {
  }

  lemma SingleRead(s: string, i: nat, k: Kind, ctx: Context)
    requires i + 1 <= |s| && [s[i]] == Spelling(k) && Ends(Sym(k), At(s, i + 1))
    ensures Lex(s, i, ctx) == Lexed(Sym(k), i + 1)
  {
    hide StrLong, ArithOp, IsAssignable;
    assert Spelling(k)[0] == s[i];
    Operators(k);
    NoDouble(k, At(s, i + 1));
    hide Spelling, OfAssignment, Ends;
    OperatorRead(s, i, ctx);
    assert LexOperator(s, i, ctx) == Lexed(Sym(k), i + 1);
  }

  lemma DoubleRead(s: string, i: nat, k: Kind, ctx: Context)
    requires i + 2 <= |s| && [s[i], s[i + 1]] == Spelling(k) && Ends(Sym(k), At(s, i + 2))
    requires k != PreInc && k != PreDec && k != PostInc && k != PostDec
    ensures Lex(s, i, ctx) == Lexed(Sym(k), i + 2)
  {
    hide StrLong, ArithOp, Lex;
    assert Spelling(k)[0] == s[i] && Spelling(k)[1] == s[i + 1];
    OperatorRead(s, i, ctx);
    assert LexOperator(s, i, ctx) == Lexed(Sym(k), i + 2);
  }

  lemma StepRead(s: string, i: nat, k: Kind, ctx: Context)
    requires i + 2 <= |s| && [s[i], s[i + 1]] == Spelling(k)
    requires k == PreInc || k == PreDec || k == PostInc || k == PostDec
    requires if k == PreInc || k == PreDec then ctx == Plain && NameStart(At(s, SkipSpace(s, i + 2)))
             else ctx == AfterName
    ensures Lex(s, i, ctx) == Lexed(Sym(k), i + 2)
  {
    hide StrLong, ArithOp, Lex;
    assert Spelling(k)[0] == s[i] && Spelling(k)[1] == s[i + 1];
    OperatorRead(s, i, ctx);
    assert LexOperator(s, i, ctx) == Lexed(Sym(k), i + 2);
  }

  lemma SpelledStart(t: Token, next: seq<Token>, ctx: Context)
    requires Writable(t, next, ctx)
    ensures Spelled(t) != "" && !CrWhitespace(Spelled(t)[0]) && (t.Id? ==> NameStart(Spelled(t)[0]))
  {
    if t.Lit? { assert Print(Unsigned(t.value), 10)[0] in Print(Unsigned(t.value), 10); }
  }

  /** A written token, and blanks behind it up to position j. */
  lemma OneRead(s: string, i: nat, t: Token, next: seq<Token>, ctx: Context, stepped: bool, j: nat)
    requires Writable(t, next, ctx) && i + |Spelled(t)| <= j <= |s|
    requires var k := i + |Spelled(t)|;
             s[i..k] == Spelled(t) && Ends(t, At(s, k)) && SkipSpace(s, k) == SkipSpace(s, j)
    requires next != [] && next[0].Id? ==> NameStart(At(s, SkipSpace(s, j)))
    ensures Stream(s, i, stepped, ctx) ==
              [t] + Stream(s, j, t == Sym(PreInc) || t == Sym(PreDec), NextContext(stepped, t))
  {
    hide Lex, Spelled, Writable, Stream, SkipSpace, NameStart, Ends;
    TokenRead(s, i, t, next, ctx);
    WritableKinds(t, next, ctx);
    StreamTurn(s, i, stepped, ctx, t, i + |Spelled(t)|);
    StreamSkips(s, i + |Spelled(t)|, j, IsStep(KindOf(t)), NextContext(stepped, t));
  }

  /** The first of the written tokens is read, and what is behind its gap comes next. */
  lemma FirstRead(s: string, i: nat, ts: seq<Token>, gaps: seq<string>, ctx: Context, stepped: bool) returns (j: nat)
    requires |gaps| == |ts| > 0 && Fits(ts, gaps) && AllWritable(ts, ctx, stepped)
    requires i <= |s| && s[i..] == Written(ts, gaps)
    ensures j <= |s| && s[j..] == Written(ts[1..], gaps[1..])
    ensures Stream(s, i, stepped, ctx) ==
              [ts[0]] + Stream(s, j, ts[0] == Sym(PreInc) || ts[0] == Sym(PreDec), NextContext(stepped, ts[0]))
  {
    hide Lex, Spelled, Writable, Stream, SkipSpace, Blanks, NameStart, Written, AllWritable, Fits, Ends, NextContext;
    var u, g, rest := Spelled(ts[0]), gaps[0], Written(ts[1..], gaps[1..]);
    var k := i + |u|;
    j := k + |g|;
    WrittenIs(ts, gaps, ctx, stepped);
    WrittenParts(s, i, u, g, rest);
    GapSkipped(s, k, g);
    WritableKinds(ts[0], ts[1..], ctx);
    EndsBefore(ts[0], g, rest, At(s, k));
    NextStart(s, j, ts[1..], gaps[1..], NextContext(stepped, ts[0]), ts[0] == Sym(PreInc) || ts[0] == Sym(PreDec));
    OneRead(s, i, ts[0], ts[1..], ctx, stepped, j);
  }

  /** Written tokens are read back. */
  lemma {:induction false} WrittenRead(
      s: string, i: nat, ts: seq<Token>, gaps: seq<string>, ctx: Context, stepped: bool)
    requires |gaps| == |ts| && Fits(ts, gaps) && AllWritable(ts, ctx, stepped)
    requires i <= |s| && s[i..] == Written(ts, gaps)
    ensures Stream(s, i, stepped, ctx) == ts + [Sym(End)]
    decreases |ts|
  {
    hide Lex, Spelled, Writable, Stream, Written, AllWritable, Fits;
    if ts == [] {
      NothingWritten(ts, gaps);
      StreamEnds(s, ctx, stepped);
    } else {
      var j := FirstRead(s, i, ts, gaps, ctx, stepped);
      WrittenIs(ts, gaps, ctx, stepped);
      WrittenRead(s, j, ts[1..], gaps[1..], NextContext(stepped, ts[0]), ts[0] == Sym(PreInc) || ts[0] == Sym(PreDec));
      assert ts == [ts[0]] + ts[1..];
    }
  }

  lemma WrittenIs(ts: seq<Token>, gaps: seq<string>, ctx: Context, stepped: bool)
    requires |gaps| == |ts| > 0 && AllWritable(ts, ctx, stepped) && Fits(ts, gaps)
    ensures Written(ts, gaps) == Spelled(ts[0]) + (gaps[0] + Written(ts[1..], gaps[1..]))
    ensures Writable(ts[0], ts[1..], ctx)
    ensures AllWritable(ts[1..], NextContext(stepped, ts[0]), ts[0] == Sym(PreInc) || ts[0] == Sym(PreDec))
    ensures Blanks(gaps[0]) && Fits(ts[1..], gaps[1..])
    ensures gaps[0] != "" || Ends(ts[0], At(Written(ts[1..], gaps[1..]), 0))
  {
    hide Spelled, Writable, Blanks, Ends;
  }

  /** Behind a token there is a blank, or something else that is not a part of it. */
  lemma EndsBefore(t: Token, g: string, rest: string, c: char)
    requires Blanks(g) && (g != "" || Ends(t, At(rest, 0))) && c == At(g + rest, 0) && !t.Bad?
    ensures Ends(t, c)
  {
    if g != "" { assert g[0] in g; }
  }

  lemma StreamTurn(s: string, i: nat, stepped: bool, ctx: Context, t: Token, j: nat)
    requires i <= |s| && j <= |s| && Lex(s, i, ctx) == Lexed(t, j) && !t.Bad? && t != Sym(End)
    ensures Stream(s, i, stepped, ctx) == [t] + Stream(s, j, IsStep(KindOf(t)), NextContext(stepped, t))
  {
    hide Lex;
  }

  lemma NothingWritten(ts: seq<Token>, gaps: seq<string>)
    requires |gaps| == |ts| == 0
    ensures Written(ts, gaps) == ""
  {
  }

  lemma StreamEnds(s: string, ctx: Context, stepped: bool)
    ensures Stream(s, |s|, stepped, ctx) == [Sym(End)] && s[|s|..] == ""
  {
  }

  lemma WritableKinds(t: Token, next: seq<Token>, ctx: Context)
    requires Writable(t, next, ctx)
    ensures !t.Bad? && t != Sym(End) && IsStep(KindOf(t)) == (t == Sym(PreInc) || t == Sym(PreDec))
  {
  }

  lemma WrittenParts(s: string, i: nat, u: string, g: string, rest: string)
    requires i <= |s| && s[i..] == u + (g + rest)
    ensures i + |u| + |g| <= |s| && s[i..i + |u|] == u && s[i + |u|..i + |u| + |g|] == g && s[i + |u| + |g|..] == rest
    ensures At(s, i + |u|) == At(g + rest, 0)
  {
    var r := s[i..];
    assert r[..|u|] == u && r[|u|..|u| + |g|] == g && r[|u| + |g|..] == rest;
    if i + |u| < |s| { assert s[i + |u|] == r[|u|] == (g + rest)[0]; }
  }

  /** If a name comes next, a name starts there. */
  lemma NextStart(s: string, j: nat, ts: seq<Token>, gaps: seq<string>, ctx: Context, stepped: bool)
    requires |gaps| == |ts| && AllWritable(ts, ctx, stepped) && j <= |s| && s[j..] == Written(ts, gaps)
    ensures ts != [] && ts[0].Id? ==> NameStart(At(s, SkipSpace(s, j)))
  {
    hide Spelled, Writable;
    if ts != [] {
      SpelledStart(ts[0], ts[1..], ctx);
      var u := Spelled(ts[0]);
      assert s[j..][0] == u[0];
    }
  }

  /** Blanks in front of a token do not matter. */
  lemma StreamSkips(s: string, i: nat, j: nat, stepped: bool, ctx: Context)
    requires i <= j <= |s| && SkipSpace(s, i) == SkipSpace(s, j)
    ensures Stream(s, i, stepped, ctx) == Stream(s, j, stepped, ctx)
  {
    hide NameStart, KindOf;
    assert Lex(s, i, ctx) == Lex(s, j, ctx) by { hide StrLong, LexOperator; }
    hide Lex;
  }

  // ---- trees ----

  /** All names of t are names, and all assignments have an operator that can be assigned with. */
  predicate Nameable(t: Tree) {
    match t
    case Const(_) => true
    case Var(x) => IsName(x)
    case Target(x) => IsName(x)
    case Paren(e) => Nameable(e)
    case PreStep(_, x) => IsName(x)
    case PostStep(x, _) => IsName(x)
    case Unary(_, e) => Nameable(e)
    case Bin(_, l, r) => Nameable(l) && Nameable(r)
    case Cond(c, a, b) => Nameable(c) && Nameable(a) && Nameable(b)
    case Assign(x, e) => IsName(x) && Nameable(e)
    case Update(x, op, e) => IsName(x) && OfAssignment(op) && Nameable(e)
    case ModUpdate(l, x, op, e) => Nameable(l) && IsName(x) && OfAssignment(op) && Nameable(e)
    case _ => false
  }

  /** These tokens can follow anything. */
  predicate Follows(ts: seq<Token>) {
    AllWritable(ts, Plain, false) &&
    (ts == [] || ts[0].AssignOp? ||
     (ts[0].Sym? && ts[0].kind != PreInc && ts[0].kind != PreDec && ts[0].kind != PostInc && ts[0].kind != PostDec))
  }

  lemma FollowsAll(ts: seq<Token>, ctx: Context, stepped: bool)
    requires Follows(ts)
    ensures AllWritable(ts, ctx, stepped)
  {
  }

  lemma SymbolFollows(k: Kind, rest: seq<Token>)
    requires Spelling(k) != "" && AllWritable(rest, Plain, false)
    requires k != PreInc && k != PreDec && k != PostInc && k != PostDec
    ensures Follows([Sym(k)] + rest)
  {
    assert ([Sym(k)] + rest)[1..] == rest;
  }

  lemma AssignFollows(op: Kind, rest: seq<Token>)
    requires OfAssignment(op) && AllWritable(rest, Plain, false)
    ensures Follows([AssignOp(op)] + rest)
  {
    assert ([AssignOp(op)] + rest)[1..] == rest;
  }

  lemma NameWritable(x: string, rest: seq<Token>)
    requires IsName(x) && Follows(rest)
    ensures AllWritable([Id(x)] + rest, Plain, false)
  {
    FollowsAll(rest, AfterName, false);
    assert ([Id(x)] + rest)[1..] == rest;
  }

  lemma PreWritable(k: Kind, x: string, rest: seq<Token>)
    requires IsName(x) && Follows(rest) && IsStep(k)
    ensures AllWritable([Sym(k), Id(x)] + rest, Plain, false)
  {
    var ts := [Sym(k), Id(x)] + rest;
    FollowsAll(rest, AfterStepped, false);
    assert ts[1..] == [Id(x)] + rest && ts[1..][1..] == rest;
  }

  lemma PostWritable(x: string, k: Kind, rest: seq<Token>)
    requires IsName(x) && Follows(rest) && IsPost(k)
    ensures AllWritable([Id(x), Sym(k)] + rest, Plain, false)
  {
    var ts := [Id(x), Sym(k)] + rest;
    FollowsAll(rest, Plain, false);
    assert ts[1..] == [Sym(k)] + rest && ts[1..][1..] == rest;
  }

  lemma BinarySpelled(op: Kind)
    requires OpLevel(op) <= POWER || IsUnary(op)
    ensures Spelling(op) != "" && op != PreInc && op != PreDec && op != PostInc && op != PostDec
  {
  }

  /** The leaves of a tree can be written, whatever follows. */
  lemma {:induction false} YieldWritable(t: Tree, rest: seq<Token>)
    requires WellFormed(t) && Nameable(t) && Follows(rest)
    ensures AllWritable(Yield(t) + rest, Plain, false)
    decreases t, 1
  {
    hide AllWritable, Spelling, IsName, OfAssignment, Follows;
    match t
    case Const(n) => ConstWritable(n, rest);
    case Var(x) => NameWritable(x, rest);
    case Paren(_) => ParenWritable(t, rest);
    case PreStep(k, x) => PreWritable(k, x, rest);
    case PostStep(x, k) => PostWritable(x, k, rest);
    case Unary(_, _) => UnaryWritable(t, rest);
    case Bin(_, _, _) => BinWritable(t, rest);
    case Cond(_, _, _) => CondWritable(t, rest);
    case Assign(_, _) => AssignWritable(t, rest);
    case Update(_, _, _) => UpdateWritable(t, rest);
    case ModUpdate(_, _, _, _) => ModUpdateWritable(t, rest);
  }

  lemma {:induction false} ParenWritable(t: Tree, rest: seq<Token>)
    requires t.Paren? && WellFormed(t) && Nameable(t) && Follows(rest)
    ensures AllWritable(Yield(t) + rest, Plain, false)
    decreases t, 0
  {
    hide AllWritable, Spelling, IsName, OfAssignment, Follows;
    var e := t.body;
    FollowsWritable(rest);
    SymbolFollowsNow(RPar, rest);
    YieldWritable(e, [Sym(RPar)] + rest);
    SymbolFollowsNow(LPar, Yield(e) + ([Sym(RPar)] + rest));
    FollowsWritable([Sym(LPar)] + (Yield(e) + ([Sym(RPar)] + rest)));
    assert Yield(t) + rest == [Sym(LPar)] + (Yield(e) + ([Sym(RPar)] + rest));
  }

  lemma {:induction false} UnaryWritable(t: Tree, rest: seq<Token>)
    requires t.Unary? && WellFormed(t) && Nameable(t) && Follows(rest)
    ensures AllWritable(Yield(t) + rest, Plain, false)
    decreases t, 0
  {
    hide AllWritable, Spelling, IsName, OfAssignment, Follows;
    var op, e := t.op, t.arg;
    YieldWritable(e, rest);
    BinarySpelled(op);
    SymbolFollows(op, Yield(e) + rest);
    FollowsWritable([Sym(op)] + (Yield(e) + rest));
    assert Yield(t) + rest == [Sym(op)] + (Yield(e) + rest);
  }

  lemma {:induction false} BinWritable(t: Tree, rest: seq<Token>)
    requires t.Bin? && WellFormed(t) && Nameable(t) && Follows(rest)
    ensures AllWritable(Yield(t) + rest, Plain, false)
    decreases t, 0
  {
    BinParts(t);
    hide AllWritable, Spelling, IsName, OfAssignment, Follows, Level, Yield, WellFormed, Nameable, OpLevel, IsUnary;
    var op, l, r := t.op, t.left, t.right;
    var r1 := Yield(r) + rest;
    YieldWritable(r, rest);
    BinarySpelled(op);
    SymbolFollows(op, r1);
    YieldWritable(l, [Sym(op)] + r1);
    Associate(Yield(l), [Sym(op)], Yield(r), rest);
  }

  lemma {:induction false} CondWritable(t: Tree, rest: seq<Token>)
    requires t.Cond? && WellFormed(t) && Nameable(t) && Follows(rest)
    ensures AllWritable(Yield(t) + rest, Plain, false)
    decreases t, 0
  {
    hide AllWritable, Spelling, IsName, OfAssignment, Follows, Level;
    var c, a, b := t.test, t.yes, t.no;
    var r1 := Yield(b) + rest;
    YieldWritable(b, rest);
    SymbolFollowsNow(Col, r1);
    var r2 := [Sym(Col)] + r1;
    YieldWritable(a, r2);
    var r3 := Yield(a) + r2;
    SymbolFollowsNow(Ques, r3);
    YieldWritable(c, [Sym(Ques)] + r3);
    Regroup(Yield(c), [Sym(Ques)], Yield(a), [Sym(Col)], Yield(b), rest);
  }

  lemma {:induction false} AssignWritable(t: Tree, rest: seq<Token>)
    requires t.Assign? && WellFormed(t) && Nameable(t) && Follows(rest)
    ensures AllWritable(Yield(t) + rest, Plain, false)
    decreases t, 0
  {
    hide AllWritable, Spelling, IsName, OfAssignment, Follows;
    var x, e := t.name, t.rhs;
    YieldWritable(e, rest);
    SymbolFollowsNow(Eq, Yield(e) + rest);
    NameWritable(x, [Sym(Eq)] + (Yield(e) + rest));
    assert Yield(t) + rest == [Id(x)] + ([Sym(Eq)] + (Yield(e) + rest));
  }

  lemma {:induction false} UpdateWritable(t: Tree, rest: seq<Token>)
    requires t.Update? && WellFormed(t) && Nameable(t) && Follows(rest)
    ensures AllWritable(Yield(t) + rest, Plain, false)
    decreases t, 0
  {
    hide AllWritable, Spelling, IsName, OfAssignment, Follows;
    var x, op, e := t.name, t.op, t.rhs;
    YieldWritable(e, rest);
    AssignFollows(op, Yield(e) + rest);
    NameWritable(x, [AssignOp(op)] + (Yield(e) + rest));
    assert Yield(t) + rest == [Id(x)] + ([AssignOp(op)] + (Yield(e) + rest));
  }

  lemma {:induction false} ModUpdateWritable(t: Tree, rest: seq<Token>)
    requires t.ModUpdate? && WellFormed(t) && Nameable(t) && Follows(rest)
    ensures AllWritable(Yield(t) + rest, Plain, false)
    decreases t, 0
  {
    ModUpdateParts(t);
    hide AllWritable, Spelling, IsName, OfAssignment, Follows, Level, Yield, WellFormed, Nameable;
    var l, x, op, e := t.left, t.name, t.op, t.rhs;
    var r1 := Yield(e) + rest;
    YieldWritable(e, rest);
    AssignFollows(op, r1);
    var r2 := [AssignOp(op)] + r1;
    NameWritable(x, r2);
    var r3 := [Id(x)] + r2;
    SymbolFollowsNow(Mod, r3);
    YieldWritable(l, [Sym(Mod)] + r3);
    Regroup(Yield(l), [Sym(Mod)], [Id(x)], [AssignOp(op)], Yield(e), rest);
  }

  lemma Associate(a: seq<Token>, b: seq<Token>, c: seq<Token>, d: seq<Token>)
    ensures a + b + c + d == a + (b + (c + d))
  {
  }

  lemma BinParts(t: Tree)
    requires t.Bin? && WellFormed(t) && Nameable(t)
    ensures WellFormed(t.left) && WellFormed(t.right) && Nameable(t.left) && Nameable(t.right)
    ensures OpLevel(t.op) <= POWER && Yield(t) == Yield(t.left) + [Sym(t.op)] + Yield(t.right)
  {
    hide Level, IsName, OfAssignment;
  }

  lemma ModUpdateParts(t: Tree)
    requires t.ModUpdate? && WellFormed(t) && Nameable(t)
    ensures WellFormed(t.left) && WellFormed(t.rhs) && Nameable(t.left) && Nameable(t.rhs)
    ensures IsName(t.name) && OfAssignment(t.op)
    ensures Yield(t) == Yield(t.left) + [Sym(Mod)] + [Id(t.name)] + [AssignOp(t.op)] + Yield(t.rhs)
  {
    assert [Sym(Mod), Id(t.name), AssignOp(t.op)] == [Sym(Mod)] + [Id(t.name)] + [AssignOp(t.op)];
  }

  lemma Regroup(a: seq<Token>, b: seq<Token>, c: seq<Token>, d: seq<Token>, e: seq<Token>, f: seq<Token>)
    ensures a + b + c + d + e + f == a + (b + (c + (d + (e + f))))
  {
  }

  lemma FollowsWritable(ts: seq<Token>)
    ensures Follows(ts) ==> AllWritable(ts, Plain, false)
  {
  }

  lemma SymbolFollowsNow(k: Kind, rest: seq<Token>)
    requires k == LPar || k == RPar || k == Ques || k == Col || k == Eq || k == Mod
    requires AllWritable(rest, Plain, false)
    ensures Follows([Sym(k)] + rest)
  {
    hide AllWritable;
    SymbolFollows(k, rest);
  }

  lemma ConstWritable(n: int64, rest: seq<Token>)
    requires Follows(rest)
    ensures AllWritable([Lit(n)] + rest, Plain, false)
  {
    FollowsAll(rest, Plain, false);
    assert ([Lit(n)] + rest)[1..] == rest;
  }

  /** Main result: every tree of the grammar, its tokens spelled out, with blanks between them where they
      would run together, and anywhere else, is what the text is parsed to, so that evaluating the text
      is evaluating the tree. */
  lemma PrintedTree(t: Tree, gaps: seq<string>, readonly: set<string>, vars: Store)
    requires WellFormed(t) && Nameable(t) && |gaps| == |Yield(t)| && Fits(Yield(t), gaps)
    ensures var s := Written(Yield(t), gaps);
            && ParseAll(Tokens(s)) == Some(t)
            && EvalText(ShellEnv(readonly), s, vars, 0) == Eval(ShellEnv(readonly), t, vars, 1)
  {
    hide Stream, ParseAll, Eval, WellFormed, Nameable, AllWritable, Written, Fits, Yield, Blank, TextTree;
    var s, ts := Written(Yield(t), gaps), Yield(t);
    NothingFollows();
    YieldWritable(t, []);
    assert ts + [] == ts && s[0..] == s;
    WrittenRead(s, 0, ts, gaps, Plain, false);
    YieldIsParsed(t);
    TextTreeIs(s);
    NotBlank(s, ts, gaps);
    assert Wanted(s);
  }

  lemma NothingFollows()
    ensures Follows([])
  {
  }

  lemma NotBlank(s: string, ts: seq<Token>, gaps: seq<string>)
    requires |gaps| == |ts| > 0 && AllWritable(ts, Plain, false) && s == Written(ts, gaps)
    ensures !Blank(s)
  {
    hide Spelled, Writable;
    SpelledStart(ts[0], ts[1..], Plain);
    var u := Spelled(ts[0]);
    assert s[0] == u[0];
    SpelledNotNul(ts[0], ts[1..]);
  }

  lemma SpelledNotNul(t: Token, next: seq<Token>)
    requires Writable(t, next, Plain)
    ensures Spelled(t) != "" && Spelled(t)[0] != '\0'
  {
    if t.Lit? { assert Print(Unsigned(t.value), 10)[0] in Print(Unsigned(t.value), 10); }
  }
}
