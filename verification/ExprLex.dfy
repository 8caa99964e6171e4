/** The tokens of arithmetic expressions: what readtok (bash/expr.c:1318-1522) recognises at a
    position, as a function, and the whole token stream of a string. */
module ExprLex {
  import opened CStrings
  import opened Int64
  import opened Literals

  /** The values of curtok, lasttok and assigntok, expr.c:106-139. */
  datatype Kind =
    | End | Str | Num | OpAssign | CondMark
    | Eq | Ques | Col | Comma | LPar | RPar | Not | BNot
    | LOr | LAnd | BOr | BXor | BAnd
    | EqEq | Neq | Leq | Geq | Lt | Gt | LSh | RSh
    | Plus | Minus | Mul | Div | Mod | Power
    | PreInc | PreDec | PostInc | PostDec

  /** A token with its payload; Bad stands where readtok jumps to evalerror, and Bad(true) for a
      "++" or "--" behind a name that already follows one. */
  datatype Token = Id(name: string) | Lit(value: int64) | AssignOp(op: Kind) | Sym(kind: Kind) | Bad(stepped: bool)

  function KindOf(t: Token): Kind {
    match t
    case Id(_) => Str
    case Lit(_) => Num
    case AssignOp(_) => OpAssign
    case Sym(k) => k
    case Bad(_) => End
  }

  predicate IsStep(k: Kind) { k == PreInc || k == PreDec }

  /** What precedes the next token, as far as "++" and "--" depend on it: a name, a name that
      already follows a prefix operator, or anything else. */
  datatype Context = AfterName | AfterStepped | Plain

  function ContextOf(curtok: Kind, lasttok: Kind): Context {
    if curtok == Str then AfterName
    else if curtok == Num && IsStep(lasttok) then AfterStepped
    else Plain
  }

  predicate CrWhitespace(c: char) { c == ' ' || c == '\t' || c == '\n' }

  predicate NameStart(c: char) { IsAlpha(c) || c == '_' }

  predicate NameChar(c: char) { IsAlnum(c) || c == '_' }

  predicate NumberChar(c: char) { IsAlnum(c) || c == '#' || c == '@' || c == '_' }

  function SkipSpace(s: string, i: nat): (j: nat)
    requires i <= |s|
    ensures i <= j <= |s| && !CrWhitespace(At(s, j))
    decreases |s| - i
  {
    if CrWhitespace(At(s, i)) then SkipSpace(s, i + 1) else i
  }

  function NameEnd(s: string, i: nat): (j: nat)
    requires i <= |s|
    ensures i <= j <= |s| && (NameChar(At(s, i)) ==> i < j)
    decreases |s| - i
  {
    if NameChar(At(s, i)) then NameEnd(s, i + 1) else i
  }

  function NumberEnd(s: string, i: nat): (j: nat)
    requires i <= |s|
    ensures i <= j <= |s| && (NumberChar(At(s, i)) ==> i < j)
    decreases |s| - i
  {
    if NumberChar(At(s, i)) then NumberEnd(s, i + 1) else i
  }

  /** One recognised token and the position after it. */
  datatype Lexed = Lexed(tok: Token, next: nat)

  predicate IsAssignable(k: Kind) {
    k == Mul || k == Div || k == Mod || k == Plus || k == Minus ||
    k == LSh || k == RSh || k == BAnd || k == BXor || k == BOr
  }

  /** Kinds that stand for themselves, without a payload. */
  predicate IsSymbol(k: Kind) { k != Str && k != Num && k != OpAssign && k != CondMark }

  /** Single-character operators, is_arithop of expr.c:1282-1311. */
  function ArithOp(c: char): Option<Kind> {
    match c
    case '=' => Some(Eq)
    case '>' => Some(Gt)
    case '<' => Some(Lt)
    case '+' => Some(Plus)
    case '-' => Some(Minus)
    case '*' => Some(Mul)
    case '/' => Some(Div)
    case '%' => Some(Mod)
    case '!' => Some(Not)
    case '(' => Some(LPar)
    case ')' => Some(RPar)
    case '&' => Some(BAnd)
    case '|' => Some(BOr)
    case '^' => Some(BXor)
    case '~' => Some(BNot)
    case '?' => Some(Ques)
    case ':' => Some(Col)
    case ',' => Some(Comma)
    case _ => None
  }

  /** The operator whose first character is c at position i, expr.c:1427-1512. */
  function LexOperator(s: string, i: nat, ctx: Context): (l: Lexed)
    requires i < |s|
    ensures i < l.next <= |s|
    ensures !l.tok.Id? && l.tok != Sym(End) && (l.tok.AssignOp? ==> IsAssignable(l.tok.op))
    ensures l.tok.Sym? && IsStep(l.tok.kind) ==> NameStart(At(s, SkipSpace(s, l.next)))
    ensures l.tok.Sym? ==> IsSymbol(l.tok.kind)
  {
    var c, c1, c2 := At(s, i), At(s, i + 1), At(s, i + 2);
    if c == '=' && c1 == '=' then Lexed(Sym(EqEq), i + 2)
    else if c == '!' && c1 == '=' then Lexed(Sym(Neq), i + 2)
    else if c == '>' && c1 == '=' then Lexed(Sym(Geq), i + 2)
    else if c == '<' && c1 == '=' then Lexed(Sym(Leq), i + 2)
    else if c == '<' && c1 == '<' then
      if c2 == '=' then Lexed(AssignOp(LSh), i + 3) else Lexed(Sym(LSh), i + 2)
    else if c == '>' && c1 == '>' then
      if c2 == '=' then Lexed(AssignOp(RSh), i + 3) else Lexed(Sym(RSh), i + 2)
    else if c == '&' && c1 == '&' then Lexed(Sym(LAnd), i + 2)
    else if c == '|' && c1 == '|' then Lexed(Sym(LOr), i + 2)
    else if c == '*' && c1 == '*' then Lexed(Sym(Power), i + 2)
    else if (c == '-' || c == '+') && c1 == c && ctx == AfterName then
      Lexed(Sym(if c == '-' then PostDec else PostInc), i + 2)
    else if (c == '-' || c == '+') && c1 == c && ctx == AfterStepped then
      Lexed(Bad(true), i + 2)
    else if (c == '-' || c == '+') && c1 == c then
      if NameStart(At(s, SkipSpace(s, i + 2))) then Lexed(Sym(if c == '-' then PreDec else PreInc), i + 2)
      else Lexed(Sym(if c == '-' then Minus else Plus), i + 1)
    else if c1 == '=' && ArithOp(c).Some? && IsAssignable(ArithOp(c).value) then
      Lexed(AssignOp(ArithOp(c).value), i + 2)
    else
      match ArithOp(c)
      case Some(k) => Lexed(Sym(k), i + 1)
      case None => Lexed(Bad(false), i + 1)
  }

  /** The token at position i, without the variable lookup that readtok does on the way. */
  function Lex(s: string, i: nat, ctx: Context): (l: Lexed)
    requires i <= |s|
    ensures i <= l.next <= |s|
    ensures l.tok != Sym(End) ==> i < l.next
    ensures l.tok.AssignOp? ==> IsAssignable(l.tok.op)
    ensures l.tok.Sym? && IsStep(l.tok.kind) ==> NameStart(At(s, SkipSpace(s, l.next)))
    ensures l.tok.Sym? ==> IsSymbol(l.tok.kind)
    ensures l.tok.Id? <==> NameStart(At(s, SkipSpace(s, i)))
  {
    var p := SkipSpace(s, i);
    var c := At(s, p);
    if c == '\0' then Lexed(Sym(End), p)
    else if NameStart(c) then
      Lexed(Id(s[p..NameEnd(s, p)]), NameEnd(s, p))
    else if IsDigit(c) then
      var e := NumberEnd(s, p);
      match StrLong(s[p..e])
      case Some(v) => Lexed(Lit(v), e)
      case None => Lexed(Bad(false), e)
    else
      LexOperator(s, p, ctx)
  }

  /** The context that a token leaves behind; stepped says that "++" or "--" precedes it. */
  function NextContext(stepped: bool, tok: Token): Context {
    if !tok.Id? then Plain else if stepped then AfterStepped else AfterName
  }

  /** All tokens from position i on, up to the end of the text or the first lexical error. */
  function Stream(s: string, i: nat, stepped: bool, ctx: Context): (ts: seq<Token>)
    requires i <= |s|
    ensures |ts| > 0 && ts[0] == Lex(s, i, ctx).tok
    ensures !ts[0].Bad? && ts[0] != Sym(End) ==>
              ts[1..] == Stream(s, Lex(s, i, ctx).next, IsStep(KindOf(ts[0])), NextContext(stepped, ts[0]))
    decreases |s| - i
  {
    var l := Lex(s, i, ctx);
    if l.tok.Bad? || l.tok == Sym(End) then [l.tok]
    else [l.tok] + Stream(s, l.next, IsStep(KindOf(l.tok)), NextContext(stepped, l.tok))
  }

  function Tokens(s: string): seq<Token> {
    Stream(s, 0, false, Plain)
  }

  /** Looking ahead behind a name reads the next token, and if that is a name too, looks ahead again:
      it fails where a run of names ends in an error. */
  predicate PeekFails(ts: seq<Token>) {
    ts == [] || ts[0] == Bad(false) || (ts[0].Id? && PeekFails(ts[1..]))
  }

  /** readtok fails at the first token of ts, whatever the store is. */
  predicate ReadFails(ts: seq<Token>) {
    ts == [] || ts[0].Bad? || (ts[0].Id? && PeekFails(ts[1..]))
  }

  /** Only "++" and "--" are read differently after a name that was already stepped; and there
      they are errors. So looking ahead from a name finds the same "=", name or error. */
  lemma PeekAgrees(s: string, i: nat)
    requires i <= |s|
    ensures var p, q := Lex(s, i, AfterName), Lex(s, i, AfterStepped);
            && (p.tok.Bad? || p.tok.Id? || p.tok == Sym(Eq) ==> q == p)
            && (q.tok == Bad(false) || q.tok.Id? || q.tok == Sym(Eq) ==> p == q)
            && p.tok != Bad(true)
  {
  }

  lemma PeekSame(s: string, i: nat)
    requires i <= |s|
    ensures var p, q := Stream(s, i, false, AfterName), Stream(s, i, false, AfterStepped);
            && PeekFails(p) == PeekFails(q) == ReadFails(p)
            && (!PeekFails(p) ==> (KindOf(p[0]) == Eq <==> q[0] == Sym(Eq)))
  {
    hide Lex, PeekFails;
    PeekAgrees(s, i);
    PeekFirst(Stream(s, i, false, AfterName));
    PeekFirst(Stream(s, i, false, AfterStepped));
  }

  lemma PeekFirst(ts: seq<Token>)
    requires ts != []
    ensures PeekFails(ts) == (ts[0] == Bad(false) || (ts[0].Id? && PeekFails(ts[1..])))
  {
  }
}
