/** Brace expressions as trees: nested alternatives, sequences, and braces that stand for themselves.
    Printed with braces and commas, a tree expands to the list of strings that it denotes. */
module BraceWords {
  import opened CStrings
  import opened BraceScan
  import opened BraceSequence
  import opened Braces
  import opened BraceRanges

  /** A character, one behind a backslash, a text in quotes (of any of the three kinds), the name in a
      parameter expansion, braces that stand for themselves, and command substitutions in parentheses
      and in braces. */
  datatype Piece =
    | Char(c: char) | Escaped(c: char) | Quoted(quote: char, text: string) | Param(text: string) | Open | Close
    | Comsub(sign: char, text: string) | Funsub(text: string)

  /** A word: pieces, groups of at least two alternatives, and sequences {x..y} or {x..y..z}. */
  datatype Word =
    | Nil
    | Lit(piece: Piece, rest: Word)
    | Group(alts: Alts, rest: Word)
    | Range(x: string, y: string, z: string, rest: Word)
  datatype Alts = Two(w: Word, last: Word) | More(w: Word, others: Alts)

  /** Characters that mean nothing to the scanner. */
  predicate Plain(c: char) {
    c != '\\' && c != '"' && c != '\'' && c != '`' && c != '$' && c != '<' && c != '>' && c != '{' && c != '}' &&
    c != ',' && !Blank(c) && c != '\0'
  }

  predicate Blank(c: char) { c == ' ' || c == '\t' || c == '\n' }

  function Unit(p: Piece): (s: string)
    ensures s != ""
  {
    match p
    case Char(c) => [c]
    case Escaped(c) => ['\\', c]
    case Quoted(q, t) => [q] + t + [q]
    case Param(t) => "${" + t + "}"
    case Open => "{"
    case Close => "}"
    case Comsub(c, t) => [c] + "(" + t + ")"
    case Funsub(t) => "${" + t + "}"
  }

  predicate IsQuote(c: char) { c == '"' || c == '\'' || c == '`' }

  /** A character that means nothing between quotes of the given kind. */
  predicate Inert(c: char, quote: char) { c != quote && (quote == '\'' || (c != '\\' && c != '$')) }

  predicate PieceFormed(p: Piece) {
    match p
    case Char(c) => Plain(c) || Blank(c) || c == ','
    case Escaped(_) => true
    case Quoted(q, t) => IsQuote(q) && forall c <- t :: Inert(c, q)
    case Param(t) => (t == "" || t[0] != '|') && forall c <- t :: Plain(c)
    case Open => true
    case Close => true
    case Comsub(c, _) => c == '$' || c == '<' || c == '>'
    case Funsub(t) => t != "" && (Blank(t[0]) || t[0] == '|')
  }

  /** Wherever p stands, the oracle finds where it ends. */
  ghost predicate Finds(sub: Substitution, p: Piece) {
    match p
    case Comsub(_, t) => Ends(sub, Unit(p), |t|)
    case Funsub(t) => Ends(sub, Unit(p), |t|)
    case _ => true
  }

  ghost predicate Ends(sub: Substitution, u: string, n: nat) {
    forall text: string, i: nat {:trigger Occurs(text, i, u)} ::
      Occurs(text, i, u) ==> sub(text, i + 2, UNQUOTED) == n
  }

  predicate IsSubst(p: Piece) { p.Comsub? || p.Funsub? }

  /** There are substitutions in w. */
  predicate HasSubst(w: Word) {
    match w
    case Nil => false
    case Lit(p, rest) => IsSubst(p) || HasSubst(rest)
    case Group(alts, rest) => AltsHaveSubst(alts) || HasSubst(rest)
    case Range(_, _, _, rest) => HasSubst(rest)
  }

  predicate AltsHaveSubst(a: Alts) {
    match a
    case Two(w, last) => HasSubst(w) || HasSubst(last)
    case More(w, others) => HasSubst(w) || AltsHaveSubst(others)
  }

  /** The oracle finds the ends of all substitutions in w. */
  ghost predicate Known(sub: Substitution, w: Word) {
    match w
    case Nil => true
    case Lit(p, rest) => Finds(sub, p) && Known(sub, rest)
    case Group(alts, rest) => AltsKnown(sub, alts) && Known(sub, rest)
    case Range(_, _, _, rest) => Known(sub, rest)
  }

  ghost predicate AltsKnown(sub: Substitution, a: Alts) {
    match a
    case Two(w, last) => Known(sub, w) && Known(sub, last)
    case More(w, others) => Known(sub, w) && AltsKnown(sub, others)
  }

  /** Without substitutions it does not matter. */
  lemma {:induction false} NoneKnown(sub: Substitution, w: Word)
    requires !HasSubst(w)
    ensures Known(sub, w)
    decreases w
  {
    match w
    case Nil =>
    case Lit(_, rest) => NoneKnown(sub, rest);
    case Group(alts, rest) =>
      NoneKnownIn(sub, alts);
      NoneKnown(sub, rest);
    case Range(_, _, _, rest) => NoneKnown(sub, rest);
  }

  lemma {:induction false} NoneKnownIn(sub: Substitution, a: Alts)
    requires !AltsHaveSubst(a)
    ensures AltsKnown(sub, a)
    decreases a
  {
    NoneKnown(sub, a.w);
    if a.Two? { NoneKnown(sub, a.last); } else { NoneKnownIn(sub, a.others); }
  }

  function Print(w: Word): string {
    match w
    case Nil => ""
    case Lit(p, rest) => Unit(p) + Print(rest)
    case Group(alts, rest) => "{" + (PrintAlts(alts) + ("}" + Print(rest)))
    case Range(x, y, z, rest) => Braced(x, y, z) + Print(rest)
  }

  function PrintAlts(a: Alts): string {
    match a
    case Two(w, last) => Print(w) + ("," + Print(last))
    case More(w, others) => Print(w) + ("," + PrintAlts(others))
  }

  /** The braces in w match, d of them being open in front of it, and no comma is outside of them. */
  predicate Balanced(w: Word, d: nat) {
    match w
    case Nil => d == 0
    case Lit(p, rest) =>
      (match p
       case Open => Balanced(rest, d + 1)
       case Close => d > 0 && Balanced(rest, d - 1)
       case Char(c) => (c == ',' ==> d > 0) && Balanced(rest, d)
       case _ => Balanced(rest, d))
    case Group(_, rest) => Balanced(rest, d)
    case Range(_, _, _, rest) => Balanced(rest, d)
  }

  /** An open brace in front of w is not closed by a brace behind a comma or a ".." at its own level.
      level is how many braces are open behind it, and marked whether there was such a comma or "..". */
  predicate Unclosed(w: Word, level: nat, marked: bool) {
    match w
    case Nil => true
    case Lit(p, rest) =>
      (match p
       case Open => Unclosed(rest, level + 1, marked)
       case Close => if level > 0 then Unclosed(rest, level - 1, marked) else !marked && Unclosed(rest, 0, marked)
       case Char(c) => Unclosed(rest, level, marked || (level == 0 && Marks(c, Print(rest))))
       case _ => Unclosed(rest, level, marked))
    case Group(_, rest) => Unclosed(rest, level, marked)
    case Range(_, _, _, rest) => Unclosed(rest, level, marked)
  }

  /** A comma, or two dots that no close brace follows. */
  predicate Marks(c: char, rest: string) { c == ',' || (c == '.' && At(rest, 0) == '.' && At(rest, 1) != '}') }

  /** Behind a blank or at the beginning of a text, an open brace in front of this is passed over. */
  predicate PassedOver(rest: string) { rest == "" || Blank(rest[0]) || rest[0] == '}' }

  /** w is what its print is read as; blank says that it is at the beginning of a text or behind a
      blank. A brace stands for itself if it is passed over or never closed as an expression. */
  predicate Formed(w: Word, blank: bool) {
    match w
    case Nil => true
    case Lit(p, rest) =>
      && PieceFormed(p) && Formed(rest, EndsBlank(p))
      && (p.Open? ==> (blank && PassedOver(Print(rest))) || Unclosed(rest, 0, false))
    case Group(alts, rest) => AllWellFormed(alts) && !(blank && PassedOver(PrintAlts(alts))) && Formed(rest, true)
    case Range(x, y, z, rest) =>
      IsEnd(x) && IsEnd(y) && IsIncrement(z) && Numeral(x) == Numeral(y) && Formed(rest, true)
  }

  /** The last character is a blank. */
  predicate EndsBlank(p: Piece) { (p.Char? || p.Escaped?) && Blank(p.c) }

  predicate WellFormed(w: Word) { Formed(w, true) }

  /** Alternatives stand for themselves, with braces that match. */
  predicate AllWellFormed(a: Alts) {
    match a
    case Two(w, last) => Formed(w, true) && Balanced(w, 0) && Formed(last, true) && Balanced(last, 0)
    case More(w, others) => Formed(w, true) && Balanced(w, 0) && AllWellFormed(others)
  }

  /** The strings that a word stands for, leftmost choice varying slowest. A sequence without members
      stands for itself. */
  function Denote(w: Word): seq<string> {
    match w
    case Nil => [""]
    case Lit(p, rest) => Prefixed(Unit(p), Denote(rest))
    case Group(alts, rest) => Product(DenoteAlts(alts), Denote(rest))
    case Range(x, y, z, rest) => Product(DenoteRange(x, y, z), Denote(rest))
  }

  function DenoteRange(x: string, y: string, z: string): seq<string> {
    if IsEnd(x) && IsEnd(y) && IsIncrement(z) && Members(x, y, z).Some? then Members(x, y, z).value
    else [Braced(x, y, z)]
  }

  function DenoteAlts(a: Alts): seq<string> {
    match a
    case Two(w, last) => Denote(w) + Denote(last)
    case More(w, others) => Denote(w) + DenoteAlts(others)
  }

  // ---- scanning printed words ----

  /** Between words, outside quotes. */
  predicate Idle(st: State) { st.quoted == UNQUOTED && !st.passNext }

  lemma OccursParts(text: string, i: nat, a: string, b: string)
    requires Occurs(text, i, a + b)
    ensures Occurs(text, i, a) && Occurs(text, i + |a|, b)
  {
    assert a == (a + b)[..|a|] && b == (a + b)[|a|..];
  }

  lemma OccursChar(text: string, i: nat, c: char, b: string)
    requires Occurs(text, i, [c] + b)
    ensures i < |text| && text[i] == c && Occurs(text, i + 1, b)
  {
    OccursParts(text, i, [c], b);
    assert text[i] == text[i..i + 1][0];
  }

  predicate Searched(c: char) { c == '{' || c == '}' || c == ',' }

  lemma OccursFirst(text: string, i: nat, t: string)
    requires Occurs(text, i, t) && t != ""
    ensures i < |text| && text[i] == t[0] && t[0] in t && Occurs(text, i + 1, t[1..]) && forall c <- t[1..] :: c in t
  {
    hide Occurs;
    assert t == [t[0]] + t[1..];
    OccursChar(text, i, t[0], t[1..]);
  }

  lemma InertStep(sub: Substitution, text: string, i: nat, satisfy: char, st: State)
    requires i < |text| && IsQuote(st.quoted) && !st.passNext && Inert(text[i], st.quoted)
    ensures Step(sub, text, i, satisfy, st) == Go(i + 1, st)
  {
  }

  lemma DeepStep(sub: Substitution, text: string, i: nat, satisfy: char, st: State)
    requires i < |text| && Idle(st) && st.level > 0 && Searched(satisfy) && Plain(text[i])
    ensures Step(sub, text, i, satisfy, st) == Go(i + 1, st)
  {
  }

  /** Between quotes nothing counts. */
  lemma {:induction false} ScanInert(sub: Substitution, text: string, i: nat, t: string, satisfy: char, st: State)
    requires Occurs(text, i, t) && IsQuote(st.quoted) && !st.passNext && forall c <- t :: Inert(c, st.quoted)
    ensures i + |t| <= |text| && Scan(sub, text, i, satisfy, st) == Scan(sub, text, i + |t|, satisfy, st)
    decreases |t|
  {
    hide Scan, Step, Occurs, Inert;
    if t == "" {
      OccursText(text, i, t);
    } else {
      OccursFirst(text, i, t);
      InertStep(sub, text, i, satisfy, st);
      ScanStep(sub, text, i, satisfy, st, st);
      ScanInert(sub, text, i + 1, t[1..], satisfy, st);
    }
  }

  lemma ScanQuoted(sub: Substitution, text: string, i: nat, q: char, t: string, satisfy: char, st: State)
    requires Occurs(text, i, Unit(Quoted(q, t))) && PieceFormed(Quoted(q, t)) && Idle(st) && Searched(satisfy)
    ensures i + |t| + 2 <= |text| && Scan(sub, text, i, satisfy, st) == Scan(sub, text, i + |t| + 2, satisfy, st)
  {
    QuotedUnit(q, t);
    hide Scan, Step, Occurs, Inert, Unit;
    OccursChar(text, i, q, t + [q]);
    OccursParts(text, i + 1, t, [q]);
    OccursChar(text, i + 1 + |t|, q, "");
    var inside := st.(quoted := q);
    QuoteStep(sub, text, i, satisfy, st);
    QuoteStep(sub, text, i + 1 + |t|, satisfy, inside);
    ScanStep(sub, text, i, satisfy, st, inside);
    ScanInert(sub, text, i + 1, t, satisfy, inside);
    ScanStep(sub, text, i + 1 + |t|, satisfy, inside, st);
  }

  lemma QuotedUnit(q: char, t: string)
    ensures Unit(Quoted(q, t)) == [q] + (t + [q])
  {
  }

  /** A quote opens or closes. */
  lemma QuoteStep(sub: Substitution, text: string, i: nat, satisfy: char, st: State)
    requires i < |text| && IsQuote(text[i]) && !st.passNext && (st.quoted == UNQUOTED || st.quoted == text[i])
    ensures Step(sub, text, i, satisfy, st)
         == Go(i + 1, st.(quoted := if st.quoted == UNQUOTED then text[i] else UNQUOTED))
  {
  }

  lemma ScanStep(sub: Substitution, text: string, i: nat, satisfy: char, st: State, st': State)
    requires i < |text| && Step(sub, text, i, satisfy, st) == Go(i + 1, st')
    ensures Scan(sub, text, i, satisfy, st) == Scan(sub, text, i + 1, satisfy, st')
  {
  }

  /** Inside braces plain characters do not count. */
  lemma {:induction false} ScanDeep(sub: Substitution, text: string, i: nat, t: string, satisfy: char, st: State)
    requires Occurs(text, i, t) && Idle(st) && st.level > 0 && Searched(satisfy) && forall c <- t :: Plain(c)
    ensures i + |t| <= |text| && Scan(sub, text, i, satisfy, st) == Scan(sub, text, i + |t|, satisfy, st)
    decreases |t|
  {
    hide Scan, Step, Occurs, Plain;
    if t == "" {
      OccursText(text, i, t);
    } else {
      OccursFirst(text, i, t);
      DeepStep(sub, text, i, satisfy, st);
      ScanStep(sub, text, i, satisfy, st, st);
      ScanDeep(sub, text, i + 1, t[1..], satisfy, st);
    }
  }

  lemma ScanParam(sub: Substitution, text: string, i: nat, t: string, satisfy: char, st: State)
    requires Occurs(text, i, Unit(Param(t))) && PieceFormed(Param(t)) && Idle(st) && Searched(satisfy)
    ensures i + |t| + 3 <= |text| && Scan(sub, text, i, satisfy, st) == Scan(sub, text, i + |t| + 3, satisfy, st)
  {
    hide Scan, Occurs, Step, Plain;
    ParamOccurs(text, i, t);
    ParamOpens(sub, text, i, satisfy, st);
    ScanDeep(sub, text, i + 2, t, satisfy, st.(level := st.level + 1));
    ScanClose(sub, text, i + 2 + |t|, satisfy, st.(level := st.level + 1));
  }

  lemma ParamOccurs(text: string, i: nat, t: string)
    requires Occurs(text, i, Unit(Param(t))) && PieceFormed(Param(t))
    ensures var k := i + 2 + |t|;
            && k < |text| && text[i] == '$' && text[i + 1] == '{' && Occurs(text, i + 2, t) && text[k] == '}'
            && !FunsubChar(text[i + 2])
  {
    hide Occurs, Unit, PieceFormed, FunsubChar;
    ParamUnit(t);
    OccursChar(text, i, '$', ['{'] + (t + ['}']));
    OccursChar(text, i + 1, '{', t + ['}']);
    OccursParts(text, i + 2, t, ['}']);
    OccursChar(text, i + 2 + |t|, '}', "");
    if t != "" {
      assert t == [t[0]] + t[1..];
      OccursChar(text, i + 2, t[0], t[1..]);
    }
    ParamFirst(t);
  }

  lemma ParamUnit(t: string)
    ensures Unit(Param(t)) == ['$'] + (['{'] + (t + ['}']))
  {
  }

  lemma ParamFirst(t: string)
    requires PieceFormed(Param(t))
    ensures !FunsubChar('}') && (t != "" ==> !FunsubChar(t[0]))
  {
    if t != "" { assert t[0] in t; }
  }

  lemma ParamOpens(sub: Substitution, text: string, i: nat, satisfy: char, st: State)
    requires i + 2 < |text| && text[i] == '$' && text[i + 1] == '{' && !FunsubChar(text[i + 2]) && Idle(st)
    ensures Scan(sub, text, i, satisfy, st) == Scan(sub, text, i + 2, satisfy, st.(level := st.level + 1))
  {
    hide Scan;
    var deep := st.(level := st.level + 1);
    ScanStep(sub, text, i, satisfy, st, deep.(passNext := true));
    ScanStep(sub, text, i + 1, satisfy, deep.(passNext := true), deep);
  }

  /** Braces change the level; a comma, or two dots, outside of them is remembered when a close brace
      is searched. */
  function Behind(text: string, i: nat, p: Piece, satisfy: char, st: State): State
    requires i < |text|
  {
    match p
    case Char(c) => if satisfy == '}' && st.level == 0 then Count(text, i, satisfy, st) else st
    case Open => st.(level := st.level + 1)
    case Close => if st.level > 0 then st.(level := st.level - 1) else st
    case _ => st
  }

  /** The scan does not stop at p. */
  predicate Goes(p: Piece, satisfy: char, st: State) {
    && (p.Open? ==> satisfy != '{' || st.level > 0)
    && (p.Close? ==> satisfy != '}' || st.level > 0 || st.commas == 0)
    && (p == Char(',') ==> satisfy != ',' || st.level > 0)
  }

  /** One piece of a word. */
  lemma ScanUnit(sub: Substitution, text: string, i: nat, p: Piece, satisfy: char, st: State)
    requires Occurs(text, i, Unit(p)) && PieceFormed(p) && Idle(st) && Searched(satisfy) && Goes(p, satisfy, st)
    requires Finds(sub, p)
    ensures i + |Unit(p)| <= |text|
    ensures Scan(sub, text, i, satisfy, st) == Scan(sub, text, i + |Unit(p)|, satisfy, Behind(text, i, p, satisfy, st))
  {
    hide Scan, Plain;
    match p
    case Char(c) =>
      OccursChar(text, i, c, "");
      CharStep(sub, text, i, satisfy, st);
      ScanStep(sub, text, i, satisfy, st, Behind(text, i, p, satisfy, st));
    case Escaped(c) =>
      OccursChar(text, i, '\\', [c]);
      OccursChar(text, i + 1, c, "");
      ScanStep(sub, text, i, satisfy, st, st.(passNext := true));
      ScanStep(sub, text, i + 1, satisfy, st.(passNext := true), st);
    case Quoted(q, t) => ScanQuoted(sub, text, i, q, t, satisfy, st);
    case Param(t) => ScanParam(sub, text, i, t, satisfy, st);
    case Comsub(c, t) =>
      SubstUnit(p);
      ScanSubst(sub, text, i, c, '(', t, ')', satisfy, st);
    case Funsub(t) =>
      SubstUnit(p);
      ScanSubst(sub, text, i, '$', '{', t, '}', satisfy, st);
    case Open =>
      OccursChar(text, i, '{', "");
      ScanOpen(sub, text, i, satisfy, st);
    case Close =>
      OccursChar(text, i, '}', "");
      if st.level > 0 {
        ScanClose(sub, text, i, satisfy, st);
      } else {
        StrayClose(sub, text, i, satisfy, st);
      }
  }

  lemma SubstUnit(p: Piece)
    ensures p.Comsub? ==> Unit(p) == [p.sign] + (['('] + (p.text + [')'])) && |Unit(p)| == |p.text| + 3
    ensures p.Funsub? ==> Unit(p) == ['$'] + (['{'] + (p.text + ['}'])) && |Unit(p)| == |p.text| + 3
  {
  }

  /** A substitution is jumped over. */
  lemma ScanSubst(sub: Substitution, text: string, i: nat, c: char, d: char, t: string, close: char, satisfy: char,
      st: State)
    requires Occurs(text, i, [c] + ([d] + (t + [close]))) && Idle(st) && sub(text, i + 2, UNQUOTED) == |t|
    requires (close == ')' && d == '(' && (c == '$' || c == '<' || c == '>'))
          || (close == '}' && c == '$' && d == '{' && t != "" && (Blank(t[0]) || t[0] == '|'))
    ensures i + |t| + 3 <= |text| && Scan(sub, text, i, satisfy, st) == Scan(sub, text, i + |t| + 3, satisfy, st)
  {
    hide Scan, Occurs, Step;
    OccursChar(text, i, c, [d] + (t + [close]));
    OccursChar(text, i + 1, d, t + [close]);
    OccursParts(text, i + 2, t, [close]);
    OccursChar(text, i + 2 + |t|, close, "");
    OccursText(text, i + 2, t);
    if close == '}' { assert text[i + 2 + 0] == t[0]; }
    SubstStep(sub, text, i, satisfy, st, |t|);
    ScanJump(sub, text, i, satisfy, st, i + |t| + 3);
  }

  lemma SubstStep(sub: Substitution, text: string, i: nat, satisfy: char, st: State, n: nat)
    requires i + n + 3 <= |text| && Idle(st) && sub(text, i + 2, st.quoted) == n
    requires (text[i + 1] == '(' && (text[i] == '$' || text[i] == '<' || text[i] == '>'))
          || (text[i] == '$' && text[i + 1] == '{' && (Blank(text[i + 2]) || text[i + 2] == '|'))
    ensures Step(sub, text, i, satisfy, st) == Go(i + n + 3, st)
  {
  }

  lemma ScanJump(sub: Substitution, text: string, i: nat, satisfy: char, st: State, j: nat)
    requires i < j <= |text| && Step(sub, text, i, satisfy, st) == Go(j, st)
    ensures Scan(sub, text, i, satisfy, st) == Scan(sub, text, j, satisfy, st)
  {
  }

  lemma CharStep(sub: Substitution, text: string, i: nat, satisfy: char, st: State)
    requires i < |text| && PieceFormed(Char(text[i])) && Idle(st) && Searched(satisfy)
    requires Goes(Char(text[i]), satisfy, st)
    ensures Step(sub, text, i, satisfy, st) == Go(i + 1, Behind(text, i, Char(text[i]), satisfy, st))
  {
  }

  lemma StrayClose(sub: Substitution, text: string, i: nat, satisfy: char, st: State)
    requires i < |text| && text[i] == '}' && Idle(st) && st.level == 0 && (satisfy == '}' ==> st.commas == 0)
    ensures Scan(sub, text, i, satisfy, st) == Scan(sub, text, i + 1, satisfy, st)
  {
    assert Step(sub, text, i, satisfy, st) == Go(i + 1, st);
  }

  lemma ScanOpen(sub: Substitution, text: string, i: nat, satisfy: char, st: State)
    requires i < |text| && text[i] == '{' && Idle(st) && Searched(satisfy) && (satisfy == '{' ==> st.level > 0)
    ensures Scan(sub, text, i, satisfy, st) == Scan(sub, text, i + 1, satisfy, st.(level := st.level + 1))
  {
    assert Step(sub, text, i, satisfy, st) == Go(i + 1, st.(level := st.level + 1));
  }

  lemma ScanClose(sub: Substitution, text: string, i: nat, satisfy: char, st: State)
    requires i < |text| && text[i] == '}' && Idle(st) && st.level > 0
    ensures Scan(sub, text, i, satisfy, st) == Scan(sub, text, i + 1, satisfy, st.(level := st.level - 1))
  {
    assert Step(sub, text, i, satisfy, st) == Go(i + 1, st.(level := st.level - 1));
  }

  /** A sequence is passed over as a whole. */
  lemma ScanRange(sub: Substitution, text: string, i: nat, w: Word, satisfy: char, st: State)
    requires w.Range? && Formed(w, false) && Occurs(text, i, Braced(w.x, w.y, w.z)) && Idle(st) && Searched(satisfy)
    requires satisfy == '{' ==> st.level > 0
    ensures var k := i + |Braced(w.x, w.y, w.z)|;
            k <= |text| && Scan(sub, text, i, satisfy, st) == Scan(sub, text, k, satisfy, st)
  {
    hide Scan, Step, Braced, SequenceText, IsEnd, IsIncrement, Numeral, Occurs;
    SequenceInside(text, i, w.x, w.y, w.z);
    var k := i + 1 + |SequenceText(w.x, w.y, w.z)|;
    var deep := st.(level := st.level + 1);
    ScanOpen(sub, text, i, satisfy, st);
    ScanTameDeep(sub, text, i + 1, k, satisfy, deep);
    ScanClose(sub, text, k, satisfy, deep);
  }

  lemma {:induction false} ScanTameDeep(sub: Substitution, text: string, i: nat, j: nat, satisfy: char, st: State)
    requires i <= j <= |text| && Idle(st) && st.level > 0 && Searched(satisfy)
    requires forall k :: i <= k < j ==> Tame(text[k])
    ensures Scan(sub, text, i, satisfy, st) == Scan(sub, text, j, satisfy, st)
    decreases j - i
  {
    hide Scan, Step;
    if i < j {
      TamePlain(text[i]);
      DeepStep(sub, text, i, satisfy, st);
      ScanStep(sub, text, i, satisfy, st, st);
      ScanTameDeep(sub, text, i + 1, j, satisfy, st);
    }
  }

  lemma TamePlain(c: char)
    requires Tame(c)
    ensures Plain(c)
  {
  }

  /** Behind a word inside d braces of its own: inside other braces nothing has changed, outside of
      them ".." may have been taken for a sequence. */
  predicate Passed(st: State, st': State, d: nat, satisfy: char) {
    && st.level >= d && Idle(st') && st'.level == st.level - d && st'.commas >= st.commas
    && (st.level > d || satisfy != '}' ==> st' == st.(level := st.level - d))
    && (st'.kind == st.kind || (st.kind == Neither && st'.kind == Sequence))
  }

  /** A balanced word, with everything in it. */
  lemma {:induction false} ScanWord(
      sub: Substitution, text: string, i: nat, w: Word, d: nat, blank: bool, satisfy: char,
      st: State) returns (st': State)
    requires Occurs(text, i, Print(w)) && Formed(w, blank) && Balanced(w, d) && Idle(st) && st.level >= d
    requires satisfy == '}' || satisfy == ','
    requires Known(sub, w)
    ensures Passed(st, st', d, satisfy)
    ensures Scan(sub, text, i, satisfy, st) == Scan(sub, text, i + |Print(w)|, satisfy, st')
    decreases w
  {
    hide Scan, Step, Print, PrintAlts, Occurs, Unit, Formed, Balanced, Behind, Goes, AllWellFormed, EndsBlank, Passed,
        PieceFormed;
    match w
    case Nil =>
      PrintNil();
      NilBalanced(d, satisfy, st);
      st' := st;
    case Lit(p, rest) =>
      LitOccurs(text, i, w);
      LitFormed(w, blank);
      var d' := DepthBehind(text, i, w, d, satisfy, st);
      ScanUnit(sub, text, i, p, satisfy, st);
      var mid := Behind(text, i, p, satisfy, st);
      IdleBehind(text, i, p, d, d', satisfy, st);
      st' := ScanWord(sub, text, i + |Unit(p)|, rest, d', EndsBlank(p), satisfy, mid);
      PassedOn(text, i, p, d, d', satisfy, st, st');
    case Group(alts, rest) =>
      var k := GroupOccurs(text, i, w);
      GroupFormed(w, blank, d);
      var deep := st.(level := st.level + 1);
      ScanOpen(sub, text, i, satisfy, st);
      var inside := ScanAlts(sub, text, i + 1, alts, satisfy, deep);
      ScanClose(sub, text, k, satisfy, inside);
      st' := ScanWord(sub, text, k + 1, rest, d, true, satisfy, st);
    case Range(x, y, z, rest) =>
      RangeOccurs(text, i, w);
      RangeBalanced(w, blank, d);
      ScanRange(sub, text, i, w, satisfy, st);
      st' := ScanWord(sub, text, i + |Braced(x, y, z)|, rest, d, true, satisfy, st);
  }

  lemma LitFormed(w: Word, blank: bool)
    requires w.Lit? && Formed(w, blank)
    ensures PieceFormed(w.piece) && Formed(w.rest, EndsBlank(w.piece))
    ensures w.piece.Open? ==> (blank && PassedOver(Print(w.rest))) || Unclosed(w.rest, 0, false)
  {
  }

  /** How many of its own braces are open behind the first piece of a balanced word. */
  lemma DepthBehind(text: string, i: nat, w: Word, d: nat, satisfy: char, st: State) returns (d': nat)
    requires w.Lit? && Balanced(w, d) && st.level >= d && (satisfy == '}' || satisfy == ',')
    ensures d' == (if w.piece.Open? then d + 1 else if w.piece.Close? then d - 1 else d) && Balanced(w.rest, d')
    ensures Goes(w.piece, satisfy, st) && (w.piece == Char(',') ==> st.level > 0) && (w.piece.Close? ==> d > 0)
  {
    d' := if w.piece.Open? then d + 1 else if w.piece.Close? then d - 1 else d;
  }

  lemma IdleBehind(text: string, i: nat, p: Piece, d: nat, d': nat, satisfy: char, st: State)
    requires i < |text| && st.level >= d && Idle(st) && (p.Close? ==> d > 0)
    requires d' == if p.Open? then d + 1 else if p.Close? then d - 1 else d
    ensures var mid := Behind(text, i, p, satisfy, st); Idle(mid) && mid.level >= d'
  {
  }

  lemma NilBalanced(d: nat, satisfy: char, st: State)
    requires Balanced(Nil, d) && Idle(st)
    ensures Passed(st, st, d, satisfy)
  {
  }

  lemma GroupFormed(w: Word, blank: bool, d: nat)
    requires w.Group? && Formed(w, blank) && Balanced(w, d)
    ensures AllWellFormed(w.alts) && Formed(w.rest, true) && Balanced(w.rest, d)
  {
  }

  lemma RangeBalanced(w: Word, blank: bool, d: nat)
    requires w.Range? && Formed(w, blank) && Balanced(w, d)
    ensures Formed(w, false) && Formed(w.rest, true) && Balanced(w.rest, d)
  {
  }

  lemma PassedOn(text: string, i: nat, p: Piece, d: nat, d': nat, satisfy: char, st: State, st': State)
    requires i < |text| && st.level >= d && (p == Char(',') ==> st.level > 0) && PieceFormed(p)
    requires p.Char? ==> text[i] == p.c
    requires d' == if p.Open? then d + 1 else if p.Close? then d - 1 else d
    requires Passed(Behind(text, i, p, satisfy, st), st', d', satisfy)
    ensures Passed(st, st', d, satisfy)
  {
  }

  lemma PrintNil()
    ensures Print(Nil) == ""
  {
  }

  lemma LitOccurs(text: string, i: nat, w: Word)
    requires w.Lit? && Occurs(text, i, Print(w))
    ensures Occurs(text, i, Unit(w.piece)) && Occurs(text, i + |Unit(w.piece)|, Print(w.rest))
    ensures |Print(w)| == |Unit(w.piece)| + |Print(w.rest)| && i < |text|
    ensures w.piece.Char? ==> text[i] == w.piece.c
  {
    OccursParts(text, i, Unit(w.piece), Print(w.rest));
    OccursText(text, i, Unit(w.piece));
    assert text[i + 0] == Unit(w.piece)[0];
  }

  lemma RangeOccurs(text: string, i: nat, w: Word)
    requires w.Range? && Occurs(text, i, Print(w))
    ensures var b := Braced(w.x, w.y, w.z);
            Occurs(text, i, b) && Occurs(text, i + |b|, Print(w.rest)) && |Print(w)| == |b| + |Print(w.rest)|
  {
    OccursParts(text, i, Braced(w.x, w.y, w.z), Print(w.rest));
  }

  lemma GroupOccurs(text: string, i: nat, w: Word) returns (k: nat)
    requires w.Group? && Occurs(text, i, Print(w))
    ensures k == i + 1 + |PrintAlts(w.alts)| < |text| && text[i] == '{' && text[k] == '}'
    ensures Occurs(text, i + 1, PrintAlts(w.alts)) && Occurs(text, k + 1, Print(w.rest))
    ensures i + |Print(w)| == k + 1 + |Print(w.rest)|
  {
    k := i + 1 + |PrintAlts(w.alts)|;
    OccursChar(text, i, '{', PrintAlts(w.alts) + ("}" + Print(w.rest)));
    OccursParts(text, i + 1, PrintAlts(w.alts), "}" + Print(w.rest));
    OccursChar(text, k, '}', Print(w.rest));
  }

  /** What follows the first alternative and its comma. */
  function PrintTail(a: Alts): string {
    if a.Two? then Print(a.last) else PrintAlts(a.others)
  }

  lemma AltsOccur(text: string, i: nat, a: Alts) returns (k: nat)
    requires Occurs(text, i, PrintAlts(a))
    ensures k == i + |Print(a.w)| < |text| && text[k] == ','
    ensures Occurs(text, i, Print(a.w)) && Occurs(text, k + 1, PrintTail(a))
    ensures i + |PrintAlts(a)| == k + 1 + |PrintTail(a)|
  {
    k := i + |Print(a.w)|;
    assert PrintAlts(a) == Print(a.w) + ("," + PrintTail(a));
    OccursParts(text, i, Print(a.w), "," + PrintTail(a));
    OccursChar(text, k, ',', PrintTail(a));
  }

  /** A comma inside braces, or directly inside those whose end is searched. */
  lemma ScanComma(sub: Substitution, text: string, i: nat, satisfy: char, st: State) returns (st': State)
    requires i < |text| && text[i] == ',' && Idle(st) && Searched(satisfy) && (st.level > 0 || satisfy == '}')
    ensures st' == if st.level > 0 then st else st.(kind := Commas, commas := st.commas + 1)
    ensures Scan(sub, text, i, satisfy, st) == Scan(sub, text, i + 1, satisfy, st')
  {
    st' := Count(text, i, satisfy, st);
    assert Step(sub, text, i, satisfy, st) == Go(i + 1, st');
  }

  /** The inside of braces: at an outer level nothing counts, at level 0 the commas do. */
  lemma {:induction false} ScanAlts(sub: Substitution, text: string, i: nat, a: Alts, satisfy: char, st: State)
    returns (st': State)
    requires Occurs(text, i, PrintAlts(a)) && AllWellFormed(a) && Idle(st)
    requires satisfy == '}' || (satisfy == ',' && st.level > 0)
    requires AltsKnown(sub, a)
    ensures Idle(st') && st'.level == st.level
    ensures st.level == 0 ==> st'.kind == Commas && st'.commas > 0
    ensures st.level > 0 ==> st' == st
    ensures Scan(sub, text, i, satisfy, st) == Scan(sub, text, i + |PrintAlts(a)|, satisfy, st')
    decreases a
  {
    hide Scan, Step, Plain, Print, PrintAlts, Occurs, Formed, Balanced;
    var k := AltsOccur(text, i, a);
    var mid := ScanWord(sub, text, i, a.w, 0, true, satisfy, st);
    mid := ScanComma(sub, text, k, satisfy, mid);
    if a.Two? {
      st' := ScanWord(sub, text, k + 1, a.last, 0, true, satisfy, mid);
    } else {
      st' := ScanAlts(sub, text, k + 1, a.others, satisfy, mid);
    }
  }

  // ---- braces that are never closed ----

  /** From an open brace that stands for itself, the scan for its close brace reaches the end. */
  lemma {:induction false} ScanUnclosed(sub: Substitution, text: string, i: nat, w: Word, blank: bool, marked: bool,
      st: State)
    requires Occurs(text, i, Print(w)) && i + |Print(w)| == |text| && Formed(w, blank)
    requires Unclosed(w, st.level, marked) && Idle(st)
    requires marked == (st.commas > 0) && (st.kind == Neither <==> st.commas == 0)
    requires Known(sub, w)
    ensures !Scan(sub, text, i, '}', st).hit
    decreases w
  {
    hide Scan, Step, Plain, Print, PrintAlts, Occurs, Unit, IsEnd, IsIncrement, Numeral;
    match w
    case Nil =>
      PrintNil();
      BraceScan.ScanEnd(sub, text, '}', st);
    case Lit(p, rest) =>
      LitOccurs(text, i, w);
      ScanUnit(sub, text, i, p, '}', st);
      var st' := Behind(text, i, p, '}', st);
      MarkedBehind(text, i, w, marked, st);
      ScanUnclosed(sub, text, i + |Unit(p)|, rest, EndsBlank(p), st'.commas > 0, st');
    case Group(alts, rest) =>
      var k := GroupOccurs(text, i, w);
      var deep := st.(level := st.level + 1);
      ScanOpen(sub, text, i, '}', st);
      var inside := ScanAlts(sub, text, i + 1, alts, '}', deep);
      ScanClose(sub, text, k, '}', deep);
      ScanUnclosed(sub, text, k + 1, rest, true, marked, st);
    case Range(x, y, z, rest) =>
      RangeOccurs(text, i, w);
      ScanRange(sub, text, i, w, '}', st);
      ScanUnclosed(sub, text, i + |Braced(x, y, z)|, rest, true, marked, st);
  }

  lemma MarkedBehind(text: string, i: nat, w: Word, marked: bool, st: State)
    requires w.Lit? && Occurs(text, i, Print(w)) && i + |Print(w)| == |text| && PieceFormed(w.piece)
    requires Unclosed(w, st.level, marked) && i < |text|
    requires marked == (st.commas > 0) && (st.kind == Neither <==> st.commas == 0)
    ensures var st' := Behind(text, i, w.piece, '}', st);
            && Unclosed(w.rest, st'.level, st'.commas > 0) && (st'.kind == Neither <==> st'.commas == 0)
            && st'.quoted == st.quoted && st'.passNext == st.passNext
  {
    var p, r := w.piece, Print(w.rest);
    if p.Char? {
      OccursText(text, i, [p.c] + r);
      assert text[i + 0] == p.c;
      assert At(text, i + 1) == At(r, 0) by { if r != "" { assert text[i + 1] == ([p.c] + r)[1]; } }
      assert At(text, i + 2) == At(r, 1) by { if |r| > 1 { assert text[i + 2] == ([p.c] + r)[2]; } }
    }
  }

  // ---- finding the first expression ----

  /** The characters in front of the first group or sequence. */
  function Lits(w: Word): string {
    if w.Lit? then Unit(w.piece) + Lits(w.rest) else ""
  }

  /** What follows them. */
  function Tail(w: Word): (t: Word)
    ensures !t.Lit? && (t == w || t < w)
  {
    if w.Lit? then Tail(w.rest) else w
  }

  lemma {:induction false} TailKnown(sub: Substitution, w: Word)
    requires Known(sub, w)
    ensures Known(sub, Tail(w))
    decreases w
  {
    hide Finds;
    if w.Lit? { TailKnown(sub, w.rest); }
  }

  lemma {:induction false} LitsFirst(w: Word, blank: bool)
    requires Formed(w, blank)
    ensures Print(w) == Lits(w) + Print(Tail(w))
    ensures Denote(w) == Prefixed(Lits(w), Denote(Tail(w)))
    ensures Formed(Tail(w), false)
  {
    hide Print, Denote, Formed, Unit, Prefixed;
    if w.Lit? {
      LitFormed(w, blank);
      LitParts(w);
      LitsFirst(w.rest, EndsBlank(w.piece));
      var u := Unit(w.piece);
      assert u + (Lits(w.rest) + Print(Tail(w))) == u + Lits(w.rest) + Print(Tail(w));
      PrefixedTwice(u, Lits(w.rest), Denote(Tail(w)));
    } else {
      PrefixedNothing(Denote(w));
      FormedTail(w, blank);
      assert "" + Print(w) == Print(w);
    }
  }

  lemma LitParts(w: Word)
    requires w.Lit?
    ensures Print(w) == Unit(w.piece) + Print(w.rest) && Denote(w) == Prefixed(Unit(w.piece), Denote(w.rest))
  {
  }

  lemma FormedTail(w: Word, blank: bool)
    requires !w.Lit? && Formed(w, blank)
    ensures Formed(w, false)
  {
  }

  lemma PrefixedNothing(b: seq<string>)
    ensures Prefixed("", b) == b
  {
    forall k | 0 <= k < |b| ensures "" + b[k] == b[k] { }
  }

  lemma PrefixedTwice(s: string, t: string, b: seq<string>)
    ensures Prefixed(s, Prefixed(t, b)) == Prefixed(s + t, b)
  {
    forall k | 0 <= k < |b| ensures s + (t + b[k]) == s + t + b[k] { }
  }

  /** Position i of a text is at its beginning, or behind a blank. */
  predicate BlankAt(text: string, i: nat)
    requires i <= |text|
  {
    i == 0 || Blank(text[i - 1])
  }

  /** The expression that a printed tail begins with, at position j. */
  function FirstIn(j: nat, t: Word): Option<Expression> {
    match t
    case Group(alts, _) => Some(Expression(j, j + 1 + |PrintAlts(alts)|, Commas))
    case Range(x, y, z, _) => Some(Expression(j, j + 1 + |SequenceText(x, y, z)|, Sequence))
    case _ => None
  }

  /** Where brace_expand finds the first expression of a printed word: braces in front of it that stand
      for themselves are skipped. */
  lemma {:induction false} FindInWord(sub: Substitution, text: string, i: nat, w: Word, blank: bool)
    requires Occurs(text, i, Print(w)) && i + |Print(w)| == |text| && Formed(w, blank) && NulFree(text)
    requires blank == BlankAt(text, i)
    requires Known(sub, w)
    ensures FindExpression(sub, text, i) == FirstIn(i + |Lits(w)|, Tail(w))
    decreases w
  {
    hide Print, PrintAlts, Gobble, Scan, Occurs, FindExpression, Unit, IsEnd, IsIncrement, Numeral, BlankAt, Unclosed,
        Lits, Tail, PieceFormed;
    match w
    case Nil =>
      PrintNil();
      NilTail();
      GobbleEnd(sub, text, '{');
      FindNone(sub, text, i);
    case Lit(p, rest) =>
      LitOccurs(text, i, w);
      var k := i + |Unit(p)|;
      BlankBehind(text, i, w);
      FindInWord(sub, text, k, rest, EndsBlank(p));
      if p.Open? { SkipOpen(sub, text, i, w, blank); } else { SkipPiece(sub, text, i, p); }
      LitsTail(w);
    case Group(alts, rest) =>
      NoLits(w);
      GroupFound(sub, text, i, w, blank);
    case Range(x, y, z, rest) =>
      NoLits(w);
      RangeFound(sub, text, i, w);
  }

  lemma NilTail()
    ensures Lits(Nil) == "" && Tail(Nil) == Nil
  {
  }

  lemma NoLits(w: Word)
    requires !w.Lit?
    ensures |Lits(w)| == 0 && Tail(w) == w
  {
  }

  lemma LitsTail(w: Word)
    requires w.Lit?
    ensures |Lits(w)| == |Unit(w.piece)| + |Lits(w.rest)| && Tail(w) == Tail(w.rest)
  {
  }

  lemma RangeFound(sub: Substitution, text: string, i: nat, w: Word)
    requires w.Range? && Formed(w, false) && Occurs(text, i, Print(w))
    ensures i <= |text|
    ensures FindExpression(sub, text, i) == Some(Expression(i, i + 1 + |SequenceText(w.x, w.y, w.z)|, Sequence))
  {
    hide Print, Occurs, Gobble, FindExpression, SequenceText, Braced, ValidSeqterm, IsEnd, IsIncrement, Numeral;
    RangeOccurs(text, i, w);
    RangeFormed(w);
    SequenceInside(text, i, w.x, w.y, w.z);
    OpenFound(sub, text, i);
    CloseFound(sub, text, i, w.x, w.y, w.z);
    SequenceValid(text, i, w.x, w.y, w.z);
    FindHere(sub, text, i);
  }

  predicate NulFree(s: string) { forall k :: 0 <= k < |s| ==> s[k] != '\0' }

  lemma BlankBehind(text: string, i: nat, w: Word)
    requires w.Lit? && Occurs(text, i, Print(w)) && PieceFormed(w.piece)
    ensures i + |Unit(w.piece)| <= |text| && EndsBlank(w.piece) == BlankAt(text, i + |Unit(w.piece)|)
  {
    LitOccurs(text, i, w);
    var u := Unit(w.piece);
    OccursText(text, i, u);
    assert text[i + (|u| - 1)] == u[|u| - 1];
  }

  /** A piece that is no open brace. */
  lemma SkipPiece(sub: Substitution, text: string, i: nat, p: Piece)
    requires Occurs(text, i, Unit(p)) && PieceFormed(p) && !p.Open?
    requires Finds(sub, p)
    ensures i + |Unit(p)| <= |text| && FindExpression(sub, text, i) == FindExpression(sub, text, i + |Unit(p)|)
  {
    hide Scan, FindExpression, Unit, Occurs;
    ScanUnit(sub, text, i, p, '{', Initial('{'));
    FindSame(sub, text, i, i + |Unit(p)|);
  }

  /** An open brace that stands for itself. */
  lemma SkipOpen(sub: Substitution, text: string, i: nat, w: Word, blank: bool)
    requires w.Lit? && w.piece.Open? && Occurs(text, i, Print(w)) && i + |Print(w)| == |text| && Formed(w, blank)
    requires blank == (i <= |text| && BlankAt(text, i)) && NulFree(text)
    requires Known(sub, w)
    ensures i + |Unit(w.piece)| == i + 1 <= |text| && FindExpression(sub, text, i) == FindExpression(sub, text, i + 1)
  {
    hide Scan, FindExpression, Unclosed, Print, Occurs, Formed, Gobble;
    OpenOccurs(text, i, w);
    LitFormed(w, blank);
    if Ignored(text, i) {
      OpenPassed(sub, text, i);
      FindSame(sub, text, i, i + 1);
    } else {
      NeverClosed(sub, text, i + 1, w.rest);
      OpenStops(sub, text, i);
      FindOn(sub, text, i);
    }
  }

  lemma NeverClosed(sub: Substitution, text: string, i: nat, w: Word)
    requires Occurs(text, i, Print(w)) && i + |Print(w)| == |text| && Formed(w, false) && Unclosed(w, 0, false)
    requires Known(sub, w)
    ensures !Gobble(sub, text, i, '}').hit
  {
    hide Scan, Unclosed, Print, Occurs, Formed;
    ScanUnclosed(sub, text, i, w, false, false, Initial('}'));
  }

  lemma OpenOccurs(text: string, i: nat, w: Word)
    requires w.Lit? && w.piece.Open? && Occurs(text, i, Print(w)) && i + |Print(w)| == |text| && NulFree(text)
    ensures i < |text| && text[i] == '{' && Occurs(text, i + 1, Print(w.rest)) && i + 1 + |Print(w.rest)| == |text|
    ensures |Unit(w.piece)| == 1
    ensures Ignored(text, i) == (BlankAt(text, i) && PassedOver(Print(w.rest)))
  {
    var r := Print(w.rest);
    OccursChar(text, i, '{', r);
    OccursText(text, i + 1, r);
    if r != "" { assert text[i + 1 + 0] == r[0]; }
  }

  lemma OpenPassed(sub: Substitution, text: string, i: nat)
    requires i < |text| && text[i] == '{' && Ignored(text, i)
    ensures Gobble(sub, text, i, '{') == Gobble(sub, text, i + 1, '{')
  {
    assert Step(sub, text, i, '{', Initial('{')) == Go(i + 1, Initial('{'));
  }

  lemma FindSame(sub: Substitution, text: string, i: nat, j: nat)
    requires i <= j <= |text| && Gobble(sub, text, i, '{') == Gobble(sub, text, j, '{')
    ensures FindExpression(sub, text, i) == FindExpression(sub, text, j)
  {
    hide Gobble;
  }

  /** An open brace that begins no expression is skipped. */
  lemma FindOn(sub: Substitution, text: string, i: nat)
    requires i < |text| && Gobble(sub, text, i, '{') == Found(i, true, Neither) && !Gobble(sub, text, i + 1, '}').hit
    ensures FindExpression(sub, text, i) == FindExpression(sub, text, i + 1)
  {
    hide Gobble;
  }

  lemma FindHere(sub: Substitution, text: string, i: nat)
    requires i < |text| && Gobble(sub, text, i, '{') == Found(i, true, Neither)
    requires var h := Gobble(sub, text, i + 1, '}'); h.hit && (h.kind == Sequence ==> ValidSeqterm(text, i + 1, h.at))
    ensures var h := Gobble(sub, text, i + 1, '}'); FindExpression(sub, text, i) == Some(Expression(i, h.at, h.kind))
  {
    hide Gobble, ValidSeqterm;
  }

  lemma FindNone(sub: Substitution, text: string, i: nat)
    requires i <= |text| && !Gobble(sub, text, i, '{').hit
    ensures FindExpression(sub, text, i) == None
  {
    hide Gobble;
  }

  /** The group at position i is found, up to its own close brace. */
  lemma GroupFound(sub: Substitution, text: string, i: nat, w: Word, blank: bool)
    requires w.Group? && Formed(w, blank) && Occurs(text, i, Print(w)) && NulFree(text)
    requires blank == (i <= |text| && BlankAt(text, i))
    requires Known(sub, w)
    ensures FindExpression(sub, text, i) == Some(Expression(i, i + 1 + |PrintAlts(w.alts)|, Commas))
  {
    hide Print, PrintAlts, Occurs, Plain, Gobble, Scan, FindExpression;
    var k := GroupOccurs(text, i, w);
    GroupNotIgnored(text, i, w, blank);
    OpenStops(sub, text, i);
    var st' := ScanAlts(sub, text, i + 1, w.alts, '}', Initial('}'));
    CloseStops(sub, text, k, st');
    GobbleIs(sub, text, i + 1, '}');
    FindHere(sub, text, i);
  }

  lemma GobbleIs(sub: Substitution, text: string, i: nat, satisfy: char)
    requires i <= |text|
    ensures Gobble(sub, text, i, satisfy) == Scan(sub, text, i, satisfy, Initial(satisfy))
  {
  }

  lemma GroupNotIgnored(text: string, i: nat, w: Word, blank: bool)
    requires w.Group? && Formed(w, blank) && Occurs(text, i, Print(w)) && NulFree(text)
    requires blank == (i <= |text| && BlankAt(text, i))
    ensures i < |text| && text[i] == '{' && !Ignored(text, i)
  {
    var k := GroupOccurs(text, i, w);
    OccursText(text, i + 1, PrintAlts(w.alts));
    AltsNonEmpty(w.alts);
    hide PrintAlts;
    assert text[i + 1 + 0] == PrintAlts(w.alts)[0];
  }

  lemma AltsNonEmpty(a: Alts)
    ensures PrintAlts(a) != ""
  {
  }

  lemma OpenStops(sub: Substitution, text: string, i: nat)
    requires i < |text| && text[i] == '{' && !Ignored(text, i)
    ensures Gobble(sub, text, i, '{') == Found(i, true, Neither)
  {
    assert Step(sub, text, i, '{', Initial('{')) == Stop(Found(i, true, Neither));
  }

  lemma CloseStops(sub: Substitution, text: string, k: nat, st: State)
    requires k < |text| && text[k] == '}' && Idle(st) && st.level == 0 && st.commas > 0
    ensures Scan(sub, text, k, '}', st) == Found(k, true, st.kind)
  {
    assert Step(sub, text, k, '}', st) == Stop(Found(k, true, st.kind));
  }

  lemma CommaStops(sub: Substitution, text: string, k: nat, st: State)
    requires k < |text| && text[k] == ',' && Idle(st) && st.level == 0 && st.commas > 0
    ensures Scan(sub, text, k, ',', st) == Found(k, true, st.kind)
  {
    assert Step(sub, text, k, ',', st) == Stop(Found(k, true, st.kind));
  }

  lemma OccursSelf(text: string)
    ensures Occurs(text, 0, text)
  {
  }

  lemma GobbleEnd(sub: Substitution, text: string, satisfy: char)
    ensures Gobble(sub, text, |text|, satisfy) == Found(|text|, false, Neither)
  {
  }

  // ---- the pieces between the commas ----

  function Words(a: Alts): seq<string> {
    match a
    case Two(w, last) => [Print(w), Print(last)]
    case More(w, others) => [Print(w)] + Words(others)
  }

  /** One word, and then the text ends or a comma follows. */
  lemma WordPiece(sub: Substitution, text: string, i: nat, w: Word)
    requires WellFormed(w) && Balanced(w, 0) && Occurs(text, i, Print(w))
    requires var k := i + |Print(w)|; k == |text| || (k < |text| && text[k] == ',')
    requires Known(sub, w)
    ensures var k := i + |Print(w)|;
            Gobble(sub, text, i, ',').at == k && Gobble(sub, text, i, ',').hit == (k < |text|)
  {
    hide Print, Occurs, Plain, Step, Formed, Balanced;
    var k := i + |Print(w)|;
    var st' := ScanWord(sub, text, i, w, 0, true, ',', Initial(','));
    if k < |text| { CommaStops(sub, text, k, st'); }
  }

  lemma {:induction false} PiecesAre(sub: Substitution, text: string, i: nat, a: Alts)
    requires AllWellFormed(a) && Occurs(text, i, PrintAlts(a)) && i + |PrintAlts(a)| == |text|
    requires AltsKnown(sub, a)
    ensures Pieces(sub, text, i) == Words(a)
    decreases a
  {
    hide Print, PrintAlts, Occurs, Plain, Gobble, Pieces, Formed, Balanced;
    var k := AltsOccur(text, i, a);
    WordPiece(sub, text, i, a.w);
    OccursText(text, i, Print(a.w));
    PiecesOn(sub, text, i);
    if a.Two? {
      WordPiece(sub, text, k + 1, a.last);
      OccursText(text, k + 1, Print(a.last));
      PiecesOn(sub, text, k + 1);
      assert text[k + 1..] == text[k + 1..k + 1 + |Print(a.last)|];
    } else {
      PiecesAre(sub, text, k + 1, a.others);
    }
  }

  lemma PiecesOn(sub: Substitution, text: string, i: nat)
    requires i <= |text|
    ensures var g := Gobble(sub, text, i, ',');
            Pieces(sub, text, i) == if g.hit then [text[i..g.at]] + Pieces(sub, text, g.at + 1) else [text[i..]]
  {
  }

  // ---- the theorem ----

  /** Main result: a printed word, with groups and sequences nested and in any order, and with braces
      that stand for themselves anywhere, expands to exactly the strings it stands for, in order. The
      oracle has to know where the substitutions in it end. */
  lemma {:induction false} ExpandPrinted(sub: Substitution, w: Word)
    requires WellFormed(w) && NulFree(Print(w))
    requires Known(sub, w)
    ensures Expand(sub, Print(w)) == Denote(w)
    decreases w, 1
  {
    hide *;
    match Tail(w)
    case Nil => PlainExpands(sub, w);
    case Group(_, _) => GroupExpands(sub, w, Tail(w));
    case Range(_, _, _, _) => RangeExpands(sub, w, Tail(w));
    case Lit(_, _) => TailNoLit(w);
  }

  lemma {:induction false} TailNoLit(w: Word)
    ensures !Tail(w).Lit?
    decreases w
  {
    if w.Lit? { TailNoLit(w.rest); }
  }

  lemma PlainExpands(sub: Substitution, w: Word)
    requires WellFormed(w) && Tail(w) == Nil && NulFree(Print(w)) && Known(sub, w)
    ensures Expand(sub, Print(w)) == Denote(w)
  {
    hide Gobble, FindExpression, Pieces, Product, Formed, Print, Occurs, Known;
    var text := Print(w);
    LitsFirst(w, true);
    OccursSelf(text);
    FindInWord(sub, text, 0, w, true);
    ExpandSome(sub, text);
    PrintNil();
    assert text == Lits(w) + "" == Lits(w);
    assert Denote(w) == Prefixed(Lits(w), [""]) == [text];
  }

  lemma {:induction false} GroupExpands(sub: Substitution, w: Word, t: Word)
    requires WellFormed(w) && t == Tail(w) && t.Group? && NulFree(Print(w))
    requires Known(sub, w)
    ensures Expand(sub, Print(w)) == Denote(w)
    decreases t, 0
  {
    hide Gobble, FindExpression, Pieces, Product, Print, PrintAlts, Expand, Occurs, ExpandAll, Lits, Tail, Formed,
        NulFree, Known, AltsKnown, AllWellFormed, Prefixed;
    var text, l := Print(w), Lits(w);
    TailKnown(sub, w);
    LitsFirst(w, true);
    OccursSelf(text);
    FindInWord(sub, text, 0, w, true);
    GroupParts(sub, w, t);
    var k := GroupText(w, t);
    ExpandCommas(sub, text, Expression(|l|, k, Commas));
    var amble := PrintAlts(t.alts);
    OccursSelf(amble);
    PiecesAre(sub, amble, 0, t.alts);
    AltsExpand(sub, t.alts, |amble|);
    ExpandPrinted(sub, t.rest);
    ProductRow(l, DenoteAlts(t.alts));
    PrefixedProduct(l, DenoteAlts(t.alts), Denote(t.rest));
  }

  lemma GroupParts(sub: Substitution, w: Word, t: Word)
    requires Known(sub, t) && t == Tail(w) && t.Group? && Formed(t, false)
    ensures Formed(t.rest, true) && AllWellFormed(t.alts) && FirstIn(|Lits(w)|, t).Some?
    ensures Known(sub, t.rest) && AltsKnown(sub, t.alts)
  {
  }

  /** Preamble, amble and postamble of a text. */
  lemma Ambles(text: string, l: string, a: string, r: string) returns (k: nat)
    requires text == l + ("{" + (a + ("}" + r))) && NulFree(text)
    ensures k == |l| + 1 + |a| < |text| && text[..|l|] == l && text[|l| + 1..k] == a && text[k + 1..] == r
    ensures text[|l|..k + 1] == "{" + a + "}" && NulFree(a) && NulFree(r)
  {
    k := |l| + 1 + |a|;
    forall j | 0 <= j < |a| ensures a[j] == text[|l| + 1 + j] { }
    forall j | 0 <= j < |r| ensures r[j] == text[k + 1 + j] { }
  }

  lemma GroupText(w: Word, t: Word) returns (k: nat)
    requires WellFormed(w) && t == Tail(w) && t.Group? && NulFree(Print(w))
    ensures k == |Lits(w)| + 1 + |PrintAlts(t.alts)| < |Print(w)|
    ensures var text := Print(w);
            text[..|Lits(w)|] == Lits(w) && text[|Lits(w)| + 1..k] == PrintAlts(t.alts)
                && text[k + 1..] == Print(t.rest) && NulFree(Print(t.rest)) && NulFree(PrintAlts(t.alts))
  {
    hide Formed, Lits, Tail, Denote, NulFree;
    LitsFirst(w, true);
    k := Ambles(Print(w), Lits(w), PrintAlts(t.alts), Print(t.rest));
  }

  lemma {:induction false} RangeExpands(sub: Substitution, w: Word, t: Word)
    requires WellFormed(w) && t == Tail(w) && t.Range? && NulFree(Print(w))
    requires Known(sub, w)
    ensures Expand(sub, Print(w)) == Denote(w)
    decreases t, 0
  {
    hide Gobble, FindExpression, Product, Print, Expand, Occurs, SeqTerm, Members, SequenceText, Braced, Lits, Tail,
        Formed, IsEnd, IsIncrement, Numeral;
    var text, l, b := Print(w), Lits(w), Braced(t.x, t.y, t.z);
    TailKnown(sub, w);
    LitsFirst(w, true);
    RangeFormed(t);
    OccursSelf(text);
    FindInWord(sub, text, 0, w, true);
    var k := RangeText(w, t);
    ExpandSome(sub, text);
    SequenceParses(t.x, t.y, t.z);
    ExpandPrinted(sub, t.rest);
    var d := DenoteRange(t.x, t.y, t.z);
    ProductRow(l, d);
    PrefixedProduct(l, d, Denote(t.rest));
    assert text[|l|..k + 1] == b;
    if k + 1 == |text| {
      NonEmpty(t.rest);
      assert t.rest == Nil;
      if Members(t.x, t.y, t.z).None? {
        ProductUnit(d);
        assert Denote(w) == Prefixed(l, [b]) == [l + b];
        assert l + b == text;
      }
    }
  }

  lemma RangeFormed(t: Word)
    requires t.Range? && Formed(t, false)
    ensures IsEnd(t.x) && IsEnd(t.y) && IsIncrement(t.z) && Formed(t.rest, true)
  {
  }

  lemma NonEmpty(w: Word)
    ensures w.Nil? || Print(w) != ""
  {
    hide Braced;
    if w.Range? { BracedNonEmpty(w.x, w.y, w.z); }
  }

  lemma BracedNonEmpty(x: string, y: string, z: string)
    ensures |Braced(x, y, z)| > 0
  {
  }

  lemma RangeText(w: Word, t: Word) returns (k: nat)
    requires WellFormed(w) && t == Tail(w) && t.Range? && NulFree(Print(w))
    ensures k == |Lits(w)| + 1 + |SequenceText(t.x, t.y, t.z)| < |Print(w)|
    ensures var text := Print(w);
            text[..|Lits(w)|] == Lits(w) && text[|Lits(w)| + 1..k] == SequenceText(t.x, t.y, t.z)
                && text[|Lits(w)|..k + 1] == Braced(t.x, t.y, t.z)
                && text[k + 1..] == Print(t.rest) && NulFree(Print(t.rest))
  {
    hide Formed, Lits, Tail, Denote, NulFree, SequenceText;
    LitsFirst(w, true);
    var s, r := SequenceText(t.x, t.y, t.z), Print(t.rest);
    assert Print(t) == "{" + s + "}" + r == "{" + (s + ("}" + r));
    k := Ambles(Print(w), Lits(w), s, r);
  }

  lemma ExpandOne(sub: Substitution, p: string, size: nat)
    requires |p| <= size
    ensures ExpandAll(sub, [p], size) == Expand(sub, p)
  {
    hide Expand;
    assert [p][1..] == [];
  }

  lemma {:induction false} AltsExpand(sub: Substitution, a: Alts, size: nat)
    requires AllWellFormed(a) && Within(Words(a), size) && NulFree(PrintAlts(a))
    requires AltsKnown(sub, a)
    ensures ExpandAll(sub, Words(a), size) == DenoteAlts(a)
    decreases a
  {
    hide Expand, Formed, Balanced, Print;
    NulFreeParts(Print(a.w), PrintTail(a));
    assert PrintAlts(a) == Print(a.w) + ("," + PrintTail(a));
    ExpandPrinted(sub, a.w);
    assert Words(a)[0] == Print(a.w);
    if a.Two? {
      ExpandPrinted(sub, a.last);
      assert Words(a)[1] == Print(a.last);
      assert Words(a)[1..] == [Print(a.last)];
      ExpandOne(sub, Print(a.last), size);
    } else {
      assert Words(a)[1..] == Words(a.others);
      AltsExpand(sub, a.others, size);
    }
  }

  lemma NulFreeParts(s: string, t: string)
    requires NulFree(s + ("," + t))
    ensures NulFree(s) && NulFree(t)
  {
    var u := s + ("," + t);
    forall k | 0 <= k < |s| ensures s[k] != '\0' { assert u[k] == s[k]; }
    forall k | 0 <= k < |t| ensures t[k] != '\0' { assert u[|s| + 1 + k] == t[k]; }
  }
}
