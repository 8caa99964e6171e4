/** The parser finds every well-formed tree: together with ParseSound, the grammar of
    bash/expr.c is unambiguous and ParseAll decides it. */
module ExprUnambiguous {
  import opened CStrings
  import opened ExprLex
  import opened ExprGrammar

  /** How strongly a token binds to a phrase on its left; a phrase of level k stops at tokens
      weaker than k. */
  function Strength(t: Token): int {
    match t
    case AssignOp(_) => ASSIGNMENT
    case Lit(_) => -1
    case Sym(k) =>
      if OpLevel(k) <= POWER then OpLevel(k)
      else if k == Ques then CONDITIONAL
      else if k == Eq || IsPost(k) then 99
      else -1
    case _ => 99
  }

  lemma {:induction false} YieldStarts(t: Tree)
    requires WellFormed(t)
    ensures !Yield(t)[0].Bad?
    ensures Level(t) == PRIMARY ==> !(Yield(t)[0].Sym? && IsUnary(Yield(t)[0].kind))
  {
    match t
    case Bin(_, l, _) => YieldStarts(l);
    case Cond(c, _, _) => YieldStarts(c);
    case ModUpdate(l, _, _, _) => YieldStarts(l);
    case _ =>
  }

  /** A phrase followed by a token and another phrase, regrouped at that token. */
  lemma Regroup(a: seq<Token>, x: Token, b: seq<Token>, rest: seq<Token>)
    ensures a + [x] + b + rest == a + ([x] + b + rest)
  {
  }

  lemma HeadedSeq(x: Token, y: seq<Token>, rest: seq<Token>)
    requires |y| > 0
    ensures ([x] + y + rest)[0] == x
    ensures ([x] + y + rest)[1..] == y + rest
  {
  }

  /** A token in front of the yield of t. */
  lemma Headed(x: Token, t: Tree, rest: seq<Token>)
    ensures ([x] + Yield(t) + rest)[0] == x
    ensures forall k :: 0 <= k <= PRIMARY ==> Follow(k, [x] + Yield(t) + rest) == Parse(k, Yield(t) + rest)
  {
    hide Parse;
    HeadedSeq(x, Yield(t), rest);
  }

  lemma {:induction false} Complete(k: nat, t: Tree, rest: seq<Token>)
    requires k <= PRIMARY && WellFormed(t) && Level(t) >= k
    requires |rest| > 0 && Strength(rest[0]) < k
    ensures Parse(k, Yield(t) + rest) == Parsed(t, rest)
    decreases |Yield(t)|, PRIMARY - k + 1, 1
  {
    if LoopLevel(k) {
      CompleteLoop(k, t, rest);
    } else if k == ASSIGNMENT {
      CompleteAssign(t, rest);
    } else if k == CONDITIONAL {
      CompleteCond(t, rest);
    } else if k == POWER {
      CompletePower(t, rest);
    } else if k == UNARY {
      CompleteUnary(t, rest);
    } else {
      CompletePrimary(t, rest);
    }
  }

  /** Left-associative levels: when the phrase t has been read, the loop goes on from t. */
  lemma {:induction false} CompleteLoop(k: nat, t: Tree, rest: seq<Token>)
    requires LoopLevel(k) && WellFormed(t) && Level(t) >= k
    requires |rest| > 0 && Strength(rest[0]) <= k
    ensures Parse(k, Yield(t) + rest) == ParseLoop(k, t, rest)
    decreases |Yield(t)|, PRIMARY - k + 1, 0
  {
    hide Parse, ParseLoop, Follow;
    if Level(t) > k {
      Complete(k + 1, t, rest);
      LoopStart(k, t, Yield(t) + rest, rest);
    } else {
      var l, r := t.left, t.right;
      var tail := [Sym(t.op)] + Yield(r) + rest;
      Regroup(Yield(l), Sym(t.op), Yield(r), rest);
      CompleteLoop(k, l, tail);
      Complete(k + 1, r, rest);
      LoopStep(k, t.op, l, r, rest);
    }
  }

  lemma LoopStart(k: nat, t: Tree, ts: seq<Token>, rest: seq<Token>)
    requires LoopLevel(k) && |ts| > 0 && Parse(k + 1, ts) == Parsed(t, rest)
    ensures Parse(k, ts) == ParseLoop(k, t, rest)
  {
    hide ParseLoop, Follow;
  }

  /** One more operand. */
  lemma LoopStep(k: nat, op: Kind, l: Tree, r: Tree, rest: seq<Token>)
    requires LoopLevel(k) && OpLevel(op) == k && |rest| > 0 && !rest[0].Bad? && !rest[0].Id?
    requires Parse(k + 1, Yield(r) + rest) == Parsed(r, rest)
    ensures ParseLoop(k, l, [Sym(op)] + Yield(r) + rest) == ParseLoop(k, Bin(op, l, r), rest)
  {
    hide Parse, Follow, Yield, OpLevel;
    Headed(Sym(op), r, rest);
  }

  /** A name in front of "=" is read as an assignment target at every level below assignment. */
  lemma {:induction false} TargetRead(k: nat, x: string, rest: seq<Token>)
    requires CONDITIONAL <= k <= PRIMARY && |rest| > 0 && IsSym(rest[0], Eq)
    ensures Parse(k, [Id(x)] + rest) == Parsed(Target(x), rest)
    decreases PRIMARY - k
  {
    var ts := [Id(x)] + rest;
    assert ts[1..] == rest && !PeekFails(rest);
    if k < PRIMARY { TargetRead(k + 1, x, rest); }
  }

  /** An assignment, from its left side and its right side. */
  lemma AssignJoin(m: Tree, op: Token, e: Tree, rest: seq<Token>)
    requires IsLeftSide(m, op) && (op.AssignOp? || IsSym(op, Eq))
    requires Parse(CONDITIONAL, Yield(m) + ([op] + Yield(e) + rest)) == Parsed(m, [op] + Yield(e) + rest)
    requires Parse(ASSIGNMENT, Yield(e) + rest) == Parsed(e, rest)
    ensures ParseAssign(Yield(m) + [op] + Yield(e) + rest) == Parsed(MakeAssign(m, op, e), rest)
  {
    Regroup(Yield(m), op, Yield(e), rest);
    Headed(op, e, rest);
  }

  lemma {:induction false} CompleteAssign(t: Tree, rest: seq<Token>)
    requires WellFormed(t) && Level(t) >= ASSIGNMENT
    requires |rest| > 0 && Strength(rest[0]) < ASSIGNMENT
    ensures ParseAssign(Yield(t) + rest) == Parsed(t, rest)
    decreases |Yield(t)|, PRIMARY - ASSIGNMENT + 1, 0
  {
    if t.Assign? {
      var m := Target(t.name);
      TargetRead(CONDITIONAL, t.name, [Sym(Eq)] + Yield(t.rhs) + rest);
      Complete(ASSIGNMENT, t.rhs, rest);
      YieldAssign(m, Sym(Eq), t.rhs);
      AssignJoin(m, Sym(Eq), t.rhs, rest);
    } else if t.Update? {
      var m := Var(t.name);
      Complete(CONDITIONAL, m, [AssignOp(t.op)] + Yield(t.rhs) + rest);
      Complete(ASSIGNMENT, t.rhs, rest);
      YieldAssign(m, AssignOp(t.op), t.rhs);
      AssignJoin(m, AssignOp(t.op), t.rhs, rest);
    } else if t.ModUpdate? {
      CompleteModUpdate(t, rest);
    } else {
      Complete(CONDITIONAL, t, rest);
    }
  }

  lemma {:induction false} CompleteModUpdate(t: Tree, rest: seq<Token>)
    requires WellFormed(t) && t.ModUpdate?
    requires |rest| > 0 && Strength(rest[0]) < ASSIGNMENT
    ensures ParseAssign(Yield(t) + rest) == Parsed(t, rest)
    decreases |Yield(t)|, PRIMARY - ASSIGNMENT, 0
  {
    var m := Bin(Mod, t.left, Var(t.name));
    var op := AssignOp(t.op);
    YieldAssign(m, op, t.rhs);
    assert |Yield(m)| < |Yield(t)|;
    Complete(CONDITIONAL, m, [op] + Yield(t.rhs) + rest);
    Complete(ASSIGNMENT, t.rhs, rest);
    AssignJoin(m, op, t.rhs, rest);
  }

  /** A conditional, from its three parts. */
  lemma CondJoin(ts: seq<Token>, c: Tree, all: seq<Token>, a: Tree, tail: seq<Token>, b: Tree, rest: seq<Token>)
    requires |ts| > 0 && |all| > 0 && all[0] == Sym(Ques) && |tail| > 0 && tail[0] == Sym(Col)
    requires Parse(CONDITIONAL + 1, ts) == Parsed(c, all)
    requires Follow(0, all) == Parsed(a, tail)
    requires Follow(CONDITIONAL, tail) == Parsed(b, rest)
    ensures ParseCond(ts) == Parsed(Cond(c, a, b), rest)
  {
    hide Parse, Follow;
  }

  lemma YieldCond(c: Tree, a: Tree, b: Tree, rest: seq<Token>)
    ensures Yield(Cond(c, a, b)) + rest == Yield(c) + ([Sym(Ques)] + Yield(a) + ([Sym(Col)] + Yield(b) + rest))
  {
    Regroup(Yield(c) + [Sym(Ques)] + Yield(a), Sym(Col), Yield(b), rest);
    Regroup(Yield(c), Sym(Ques), Yield(a), [Sym(Col)] + Yield(b) + rest);
  }

  lemma {:induction false} CompleteCond(t: Tree, rest: seq<Token>)
    requires WellFormed(t) && Level(t) >= CONDITIONAL
    requires |rest| > 0 && Strength(rest[0]) < CONDITIONAL
    ensures ParseCond(Yield(t) + rest) == Parsed(t, rest)
    decreases |Yield(t)|, PRIMARY - CONDITIONAL + 1, 0
  {
    if t.Cond? {
      var c, a, b := t.test, t.yes, t.no;
      var tail := [Sym(Col)] + Yield(b) + rest;
      var all := [Sym(Ques)] + Yield(a) + tail;
      Complete(CONDITIONAL + 1, c, all);
      Complete(0, a, tail);
      Complete(CONDITIONAL, b, rest);
      Headed(Sym(Ques), a, tail);
      Headed(Sym(Col), b, rest);
      CondJoin(Yield(c) + all, c, all, a, tail, b, rest);
      YieldCond(c, a, b, rest);
    } else {
      Complete(CONDITIONAL + 1, t, rest);
    }
  }

  lemma {:induction false} CompletePower(t: Tree, rest: seq<Token>)
    requires WellFormed(t) && Level(t) >= POWER
    requires |rest| > 0 && Strength(rest[0]) < POWER
    ensures ParsePower(Yield(t) + rest) == Parsed(t, rest)
    decreases |Yield(t)|, PRIMARY - POWER + 1, 0
  {
    if t.Bin? {
      Regroup(Yield(t.left), Sym(Power), Yield(t.right), rest);
      Headed(Sym(Power), t.right, rest);
      Complete(UNARY, t.left, [Sym(Power)] + Yield(t.right) + rest);
      Complete(POWER, t.right, rest);
    } else {
      Complete(UNARY, t, rest);
    }
  }

  lemma {:induction false} CompleteUnary(t: Tree, rest: seq<Token>)
    requires WellFormed(t) && Level(t) >= UNARY
    requires |rest| > 0 && Strength(rest[0]) < UNARY
    ensures ParseUnary(Yield(t) + rest) == Parsed(t, rest)
    decreases |Yield(t)|, PRIMARY - UNARY + 1, 0
  {
    YieldStarts(t);
    if t.Unary? {
      Headed(Sym(t.op), t.arg, rest);
      Complete(UNARY, t.arg, rest);
    } else {
      Complete(PRIMARY, t, rest);
    }
  }

  lemma {:induction false} CompletePrimary(t: Tree, rest: seq<Token>)
    requires WellFormed(t) && Level(t) == PRIMARY
    requires |rest| > 0 && Strength(rest[0]) < PRIMARY
    ensures ParsePrimary(Yield(t) + rest) == Parsed(t, rest)
    decreases |Yield(t)|, 1, 0
  {
    var ts := Yield(t) + rest;
    assert !ReadFails(rest) && !PeekFails(rest);
    match t
    case Paren(e) => CompleteParen(e, rest);
    case PreStep(k, x) => assert ts[1..] == [Id(x)] + rest && ts[2..] == ts[1..][1..] == rest;
    case PostStep(x, k) => assert ts[1..] == [Sym(k)] + rest && ts[1..][1..] == rest;
    case Const(_) => assert ts[1..] == rest;
    case Var(_) => assert ts[1..] == rest;
    case _ =>
  }

  lemma {:induction false} CompleteParen(e: Tree, rest: seq<Token>)
    requires WellFormed(e) && |rest| > 0 && Strength(rest[0]) < PRIMARY
    ensures ParsePrimary(Yield(Paren(e)) + rest) == Parsed(Paren(e), rest)
    decreases |Yield(e)| + 1, 1, 0
  {
    hide Parse, Follow, ParsePrimary, Yield;
    var tail, ts := [Sym(RPar)] + rest, Yield(Paren(e)) + rest;
    Complete(0, e, tail);
    Headed(Sym(LPar), e, tail);
    ParenYield(e);
    assert ts == [Sym(LPar)] + Yield(e) + tail;
    assert tail[1..] == rest;
    ParenRead(ts, e, tail);
  }

  lemma ParenRead(ts: seq<Token>, e: Tree, tail: seq<Token>)
    requires |ts| > 0 && ts[0] == Sym(LPar) && Follow(0, ts) == Parsed(e, tail)
    requires |tail| > 1 && tail[0] == Sym(RPar) && Strength(tail[1]) < PRIMARY
    ensures ParsePrimary(ts) == Parsed(Paren(e), tail[1..])
  {
    hide Follow;
    assert !ReadFails(tail[1..]);
  }

  lemma ParenYield(e: Tree)
    ensures Yield(Paren(e)) == [Sym(LPar)] + Yield(e) + [Sym(RPar)]
  {
  }

  // ---- whole texts ----

  predicate EndsOnce(ts: seq<Token>) {
    forall j :: 0 <= j < |ts| && ts[j] == Sym(End) ==> j == |ts| - 1
  }

  lemma {:induction false} StreamEndsOnce(s: string, i: nat, stepped: bool, ctx: Context)
    requires i <= |s|
    ensures EndsOnce(Stream(s, i, stepped, ctx))
    decreases |s| - i
  {
    var l := Lex(s, i, ctx);
    if !l.tok.Bad? && l.tok != Sym(End) {
      StreamEndsOnce(s, l.next, IsStep(KindOf(l.tok)), NextContext(stepped, l.tok));
    }
  }

  lemma ParsedIsYield(ts: seq<Token>, t: Tree)
    requires |ts| > 0 && EndsOnce(ts) && ParseAll(ts) == Some(t)
    ensures WellFormed(t) && ts == Yield(t) + [Sym(End)]
  {
    ParseSound(0, ts);
    var rest := Parse(0, ts).rest;
    assert ts[|Yield(t)|] == rest[0];
    assert rest == [Sym(End)];
  }

  lemma YieldIsParsed(t: Tree)
    requires WellFormed(t)
    ensures ParseAll(Yield(t) + [Sym(End)]) == Some(t)
  {
    var rest := [Sym(End)];
    assert IsSym(rest[0], End);
    Complete(0, t, rest);
  }

  /** Exactness: a text parses to t exactly when t respects the precedence table and its leaves,
      in order, are the tokens of the text. */
  lemma GrammarExact(s: string, t: Tree)
    ensures ParseAll(Tokens(s)) == Some(t) <==> WellFormed(t) && Tokens(s) == Yield(t) + [Sym(End)]
  {
    StreamEndsOnce(s, 0, false, Plain);
    if ParseAll(Tokens(s)) == Some(t) {
      ParsedIsYield(Tokens(s), t);
    } else if WellFormed(t) && Tokens(s) == Yield(t) + [Sym(End)] {
      YieldIsParsed(t);
    }
  }

  /** No text has two readings. */
  lemma Unambiguous(t: Tree, u: Tree)
    requires WellFormed(t) && WellFormed(u) && Yield(t) == Yield(u)
    ensures t == u
  {
    YieldIsParsed(t);
    YieldIsParsed(u);
  }
}
