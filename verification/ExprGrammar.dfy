/** The grammar of arithmetic expressions: the precedence table of bash/expr.c:25-48 and, beyond it,
    the assignments behind "%" that lines 923-927 let pass (ModUpdate); as trees with their token
    yields, and a parser for it. The parser is proved to accept exactly the yields of well-formed
    trees. For every other sequence of tokens it gives a tree that breaks off where reading stops:
    what stands in front of that place is complete. */
module ExprGrammar {
  import opened CStrings
  import opened Int64
  import opened ExprLex

  datatype Tree =
    | Const(value: int64)
    | Var(name: string)
    | Target(name: string)                                 // a name in front of "="
    | Paren(body: Tree)
    | PreStep(kind: Kind, name: string)                    // ++x and --x
    | PostStep(name: string, kind: Kind)                   // x++ and x--
    | Unary(op: Kind, arg: Tree)
    | Bin(op: Kind, left: Tree, right: Tree)
    | Cond(test: Tree, yes: Tree, no: Tree)
    | Assign(name: string, rhs: Tree)
    | Update(name: string, op: Kind, rhs: Tree)            // x op= rhs
    | ModUpdate(left: Tree, name: string, op: Kind, rhs: Tree)  // left % x op= rhs, see README
    | Stuck                                                // where nothing can be read
    | Cut(front: Tree)                                     // front, behind which nothing can be read
    | Stray(front: Tree, name: string)                     // an operand, and a name that is read behind it

  const ASSIGNMENT: nat := 1
  const CONDITIONAL: nat := 2
  const POWER: nat := 13
  const UNARY: nat := 14
  const PRIMARY: nat := 15

  /** Precedence of a binary operator, 0 (comma) to 13 (power); 99 for every other kind. */
  function OpLevel(k: Kind): nat {
    match k
    case Comma => 0
    case LOr => 3
    case LAnd => 4
    case BOr => 5
    case BXor => 6
    case BAnd => 7
    case EqEq | Neq => 8
    case Leq | Geq | Lt | Gt => 9
    case LSh | RSh => 10
    case Plus | Minus => 11
    case Mul | Div | Mod => 12
    case Power => 13
    case _ => 99
  }

  predicate IsUnary(k: Kind) { k == Not || k == BNot || k == Minus || k == Plus }

  predicate IsPost(k: Kind) { k == PostInc || k == PostDec }

  /** Levels whose operators associate to the left: a loop in the source. */
  predicate LoopLevel(k: nat) { k == 0 || 3 <= k <= 12 }

  function Level(t: Tree): nat {
    match t
    case Unary(_, _) => UNARY
    case Bin(op, _, _) => OpLevel(op)
    case Cond(_, _, _) => CONDITIONAL
    case Assign(_, _) => ASSIGNMENT
    case Update(_, _, _) => ASSIGNMENT
    case ModUpdate(_, _, _, _) => ASSIGNMENT
    case _ => PRIMARY
  }

  /** t respects the precedence table; a binary operator has operands of its own level only on
      the side it associates to. */
  predicate WellFormed(t: Tree) {
    match t
    case Const(_) => true
    case Var(_) => true
    case Target(_) => false
    case Paren(e) => WellFormed(e)
    case PreStep(k, _) => IsStep(k)
    case PostStep(_, k) => IsPost(k)
    case Unary(op, e) => IsUnary(op) && WellFormed(e) && Level(e) >= UNARY
    case Bin(op, l, r) =>
      OpLevel(op) <= POWER && WellFormed(l) && WellFormed(r) &&
      (if op == Power then Level(l) > POWER && Level(r) >= POWER
       else Level(l) >= OpLevel(op) && Level(r) > OpLevel(op))
    case Cond(c, a, b) =>
      WellFormed(c) && WellFormed(a) && WellFormed(b) && Level(c) > CONDITIONAL && Level(b) >= CONDITIONAL
    case Assign(_, e) => WellFormed(e) && Level(e) >= ASSIGNMENT
    case Update(_, op, e) => WellFormed(e) && Level(e) >= ASSIGNMENT
    case ModUpdate(l, _, op, e) =>
      WellFormed(l) && Level(l) >= OpLevel(Mod) && WellFormed(e) && Level(e) >= ASSIGNMENT
    case _ => false
  }

  function Yield(t: Tree): (ts: seq<Token>)
    ensures |ts| > 0
  {
    match t
    case Const(n) => [Lit(n)]
    case Var(x) => [Id(x)]
    case Target(x) => [Id(x)]
    case Paren(e) => [Sym(LPar)] + Yield(e) + [Sym(RPar)]
    case PreStep(k, x) => [Sym(k), Id(x)]
    case PostStep(x, k) => [Id(x), Sym(k)]
    case Unary(op, e) => [Sym(op)] + Yield(e)
    case Bin(op, l, r) => Yield(l) + [Sym(op)] + Yield(r)
    case Cond(c, a, b) => Yield(c) + [Sym(Ques)] + Yield(a) + [Sym(Col)] + Yield(b)
    case Assign(x, e) => [Id(x), Sym(Eq)] + Yield(e)
    case Update(x, op, e) => [Id(x), AssignOp(op)] + Yield(e)
    case ModUpdate(l, x, op, e) => Yield(l) + [Sym(Mod), Id(x), AssignOp(op)] + Yield(e)
    case Stuck => [Bad(false)]
    case Cut(e) => Yield(e) + [Bad(false)]
    case Stray(e, x) => Yield(e) + [Id(x)]
  }

  // ---- the parser ----

  /** A phrase and what follows it. Where reading stops, there is only the tree that breaks off. A
      name behind an operand is read as well; nothing can follow it, but the phrases that end there
      are completed: such a tree is astray. */
  datatype Parsed = Fail(tree: Tree) | Astray(tree: Tree) | Parsed(tree: Tree, rest: seq<Token>)

  predicate IsSym(t: Token, k: Kind) { t == Sym(k) }

  predicate Continues(k: nat, t: Token) { t.Sym? && OpLevel(t.kind) == k }

  /** The tree of a phrase that cannot be continued. */
  function CutOff(p: Parsed): Tree { if p.Fail? then p.tree else Cut(p.tree) }

  /** The same with a larger tree. */
  function WithTree(p: Parsed, t: Tree): Parsed {
    match p
    case Fail(_) => Fail(t)
    case Astray(_) => Astray(t)
    case Parsed(_, r) => Parsed(t, r)
  }

  /** Behind the operand e, whose last token is ts[0]; forced says that a name is looked up even in
      front of "=". */
  function Behind(e: Tree, ts: seq<Token>, forced: bool): (p: Parsed)
    requires |ts| > 0
    ensures p.Parsed? ==> 0 < |p.rest| < |ts| && !p.rest[0].Bad? && !p.rest[0].Id?
  {
    if ReadFails(ts[1..]) then Fail(Cut(e))
    else if !ts[1].Id? then Parsed(e, ts[1..])
    else Astray(if !forced && |ts| >= 3 && IsSym(ts[2], Eq) then e else Stray(e, ts[1].name))
  }

  /** A phrase of level k at the start of ts, as long as possible. */
  function Parse(k: nat, ts: seq<Token>): (p: Parsed)
    requires k <= PRIMARY && |ts| > 0
    ensures p.Parsed? ==> 0 < |p.rest| < |ts| && !p.rest[0].Bad? && !p.rest[0].Id?
    decreases |ts|, PRIMARY - k + 1, 1
  {
    if LoopLevel(k) then
      var p := Parse(k + 1, ts);
      if p.Parsed? then ParseLoop(k, p.tree, p.rest) else p
    else if k == ASSIGNMENT then ParseAssign(ts)
    else if k == CONDITIONAL then ParseCond(ts)
    else if k == POWER then ParsePower(ts)
    else if k == UNARY then ParseUnary(ts)
    else ParsePrimary(ts)
  }

  /** A phrase of level k behind ts[0]. */
  function Follow(k: nat, ts: seq<Token>): (p: Parsed)
    requires k <= PRIMARY && |ts| > 0
    ensures p.Parsed? ==> 0 < |p.rest| < |ts| && !p.rest[0].Bad? && !p.rest[0].Id?
    decreases |ts|, 0, 0
  {
    if |ts| >= 2 then Parse(k, ts[1..]) else Fail(Stuck)
  }

  function ParseLoop(k: nat, t: Tree, ts: seq<Token>): (p: Parsed)
    requires LoopLevel(k) && |ts| > 0 && !ts[0].Bad? && !ts[0].Id?
    ensures p.Parsed? ==> 0 < |p.rest| <= |ts| && !p.rest[0].Bad? && !p.rest[0].Id?
    decreases |ts|, PRIMARY - k + 1, 1
  {
    if !Continues(k, ts[0]) then Parsed(t, ts)
    else
      var p := Follow(k + 1, ts);
      var u := Bin(ts[0].kind, t, p.tree);
      if p.Parsed? then ParseLoop(k, u, p.rest) else WithTree(p, u)
  }

  function ParseAssign(ts: seq<Token>): (p: Parsed)
    requires |ts| > 0
    ensures p.Parsed? ==> 0 < |p.rest| < |ts| && !p.rest[0].Bad? && !p.rest[0].Id?
    decreases |ts|, PRIMARY - ASSIGNMENT + 1, 0
  {
    var p := Parse(CONDITIONAL, ts);
    if !p.Parsed? || (!IsSym(p.rest[0], Eq) && !p.rest[0].AssignOp?) then p
    else if !IsLeftSide(p.tree, p.rest[0]) then Fail(Cut(p.tree))
    else
      var q := Follow(ASSIGNMENT, p.rest);
      WithTree(q, MakeAssign(p.tree, p.rest[0], q.tree))
  }

  /** The left operand of an assignment: a bare name, or the case of expr.c:923-927. */
  predicate IsLeftSide(t: Tree, op: Token) {
    t.Target? || (op.AssignOp? && (t.Var? || (t.Bin? && t.op == Mod && t.right.Var?)))
  }

  function MakeAssign(t: Tree, op: Token, e: Tree): Tree
    requires IsLeftSide(t, op)
  {
    if t.Target? then Assign(t.name, e)
    else if t.Var? then Update(t.name, op.op, e)
    else ModUpdate(t.left, t.right.name, op.op, e)
  }

  function ParseCond(ts: seq<Token>): (p: Parsed)
    requires |ts| > 0
    ensures p.Parsed? ==> 0 < |p.rest| < |ts| && !p.rest[0].Bad? && !p.rest[0].Id?
    decreases |ts|, PRIMARY - CONDITIONAL + 1, 0
  {
    var p := Parse(CONDITIONAL + 1, ts);
    if !p.Parsed? || !IsSym(p.rest[0], Ques) then p
    else
      var a := Follow(0, p.rest);
      if !a.Parsed? || !IsSym(a.rest[0], Col) then Fail(Cond(p.tree, CutOff(a), Stuck))
      else
        var b := Follow(CONDITIONAL, a.rest);
        WithTree(b, Cond(p.tree, a.tree, b.tree))
  }

  function ParsePower(ts: seq<Token>): (p: Parsed)
    requires |ts| > 0
    ensures p.Parsed? ==> 0 < |p.rest| < |ts| && !p.rest[0].Bad? && !p.rest[0].Id?
    decreases |ts|, PRIMARY - POWER + 1, 0
  {
    var p := Parse(UNARY, ts);
    if !p.Parsed? || !IsSym(p.rest[0], Power) then p
    else
      var q := Follow(POWER, p.rest);
      WithTree(q, Bin(Power, p.tree, q.tree))
  }

  function ParseUnary(ts: seq<Token>): (p: Parsed)
    requires |ts| > 0
    ensures p.Parsed? ==> 0 < |p.rest| < |ts| && !p.rest[0].Bad? && !p.rest[0].Id?
    decreases |ts|, PRIMARY - UNARY + 1, 0
  {
    if ts[0].Sym? && IsUnary(ts[0].kind) then
      var q := Follow(UNARY, ts);
      WithTree(q, Unary(ts[0].kind, q.tree))
    else Parse(PRIMARY, ts)
  }

  function ParsePrimary(ts: seq<Token>): (p: Parsed)
    requires |ts| > 0
    ensures p.Parsed? ==> 0 < |p.rest| < |ts| && !p.rest[0].Bad? && !p.rest[0].Id?
    decreases |ts|, 1, 0
  {
    match ts[0]
    case Lit(n) => Behind(Const(n), ts, false)
    case Id(x) =>
      if PeekFails(ts[1..]) then Fail(Stuck)
      else if ts[1].Sym? && IsPost(ts[1].kind) then Behind(PostStep(x, ts[1].kind), ts[1..], false)
      else if IsSym(ts[1], Eq) then Parsed(Target(x), ts[1..])
      else Behind(Var(x), ts, false)
    case Sym(k) =>
      if IsStep(k) then
        if |ts| >= 2 && ts[1].Id? && !PeekFails(ts[2..]) then Behind(PreStep(k, ts[1].name), ts[1..], true)
        else Fail(Stuck)
      else if k == LPar then
        var q := Follow(0, ts);
        if q.Parsed? && IsSym(q.rest[0], RPar) then Behind(Paren(q.tree), q.rest, false) else Fail(Paren(CutOff(q)))
      else Fail(Stuck)
    case _ => Fail(Stuck)
  }

  /** A whole expression: everything up to the end of the text. */
  function ParseAll(ts: seq<Token>): Option<Tree>
    requires |ts| > 0
  {
    var p := Parse(0, ts);
    if p.Parsed? && IsSym(p.rest[0], End) then Some(p.tree) else None
  }

  /** The tree of a text. That of a text that is no expression breaks off where reading stops. */
  function TextTree(ts: seq<Token>): Tree
    requires |ts| > 0
  {
    var p := Parse(0, ts);
    if p.Parsed? && IsSym(p.rest[0], End) then p.tree else CutOff(p)
  }

  // ---- soundness: what is parsed is the yield of a well-formed tree ----

  /** p is a correct parse at level k. A tree that is not well-formed ends in a Target, and then
      a "=" follows, which no operator can absorb. */
  ghost predicate SoundParse(k: nat, ts: seq<Token>, p: Parsed) {
    p.Parsed? ==>
      && ts == Yield(p.tree) + p.rest
      && |p.rest| > 0
      && Level(p.tree) >= k
      && (IsSym(p.rest[0], Eq) || WellFormed(p.tree))
      && (p.tree.Target? ==> IsSym(p.rest[0], Eq))
      && (k <= ASSIGNMENT ==> !IsSym(p.rest[0], Eq) && !p.rest[0].AssignOp?)
  }

  /** A phrase, a token and a further phrase. */
  lemma Glue(ts: seq<Token>, a: seq<Token>, r: seq<Token>, b: seq<Token>, rest: seq<Token>)
    requires ts == a + r && |r| > 0 && r[1..] == b + rest
    ensures ts == a + [r[0]] + b + rest
  {
    assert r == [r[0]] + r[1..];
  }

  lemma GlueFront(ts: seq<Token>, b: seq<Token>, rest: seq<Token>)
    requires |ts| > 0 && ts[1..] == b + rest
    ensures ts == [ts[0]] + b + rest
  {
    assert ts == [ts[0]] + ts[1..];
  }

  lemma {:induction false} ParseSound(k: nat, ts: seq<Token>)
    requires k <= PRIMARY && |ts| > 0
    ensures SoundParse(k, ts, Parse(k, ts))
    decreases |ts|, PRIMARY - k + 1, 1
  {
    if LoopLevel(k) {
      ParseSound(k + 1, ts);
      var p := Parse(k + 1, ts);
      if p.Parsed? { ParseLoopSound(k, p.tree, p.rest, ts); }
    } else if k == ASSIGNMENT {
      ParseAssignSound(ts);
    } else if k == CONDITIONAL {
      ParseCondSound(ts);
    } else if k == POWER {
      ParsePowerSound(ts);
    } else if k == UNARY {
      ParseUnarySound(ts);
    } else {
      ParsePrimarySound(ts);
    }
  }

  lemma {:induction false} FollowSound(k: nat, ts: seq<Token>)
    requires k <= PRIMARY && |ts| > 0
    ensures SoundParse(k, ts[1..], Follow(k, ts))
    decreases |ts|, 0, 0
  {
    hide Parse;
    if |ts| >= 2 { ParseSound(k, ts[1..]); }
  }

  lemma {:induction false} ParseLoopSound(k: nat, t: Tree, ts: seq<Token>, all: seq<Token>)
    requires LoopLevel(k) && |ts| > 0 && !ts[0].Bad? && !ts[0].Id?
    requires SoundParse(k, all, Parsed(t, ts))
    requires |ts| < |all|
    ensures SoundParse(k, all, ParseLoop(k, t, ts))
    decreases |ts|, PRIMARY - k + 1, 1
  {
    hide Parse, Follow;
    if Continues(k, ts[0]) {
      FollowSound(k + 1, ts);
      var p := Follow(k + 1, ts);
      if p.Parsed? {
        Glue(all, Yield(t), ts, Yield(p.tree), p.rest);
        ParseLoopSound(k, Bin(ts[0].kind, t, p.tree), p.rest, all);
      }
    }
  }

  lemma {:induction false} ParseAssignSound(ts: seq<Token>)
    requires |ts| > 0
    ensures SoundParse(ASSIGNMENT, ts, ParseAssign(ts))
    decreases |ts|, PRIMARY - ASSIGNMENT + 1, 0
  {
    hide Parse, Follow, IsLeftSide, MakeAssign;
    ParseSound(CONDITIONAL, ts);
    var p := Parse(CONDITIONAL, ts);
    if p.Parsed? && (IsSym(p.rest[0], Eq) || p.rest[0].AssignOp?) && IsLeftSide(p.tree, p.rest[0]) {
      FollowSound(ASSIGNMENT, p.rest);
      var q := Follow(ASSIGNMENT, p.rest);
      if q.Parsed? {
        Glue(ts, Yield(p.tree), p.rest, Yield(q.tree), q.rest);
        AssignSound(p.tree, p.rest[0], q.tree);
      }
    }
  }

  lemma AssignSound(t: Tree, op: Token, e: Tree)
    requires IsLeftSide(t, op) && (t.Target? ==> IsSym(op, Eq)) && (IsSym(op, Eq) || WellFormed(t))
    requires WellFormed(e) && Level(e) >= ASSIGNMENT
    ensures Yield(MakeAssign(t, op, e)) == Yield(t) + [op] + Yield(e)
    ensures WellFormed(MakeAssign(t, op, e)) && Level(MakeAssign(t, op, e)) == ASSIGNMENT
  {
    YieldAssign(t, op, e);
  }

  lemma YieldAssign(t: Tree, op: Token, e: Tree)
    requires IsLeftSide(t, op) && (t.Target? ==> IsSym(op, Eq))
    ensures Yield(MakeAssign(t, op, e)) == Yield(t) + [op] + Yield(e)
  {
  }

  lemma {:induction false} ParseCondSound(ts: seq<Token>)
    requires |ts| > 0
    ensures SoundParse(CONDITIONAL, ts, ParseCond(ts))
    decreases |ts|, PRIMARY - CONDITIONAL + 1, 0
  {
    hide Parse, Follow;
    ParseSound(CONDITIONAL + 1, ts);
    var p := Parse(CONDITIONAL + 1, ts);
    if p.Parsed? && IsSym(p.rest[0], Ques) {
      FollowSound(0, p.rest);
      var a := Follow(0, p.rest);
      if a.Parsed? && IsSym(a.rest[0], Col) {
        FollowSound(CONDITIONAL, a.rest);
        var b := Follow(CONDITIONAL, a.rest);
        if b.Parsed? {
          Glue(ts, Yield(p.tree), p.rest, Yield(a.tree), a.rest);
          Glue(ts, Yield(p.tree) + [p.rest[0]] + Yield(a.tree), a.rest, Yield(b.tree), b.rest);
        }
      }
    }
  }

  lemma {:induction false} ParsePowerSound(ts: seq<Token>)
    requires |ts| > 0
    ensures SoundParse(POWER, ts, ParsePower(ts))
    decreases |ts|, PRIMARY - POWER + 1, 0
  {
    hide Parse, Follow;
    ParseSound(UNARY, ts);
    var p := Parse(UNARY, ts);
    if p.Parsed? && IsSym(p.rest[0], Power) {
      FollowSound(POWER, p.rest);
      var q := Follow(POWER, p.rest);
      if q.Parsed? { Glue(ts, Yield(p.tree), p.rest, Yield(q.tree), q.rest); }
    }
  }

  lemma {:induction false} ParseUnarySound(ts: seq<Token>)
    requires |ts| > 0
    ensures SoundParse(UNARY, ts, ParseUnary(ts))
    decreases |ts|, PRIMARY - UNARY + 1, 0
  {
    hide Parse, Follow;
    if ts[0].Sym? && IsUnary(ts[0].kind) {
      FollowSound(UNARY, ts);
      var q := Follow(UNARY, ts);
      if q.Parsed? { GlueFront(ts, Yield(q.tree), q.rest); }
    } else {
      ParseSound(PRIMARY, ts);
    }
  }

  lemma {:induction false} ParsePrimarySound(ts: seq<Token>)
    requires |ts| > 0
    ensures SoundParse(PRIMARY, ts, ParsePrimary(ts))
    decreases |ts|, 1, 0
  {
    hide Parse, Follow, PeekFails;
    if IsSym(ts[0], LPar) {
      FollowSound(0, ts);
      var q := Follow(0, ts);
      if q.Parsed? && IsSym(q.rest[0], RPar) {
        GlueFront(ts, Yield(q.tree), q.rest);
        assert q.rest == [q.rest[0]] + q.rest[1..];
        assert ts == Yield(Paren(q.tree)) + q.rest[1..];
      }
    } else if ParsePrimary(ts).Parsed? {
      assert ts == [ts[0]] + ts[1..];
      if |ts| >= 2 { assert ts == [ts[0], ts[1]] + ts[2..]; }
    }
  }
}
