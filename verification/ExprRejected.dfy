/** What a rejected text leaves behind. The tree of a text that is no expression breaks off where
    reading stops; it holds the tokens up to there, and evaluating it always fails, with the store
    that the evaluation has come to. */
module ExprRejected {
  import opened CStrings
  import opened Int64
  import opened Literals
  import opened ExprLex
  import opened ExprGrammar
  import opened ExprUnambiguous
  import opened ExprSemantics
  import opened ExprRuns
  import opened ExprResults

  // ---- the trees of texts that are no expressions ----

  /** The tokens of t, up to where reading stops. */
  function Front(t: Tree): seq<Token> {
    match t
    case Paren(e) => [Sym(LPar)] + Front(e) + if Breaks(e) then [] else [Sym(RPar)]
    case Unary(op, e) => [Sym(op)] + Front(e)
    case Bin(op, l, r) => Front(l) + if Breaks(l) then [] else [Sym(op)] + Front(r)
    case Cond(c, a, b) =>
      Front(c) +
      if Breaks(c) then []
      else [Sym(Ques)] + Front(a) + if Breaks(a) then [] else [Sym(Col)] + Front(b)
    case Assign(x, e) => [Id(x), Sym(Eq)] + Front(e)
    case Update(x, op, e) => [Id(x), AssignOp(op)] + Front(e)
    case ModUpdate(l, x, op, e) => Front(l) + if Breaks(l) then [] else [Sym(Mod), Id(x), AssignOp(op)] + Front(e)
    case Stuck => []
    case Cut(e) => Front(e)
    case Stray(e, x) => Front(e) + [Id(x)]
    case _ => Yield(t)
  }

  /** Nothing stands behind the place where reading stops; and the operators of "++" and "--" are
      such. */
  predicate Orderly(t: Tree) {
    match t
    case PreStep(k, _) => IsStep(k)
    case PostStep(_, k) => IsPost(k)
    case Paren(e) => Orderly(e)
    case Unary(_, e) => Orderly(e)
    case Bin(_, l, r) => Orderly(l) && Orderly(r) && !Breaks(l)
    case Cond(c, a, b) => Orderly(c) && Orderly(a) && Orderly(b) && !Breaks(c) && (Breaks(a) ==> b == Stuck)
    case Assign(_, e) => Orderly(e)
    case Update(_, _, e) => Orderly(e)
    case ModUpdate(l, _, _, e) => Orderly(l) && Orderly(e) && !Breaks(l)
    case Cut(e) => Orderly(e) && !Breaks(e)
    case Stray(e, _) => Orderly(e) && !Breaks(e)
    case _ => true
  }

  /** What a phrase of ts has to do with ts: its tokens are the first ones, and it breaks off exactly
      if it fails. */
  ghost predicate Faithful(ts: seq<Token>, p: Parsed) {
    && Orderly(p.tree)
    && (p.Fail? <==> Breaks(p.tree))
    && if p.Parsed? then ts == Front(p.tree) + p.rest else Front(p.tree) <= ts
  }

  lemma PrefixTrans(a: seq<Token>, b: seq<Token>, c: seq<Token>)
    requires b <= c
    ensures a + b <= a + c
  {
  }

  /** Behind the phrase t, the token r[0] and the phrase p: together they are u. */
  lemma Join(ts: seq<Token>, t: Tree, r: seq<Token>, p: Parsed, u: Tree)
    requires ts == Front(t) + r && |r| > 0 && Faithful(r[1..], p)
    requires Front(u) == Front(t) + ([r[0]] + Front(p.tree)) && Breaks(u) == Breaks(p.tree) && Orderly(u)
    ensures Faithful(ts, WithTree(p, u))
  {
    hide Front, Breaks, Orderly;
    assert r == [r[0]] + r[1..];
    if p.Parsed? {
      assert Front(t) + ([r[0]] + (Front(p.tree) + p.rest)) == Front(t) + ([r[0]] + Front(p.tree)) + p.rest;
    } else {
      PrefixTrans([r[0]], Front(p.tree), r[1..]);
      PrefixTrans(Front(t), [r[0]] + Front(p.tree), r);
    }
  }

  /** The same without a phrase in front. */
  lemma JoinFirst(r: seq<Token>, p: Parsed, u: Tree)
    requires |r| > 0 && Faithful(r[1..], p)
    requires Front(u) == [r[0]] + Front(p.tree) && Breaks(u) == Breaks(p.tree) && Orderly(u)
    ensures Faithful(r, WithTree(p, u))
  {
    hide Front, Breaks, Orderly;
    assert r == [r[0]] + r[1..];
    if p.Parsed? {
      assert [r[0]] + (Front(p.tree) + p.rest) == [r[0]] + Front(p.tree) + p.rest;
    } else {
      PrefixTrans([r[0]], Front(p.tree), r[1..]);
    }
  }

  lemma CutFaithful(ts: seq<Token>, p: Parsed)
    requires Faithful(ts, p)
    ensures Faithful(ts, Fail(CutOff(p)))
  {
  }

  lemma BehindFaithful(ts: seq<Token>, e: Tree, r: seq<Token>, forced: bool)
    requires Orderly(e) && !Breaks(e) && |r| > 0 && ts == Front(e) + r[1..]
    ensures Faithful(ts, Behind(e, r, forced))
  {
    hide ReadFails, Orderly, Breaks, Front;
    CutParts(e);
    if !ReadFails(r[1..]) {
      Readable(r[1..]);
      assert r[1..] == [r[1]] + r[2..];
      if r[1].Id? {
        StrayParts(e, r[1].name);
        PrefixTrans(Front(e), [r[1]], r[1..]);
      }
    }
  }

  lemma Readable(ts: seq<Token>)
    requires !ReadFails(ts)
    ensures |ts| > 0
  {
  }

  lemma CutParts(e: Tree)
    requires Orderly(e) && !Breaks(e)
    ensures Orderly(Cut(e)) && Breaks(Cut(e)) && Front(Cut(e)) == Front(e)
  {
  }

  lemma StrayParts(e: Tree, x: string)
    requires Orderly(e) && !Breaks(e)
    ensures Orderly(Stray(e, x)) && !Breaks(Stray(e, x)) && Front(Stray(e, x)) == Front(e) + [Id(x)]
  {
  }

  lemma {:induction false} ParseFaithful(k: nat, ts: seq<Token>)
    requires k <= PRIMARY && |ts| > 0
    ensures Faithful(ts, Parse(k, ts))
    decreases |ts|, PRIMARY - k + 1, 1
  {
    hide Faithful;
    if LoopLevel(k) {
      ParseFaithful(k + 1, ts);
      var p := Parse(k + 1, ts);
      LoopStarts(k, ts);
      if p.Parsed? { LoopFaithful(k, p.tree, p.rest, ts); }
    } else if k == ASSIGNMENT {
      AssignFaithful(ts);
    } else if k == CONDITIONAL {
      CondFaithful(ts);
    } else if k == POWER {
      PowerFaithful(ts);
    } else if k == UNARY {
      UnaryFaithful(ts);
    } else {
      PrimaryFaithful(ts);
    }
  }

  lemma {:induction false} FollowFaithful(k: nat, ts: seq<Token>)
    requires k <= PRIMARY && |ts| > 0
    ensures Faithful(ts[1..], Follow(k, ts))
    decreases |ts|, 0, 0
  {
    hide Parse;
    if |ts| >= 2 { ParseFaithful(k, ts[1..]); }
  }

  lemma {:induction false} LoopFaithful(k: nat, t: Tree, ts: seq<Token>, all: seq<Token>)
    requires LoopLevel(k) && |ts| > 0 && !ts[0].Bad? && !ts[0].Id?
    requires Faithful(all, Parsed(t, ts)) && |ts| < |all|
    ensures Faithful(all, ParseLoop(k, t, ts))
    decreases |ts|, PRIMARY - k + 1, 1
  {
    hide Parse, Follow, Front, Breaks, Orderly;
    if Continues(k, ts[0]) {
      FollowFaithful(k + 1, ts);
      var p := Follow(k + 1, ts);
      var u := Bin(ts[0].kind, t, p.tree);
      BinParts(ts[0].kind, t, p.tree);
      Join(all, t, ts, p, u);
      LoopGoesOn(k, t, ts);
      if p.Parsed? { LoopFaithful(k, u, p.rest, all); }
    }
  }

  lemma BinParts(op: Kind, l: Tree, r: Tree)
    ensures var u := Bin(op, l, r);
            && Orderly(u) == (Orderly(l) && Orderly(r) && !Breaks(l)) && Breaks(u) == (Breaks(l) || Breaks(r))
            && (!Breaks(l) ==> Front(u) == Front(l) + ([Sym(op)] + Front(r)))
  {
  }

  lemma {:induction false} AssignFaithful(ts: seq<Token>)
    requires |ts| > 0
    ensures Faithful(ts, Parse(ASSIGNMENT, ts))
    decreases |ts|, PRIMARY - ASSIGNMENT + 1, 0
  {
    hide Parse, Follow, Front, Breaks, Orderly, IsLeftSide, MakeAssign;
    ParseFaithful(CONDITIONAL, ts);
    ParseSound(CONDITIONAL, ts);
    var p := Parse(CONDITIONAL, ts);
    if p.Parsed? && (IsSym(p.rest[0], Eq) || p.rest[0].AssignOp?) {
      AssignParse(ts, p.tree, p.rest);
      if IsLeftSide(p.tree, p.rest[0]) {
        FollowFaithful(ASSIGNMENT, p.rest);
        var q := Follow(ASSIGNMENT, p.rest);
        AssignParts(p.tree, p.rest[0], q.tree);
        Join(ts, p.tree, p.rest, q, MakeAssign(p.tree, p.rest[0], q.tree));
      } else {
        CutFaithful(ts, p);
      }
    } else {
      PlainLevel(ASSIGNMENT, ts);
    }
  }

  lemma AssignParts(t: Tree, op: Token, e: Tree)
    requires IsLeftSide(t, op) && (t.Target? ==> IsSym(op, Eq)) && Orderly(t) && !Breaks(t)
    ensures var u := MakeAssign(t, op, e);
            Orderly(u) == Orderly(e) && Breaks(u) == Breaks(e) && Front(u) == Front(t) + ([op] + Front(e))
  {
    if t.Bin? { ModParts(t.left, t.right.name, op.op, e); }
  }

  lemma ModParts(l: Tree, x: string, op: Kind, e: Tree)
    requires Orderly(l) && !Breaks(l)
    ensures var t, u := Bin(Mod, l, Var(x)), ModUpdate(l, x, op, e);
            && Orderly(u) == Orderly(e) && Breaks(u) == Breaks(e)
            && Front(u) == Front(t) + ([AssignOp(op)] + Front(e))
  {
    assert Front(Bin(Mod, l, Var(x))) == Front(l) + ([Sym(Mod)] + [Id(x)]);
  }

  lemma {:induction false} CondFaithful(ts: seq<Token>)
    requires |ts| > 0
    ensures Faithful(ts, Parse(CONDITIONAL, ts))
    decreases |ts|, PRIMARY - CONDITIONAL + 1, 0
  {
    hide Parse, Follow, Front, Breaks, Orderly;
    ParseFaithful(CONDITIONAL + 1, ts);
    var p := Parse(CONDITIONAL + 1, ts);
    if p.Parsed? && IsSym(p.rest[0], Ques) {
      CondParse(ts, p.tree, p.rest);
      FollowFaithful(0, p.rest);
      var a := Follow(0, p.rest);
      if a.Parsed? && IsSym(a.rest[0], Col) {
        FollowFaithful(CONDITIONAL, a.rest);
        var b := Follow(CONDITIONAL, a.rest);
        CondParts(p.tree, a.tree, b.tree);
        var inner := Bin(Ques, p.tree, a.tree);
        BinParts(Ques, p.tree, a.tree);
        Join(ts, p.tree, p.rest, a, inner);
        Join(ts, inner, a.rest, b, Cond(p.tree, a.tree, b.tree));
      } else {
        CutFaithful(p.rest[1..], a);
        CondParts(p.tree, CutOff(a), Stuck);
        CutBreaks(a);
        Join(ts, p.tree, p.rest, Fail(CutOff(a)), Cond(p.tree, CutOff(a), Stuck));
      }
    } else {
      PlainLevel(CONDITIONAL, ts);
    }
  }

  lemma CutBreaks(p: Parsed)
    requires p.Fail? ==> Breaks(p.tree)
    ensures Breaks(CutOff(p))
  {
  }

  lemma CondParts(c: Tree, a: Tree, b: Tree)
    requires !Breaks(c)
    ensures var u := Cond(c, a, b);
            && (Orderly(c) && Orderly(a) && Orderly(b) && (Breaks(a) ==> b == Stuck) ==> Orderly(u))
            && Breaks(u) == (Breaks(a) || Breaks(b))
            && (Breaks(a) ==> Front(u) == Front(c) + ([Sym(Ques)] + Front(a)))
            && (!Breaks(a) ==> Front(u) == Front(c) + ([Sym(Ques)] + Front(a)) + ([Sym(Col)] + Front(b)))
    ensures Orderly(Stuck)
  {
    var fc, fa, fb := Front(c), Front(a), Front(b);
    assert Front(Cond(c, a, b)) == fc + ([Sym(Ques)] + fa + if Breaks(a) then [] else [Sym(Col)] + fb);
    assert [Sym(Ques)] + fa + [] == [Sym(Ques)] + fa;
    assert fc + ([Sym(Ques)] + fa + ([Sym(Col)] + fb)) == fc + ([Sym(Ques)] + fa) + ([Sym(Col)] + fb);
  }

  lemma {:induction false} PowerFaithful(ts: seq<Token>)
    requires |ts| > 0
    ensures Faithful(ts, Parse(POWER, ts))
    decreases |ts|, PRIMARY - POWER + 1, 0
  {
    hide Parse, Follow, Front, Breaks, Orderly;
    ParseFaithful(UNARY, ts);
    var p := Parse(UNARY, ts);
    if p.Parsed? && IsSym(p.rest[0], Power) {
      PowerParse(ts, p.tree, p.rest);
      FollowFaithful(POWER, p.rest);
      var q := Follow(POWER, p.rest);
      BinParts(Power, p.tree, q.tree);
      Join(ts, p.tree, p.rest, q, Bin(Power, p.tree, q.tree));
    } else {
      PlainLevel(POWER, ts);
    }
  }

  lemma {:induction false} UnaryFaithful(ts: seq<Token>)
    requires |ts| > 0
    ensures Faithful(ts, Parse(UNARY, ts))
    decreases |ts|, PRIMARY - UNARY + 1, 0
  {
    hide Parse, Follow;
    UnaryParse(ts);
    if ts[0].Sym? && IsUnary(ts[0].kind) {
      FollowFaithful(UNARY, ts);
      var q := Follow(UNARY, ts);
      JoinFirst(ts, q, Unary(ts[0].kind, q.tree));
    } else {
      ParseFaithful(PRIMARY, ts);
    }
  }

  lemma {:induction false} PrimaryFaithful(ts: seq<Token>)
    requires |ts| > 0
    ensures Faithful(ts, Parse(PRIMARY, ts))
    decreases |ts|, 1, 0
  {
    hide Parse, Follow, Behind, PeekFails, Faithful;
    if ts[0].Lit? {
      NumberParse(ts);
      assert ts == [ts[0]] + ts[1..];
      BehindFaithful(ts, Const(ts[0].value), ts, false);
    } else if ts[0].Id? {
      NameFaithful(ts);
    } else if ts[0] == Sym(LPar) {
      ParenFaithful(ts);
    } else if ts[0].Sym? && IsStep(ts[0].kind) && |ts| >= 2 {
      PreParse(ts);
      if ts[1].Id? && !PeekFails(ts[2..]) {
        assert ts[1..][1..] == ts[2..] && ts == [ts[0], ts[1]] + ts[2..];
        BehindFaithful(ts, PreStep(ts[0].kind, ts[1].name), ts[1..], true);
      } else {
        StuckFaithful(ts);
      }
    } else {
      if ts[0].Sym? && IsStep(ts[0].kind) { ShortStep(ts); } else { NoOperand(ts); }
      StuckFaithful(ts);
    }
  }

  lemma ShortStep(ts: seq<Token>)
    requires |ts| == 1 && ts[0].Sym? && IsStep(ts[0].kind)
    ensures Parse(PRIMARY, ts) == Fail(Stuck)
  {
    assert Parse(PRIMARY, ts) == ParsePrimary(ts);
  }

  lemma StuckFaithful(ts: seq<Token>)
    ensures Faithful(ts, Fail(Stuck))
  {
  }

  lemma NameFaithful(ts: seq<Token>)
    requires |ts| > 0 && ts[0].Id?
    ensures Faithful(ts, Parse(PRIMARY, ts))
  {
    hide Parse, Behind, PeekFails, Faithful;
    NameParse(ts);
    assert ts == [ts[0]] + ts[1..];
    if PeekFails(ts[1..]) {
      StuckFaithful(ts);
    } else if ts[1].Sym? && IsPost(ts[1].kind) {
      assert ts == [ts[0], ts[1]] + ts[1..][1..];
      BehindFaithful(ts, PostStep(ts[0].name, ts[1].kind), ts[1..], false);
    } else if ts[1] == Sym(Eq) {
      TargetFaithful(ts);
    } else {
      BehindFaithful(ts, Var(ts[0].name), ts, false);
    }
  }

  lemma TargetFaithful(ts: seq<Token>)
    requires |ts| >= 2 && ts[0].Id?
    ensures Faithful(ts, Parsed(Target(ts[0].name), ts[1..]))
  {
    assert ts == [ts[0]] + ts[1..];
  }

  lemma {:induction false} ParenFaithful(ts: seq<Token>)
    requires |ts| > 0 && ts[0] == Sym(LPar)
    ensures Faithful(ts, Parse(PRIMARY, ts))
    decreases |ts|, 0, 1
  {
    hide Parse, Follow, Behind;
    ParenParse(ts);
    FollowFaithful(0, ts);
    var q := Follow(0, ts);
    if q.Parsed? && IsSym(q.rest[0], RPar) {
      assert q.rest == [q.rest[0]] + q.rest[1..] && ts == [ts[0]] + ts[1..];
      assert ts == [Sym(LPar)] + Front(q.tree) + [Sym(RPar)] + q.rest[1..];
      BehindFaithful(ts, Paren(q.tree), q.rest, false);
    } else {
      CutFaithful(ts[1..], q);
      CutBreaks(q);
      JoinFirst(ts, Fail(CutOff(q)), Paren(CutOff(q)));
    }
  }

  /** The tree of a text holds its first tokens, up to where reading stops. It breaks off exactly if
      the text is no expression. */
  lemma TextTreeIs(s: string)
    ensures var t := TextTree(Tokens(s));
            && Front(t) <= Tokens(s) && Orderly(t)
            && ParseAll(Tokens(s)) == (if Breaks(t) then None else Some(t))
  {
    hide Stream, Parse;
    ParseFaithful(0, Tokens(s));
  }

  // ---- their evaluation ----

  /** Evaluation never gets over the place where reading stops. */
  lemma {:induction false} BreakFails(env: Env, t: Tree, vars: Store, depth: nat)
    requires depth <= MAX_EXPR_RECURSION_LEVEL && Breaks(t)
    ensures Eval(env, t, vars, depth).Error?
    decreases t
  {
    hide Lookup, Apply, StoreUpdate, Bind;
    match t
    case Paren(e) => BreakFails(env, e, vars, depth);
    case Unary(_, e) => BreakFails(env, e, vars, depth);
    case Bin(op, l, r) =>
      if Breaks(l) { BreakFails(env, l, vars, depth); }
      else if Eval(env, l, vars, depth).Ok? { BreakFails(env, r, Eval(env, l, vars, depth).vars, depth); }
    case Cond(c, a, b) =>
      var o := Eval(env, c, vars, depth);
      if Breaks(c) { BreakFails(env, c, vars, depth); }
      else if o.Ok? && Breaks(a) { BreakFails(env, a, o.vars, depth); }
      else if o.Ok? { BreakFails(env, b, o.vars, depth); }
    case Assign(_, e) => BreakFails(env, e, vars, depth);
    case Update(x, _, e) =>
      var o := Lookup(env, x, vars, depth);
      if o.Ok? { BreakFails(env, e, o.vars, depth); }
    case ModUpdate(l, x, _, e) => ModBreakFails(env, l, x, t.op, e, vars, depth);
    case Stray(e, _) => BreakFails(env, e, vars, depth);
    case _ =>
  }

  lemma {:induction false} ModBreakFails(env: Env, l: Tree, x: string, op: Kind, e: Tree, vars: Store, depth: nat)
    requires depth <= MAX_EXPR_RECURSION_LEVEL && (Breaks(l) || Breaks(e))
    ensures Eval(env, ModUpdate(l, x, op, e), vars, depth).Error?
    decreases ModUpdate(l, x, op, e), 0
  {
    hide Eval, Lookup, StoreUpdate, Breaks;
    ModUpdateEval(l, x, op, e, env, vars, depth);
    if Breaks(l) {
      BreakFails(env, l, vars, depth);
    } else {
      var a := Eval(env, l, vars, depth);
      if a.Ok? {
        var b := Lookup(env, x, a.vars, depth);
        if b.Ok? { BreakFails(env, e, b.vars, depth); }
      }
    }
  }

  /** Only expressions are accepted. */
  lemma AcceptedParse(readonly: set<string>, s: string, vars: Store)
    requires EvalText(ShellEnv(readonly), s, vars, 0).Ok?
    ensures Blank(s) || ParseAll(Tokens(s)).Some?
  {
    hide Eval, Stream, Parse, TextTree, ParseAll, Blank;
    assert Wanted(s);
    TextTreeIs(s);
    if !Blank(s) && Breaks(TextTree(Tokens(s))) { BreakFails(ShellEnv(readonly), TextTree(Tokens(s)), vars, 1); }
  }

  // ---- what can be written at all ----

  /** No variable has disappeared and no readonly one has changed; those that have changed hold the
      text of an integer. */
  ghost predicate Written(env: Env, before: Store, after: Store) {
    && before.Keys <= after.Keys
    && forall x <- after ::
         (x in before && after[x] == before[x]) || (x !in env.readonly && exists n: int64 :: after[x] == Itos(n))
  }

  lemma WrittenSame(env: Env, vars: Store)
    ensures Written(env, vars, vars)
  {
  }

  lemma WrittenTrans(env: Env, a: Store, b: Store, c: Store)
    requires Written(env, a, b) && Written(env, b, c)
    ensures Written(env, a, c)
  {
  }

  lemma BindWrites(env: Env, a: Store, vars: Store, x: string, v: int64, r: int64)
    requires Written(env, a, vars)
    ensures Written(env, a, Bind(env, vars, x, v, r).vars)
  {
    hide Itos;
    if x !in env.readonly { WrittenTrans(env, a, vars, vars[x := Itos(v)]); }
  }

  lemma UpdateWrites(env: Env, a: Store, vars: Store, x: string, op: Kind, l: int64, r: int64)
    requires Written(env, a, vars)
    ensures Written(env, a, StoreUpdate(env, x, op, l, r, vars).vars)
  {
    hide Written, Bind, Apply;
    if Apply(op, l, r).Some? { BindWrites(env, a, vars, x, Apply(op, l, r).value, Apply(op, l, r).value); }
  }

  /** For every tree and every store, whatever the texts in it are. */
  lemma {:induction false} OnlyWrites(env: Env, t: Tree, vars: Store, depth: nat)
    requires depth <= MAX_EXPR_RECURSION_LEVEL
    ensures Written(env, vars, Eval(env, t, vars, depth).vars)
    decreases MAX_EXPR_RECURSION_LEVEL - depth, 1, t
  {
    hide Eval, Lookup, Written, StoreUpdate, Bind, Combine, SkipsRight;
    match t
    case Const(n) => ConstRun(n, env, vars, depth, false); WrittenSame(env, vars);
    case Target(_) => TargetWrites(env, t, vars, depth);
    case Var(x) => NameRun(x, Sym(End), env, vars, depth, false); LookupWrites(env, x, vars, depth);
    case Paren(e) => OnlyWrites(env, e, vars, depth); ParenRun(e, env, vars, depth, false);
    case PreStep(k, x) => StepWrites(env, t, vars, depth);
    case PostStep(x, k) => StepWrites(env, t, vars, depth);
    case Unary(op, e) => OnlyWrites(env, e, vars, depth); UnaryRun(op, e, env, vars, depth, false);
    case Bin(op, l, r) => BinWrites(env, op, l, r, vars, depth);
    case Cond(c, a, b) => CondWrites(env, c, a, b, vars, depth);
    case Assign(x, e) => AssignWrites(env, x, e, vars, depth);
    case Update(x, op, e) => UpdatesWrite(env, x, op, e, vars, depth);
    case ModUpdate(l, x, op, e) => ModUpdateWrites(env, l, x, op, e, vars, depth);
    case Stuck => StuckRun(env, vars, depth, false); WrittenSame(env, vars);
    case Cut(e) => OnlyWrites(env, e, vars, depth); CutRun(e, env, vars, depth, false);
    case Stray(e, x) => StrayWrites(env, e, x, vars, depth);
  }

  lemma TargetWrites(env: Env, t: Tree, vars: Store, depth: nat)
    requires depth <= MAX_EXPR_RECURSION_LEVEL && t.Target?
    ensures Written(env, vars, Eval(env, t, vars, depth).vars)
  {
  }

  lemma {:induction false} LookupWrites(env: Env, x: string, vars: Store, depth: nat)
    requires depth <= MAX_EXPR_RECURSION_LEVEL
    ensures Written(env, vars, Lookup(env, x, vars, depth).vars)
    decreases MAX_EXPR_RECURSION_LEVEL - depth, 0
  {
    hide Eval, Written, Blank;
    WrittenSame(env, vars);
    if x in vars && depth < MAX_EXPR_RECURSION_LEVEL { OnlyWrites(env, env.grammar(vars[x]), vars, depth + 1); }
  }

  lemma {:induction false} StepWrites(env: Env, t: Tree, vars: Store, depth: nat)
    requires depth <= MAX_EXPR_RECURSION_LEVEL && (t.PreStep? || t.PostStep?)
    ensures Written(env, vars, Eval(env, t, vars, depth).vars)
    decreases MAX_EXPR_RECURSION_LEVEL - depth, 1, t, 0
  {
    hide Lookup, Written, Bind;
    LookupWrites(env, t.name, vars, depth);
    var o := Lookup(env, t.name, vars, depth);
    if o.Ok? {
      var v := Stepped(t.kind, o.value);
      BindWrites(env, vars, o.vars, t.name, v, v);
      BindWrites(env, vars, o.vars, t.name, v, o.value);
    }
  }

  lemma {:induction false} BinWrites(env: Env, op: Kind, l: Tree, r: Tree, vars: Store, depth: nat)
    requires depth <= MAX_EXPR_RECURSION_LEVEL
    ensures Written(env, vars, Eval(env, Bin(op, l, r), vars, depth).vars)
    decreases MAX_EXPR_RECURSION_LEVEL - depth, 1, Bin(op, l, r), 0
  {
    hide Eval, Written, SkipsRight, Apply;
    OnlyWrites(env, l, vars, depth);
    var o := Eval(env, l, vars, depth);
    if o.Error? {
      BinStops(op, l, r, env, vars, depth, false);
    } else {
      var skips := SkipsRight(op, o.value);
      BinRun(op, l, r, env, vars, depth, false, skips);
      if !skips {
        OnlyWrites(env, r, o.vars, depth);
        WrittenTrans(env, vars, o.vars, Eval(env, r, o.vars, depth).vars);
      }
    }
  }

  lemma {:induction false} CondWrites(env: Env, c: Tree, a: Tree, b: Tree, vars: Store, depth: nat)
    requires depth <= MAX_EXPR_RECURSION_LEVEL
    ensures Written(env, vars, Eval(env, Cond(c, a, b), vars, depth).vars)
    decreases MAX_EXPR_RECURSION_LEVEL - depth, 1, Cond(c, a, b), 0
  {
    hide Eval, Written, Stops;
    OnlyWrites(env, c, vars, depth);
    var o := Eval(env, c, vars, depth);
    if o.Error? {
      CondStops(c, a, b, env, vars, depth, false);
    } else {
      var branch := if o.value != 0 then a else b;
      CondRun(c, a, b, env, vars, depth, false);
      OnlyWrites(env, branch, o.vars, depth);
      WrittenTrans(env, vars, o.vars, Eval(env, branch, o.vars, depth).vars);
    }
  }

  lemma {:induction false} AssignWrites(env: Env, x: string, e: Tree, vars: Store, depth: nat)
    requires depth <= MAX_EXPR_RECURSION_LEVEL
    ensures Written(env, vars, Eval(env, Assign(x, e), vars, depth).vars)
    decreases MAX_EXPR_RECURSION_LEVEL - depth, 1, Assign(x, e), 0
  {
    hide Lookup, Written, Bind;
    OnlyWrites(env, e, vars, depth);
    var o := Eval(env, e, vars, depth);
    if o.Ok? { BindWrites(env, vars, o.vars, x, o.value, o.value); }
  }

  lemma {:induction false} UpdatesWrite(env: Env, x: string, op: Kind, e: Tree, vars: Store, depth: nat)
    requires depth <= MAX_EXPR_RECURSION_LEVEL
    ensures Written(env, vars, Eval(env, Update(x, op, e), vars, depth).vars)
    decreases MAX_EXPR_RECURSION_LEVEL - depth, 1, Update(x, op, e), 0
  {
    hide Lookup, Written, StoreUpdate;
    LookupWrites(env, x, vars, depth);
    var a := Lookup(env, x, vars, depth);
    if a.Ok? {
      OnlyWrites(env, e, a.vars, depth);
      var o := Eval(env, e, a.vars, depth);
      WrittenTrans(env, vars, a.vars, o.vars);
      if o.Ok? { UpdateWrites(env, vars, o.vars, x, op, a.value, o.value); }
    }
  }

  lemma {:induction false} ModUpdateWrites(env: Env, l: Tree, x: string, op: Kind, e: Tree, vars: Store, depth: nat)
    requires depth <= MAX_EXPR_RECURSION_LEVEL
    ensures Written(env, vars, Eval(env, ModUpdate(l, x, op, e), vars, depth).vars)
    decreases MAX_EXPR_RECURSION_LEVEL - depth, 1, ModUpdate(l, x, op, e), 0
  {
    hide Eval, Lookup, Written, StoreUpdate;
    ModUpdateEval(l, x, op, e, env, vars, depth);
    OnlyWrites(env, l, vars, depth);
    var o := Eval(env, l, vars, depth);
    if o.Ok? {
      LookupWrites(env, x, o.vars, depth);
      var b := Lookup(env, x, o.vars, depth);
      WrittenTrans(env, vars, o.vars, b.vars);
      if b.Ok? {
        OnlyWrites(env, e, b.vars, depth);
        var u := Eval(env, e, b.vars, depth);
        WrittenTrans(env, vars, b.vars, u.vars);
        if u.Ok? { UpdateWrites(env, vars, u.vars, x, op, 0, u.value); }
      }
    }
  }

  lemma {:induction false} StrayWrites(env: Env, e: Tree, x: string, vars: Store, depth: nat)
    requires depth <= MAX_EXPR_RECURSION_LEVEL
    ensures Written(env, vars, Eval(env, Stray(e, x), vars, depth).vars)
    decreases MAX_EXPR_RECURSION_LEVEL - depth, 1, Stray(e, x), 0
  {
    hide Eval, Lookup, Written;
    StrayRun(e, x, env, vars, depth, false);
    OnlyWrites(env, e, vars, depth);
    var o := Eval(env, e, vars, depth);
    if o.Ok? {
      LookupWrites(env, x, o.vars, depth);
      WrittenTrans(env, vars, o.vars, Lookup(env, x, o.vars, depth).vars);
    }
  }

  /** Whatever the text and the store are: no variable disappears, no readonly one changes, and those
      that change hold the text of an integer. */
  lemma TextWrites(env: Env, s: string, vars: Store)
    ensures Written(env, vars, EvalText(env, s, vars, 0).vars)
  {
    hide Eval, Written, Blank;
    WrittenSame(env, vars);
    OnlyWrites(env, env.grammar(s), vars, 1);
  }

  // ---- what can be seen in the text ----

  /** The name at position i stands in front of an assignment operator, or beside "++" or "--". */
  predicate Steered(ts: seq<Token>, i: nat) {
    && i < |ts| && ts[i].Id?
    && ((i + 1 < |ts| && (ts[i + 1].AssignOp? || (ts[i + 1].Sym? && (ts[i + 1].kind == Eq || IsPost(ts[i + 1].kind)))))
        || (i > 0 && ts[i - 1].Sym? && IsStep(ts[i - 1].kind)))
  }

  ghost predicate Steers(ts: seq<Token>, x: string) { exists i: nat :: Steered(ts, i) && ts[i].name == x }

  lemma SteersInFront(a: seq<Token>, b: seq<Token>, x: string)
    requires Steers(a, x)
    ensures Steers(a + b, x)
  {
    var i: nat :| Steered(a, i) && a[i].name == x;
    assert Steered(a + b, i) && (a + b)[i].name == x;
  }

  lemma SteersBehind(a: seq<Token>, b: seq<Token>, x: string)
    requires Steers(b, x)
    ensures Steers(a + b, x)
  {
    var i: nat :| Steered(b, i) && b[i].name == x;
    assert Steered(a + b, |a| + i) && (a + b)[|a| + i].name == x;
  }

  lemma SteersPair(a: Token, b: Token)
    ensures a.Id? && (b.AssignOp? || (b.Sym? && (b.kind == Eq || IsPost(b.kind)))) ==> Steers([a, b], a.name)
    ensures b.Id? && a.Sym? && IsStep(a.kind) ==> Steers([a, b], b.name)
  {
    var ts := [a, b];
    assert ts[0] == a && ts[1] == b;
    if Steered(ts, 0) { assert Steers(ts, ts[0].name); }
    if Steered(ts, 1) { assert Steers(ts, ts[1].name); }
  }

  /** The names that a tree may assign to can be told from its tokens. */
  lemma {:induction false} AssignedShow(t: Tree, x: string)
    requires Orderly(t) && x in Assigned(t)
    ensures Steers(Front(t), x)
    decreases t, 1
  {
    hide Steers;
    match t
    case PreStep(k, y) => SteersPair(Sym(k), Id(y));
    case PostStep(y, k) => SteersPair(Id(y), Sym(k));
    case Paren(e) =>
      AssignedShow(e, x);
      SteersBehind([Sym(LPar)], Front(e), x);
      SteersInFront([Sym(LPar)] + Front(e), if Breaks(e) then [] else [Sym(RPar)], x);
    case Unary(op, e) => AssignedShow(e, x); SteersBehind([Sym(op)], Front(e), x);
    case Bin(op, l, r) =>
      if x in Assigned(l) {
        AssignedShow(l, x);
        SteersInFront(Front(l), [Sym(op)] + Front(r), x);
      } else {
        AssignedShow(r, x);
        SteersBehind([Sym(op)], Front(r), x);
        SteersBehind(Front(l), [Sym(op)] + Front(r), x);
      }
    case Cond(c, a, b) => CondShow(c, a, b, x);
    case Assign(y, e) => AssignShow(Id(y), Sym(Eq), e, x);
    case Update(y, op, e) => AssignShow(Id(y), AssignOp(op), e, x);
    case ModUpdate(l, y, op, e) =>
      var tail := [Id(y), AssignOp(op)] + Front(e);
      assert Front(t) == Front(l) + ([Sym(Mod)] + tail);
      if x in Assigned(l) {
        AssignedShow(l, x);
        SteersInFront(Front(l), [Sym(Mod)] + tail, x);
      } else {
        AssignShow(Id(y), AssignOp(op), e, x);
        SteersBehind([Sym(Mod)], tail, x);
        SteersBehind(Front(l), [Sym(Mod)] + tail, x);
      }
    case Cut(e) => AssignedShow(e, x);
    case Stray(e, y) => AssignedShow(e, x); SteersInFront(Front(e), [Id(y)], x);
    case _ =>
  }

  lemma {:induction false} AssignShow(a: Token, b: Token, e: Tree, x: string)
    requires a.Id? && (b == Sym(Eq) || b.AssignOp?) && Orderly(e) && (x == a.name || x in Assigned(e))
    ensures Steers([a, b] + Front(e), x)
    decreases e, 2
  {
    hide Steers;
    SteersPair(a, b);
    if x == a.name {
      SteersInFront([a, b], Front(e), x);
    } else {
      AssignedShow(e, x);
      SteersBehind([a, b], Front(e), x);
    }
  }

  lemma {:induction false} CondShow(c: Tree, a: Tree, b: Tree, x: string)
    requires Orderly(Cond(c, a, b)) && x in Assigned(Cond(c, a, b))
    ensures Steers(Front(Cond(c, a, b)), x)
    decreases Cond(c, a, b), 0
  {
    hide Steers;
    var inner := Bin(Ques, c, a);
    assert Orderly(inner) && Front(inner) == Front(c) + ([Sym(Ques)] + Front(a));
    if x in Assigned(c) {
      AssignedShow(c, x);
      SteersInFront(Front(c), [Sym(Ques)] + Front(a), x);
    } else if x in Assigned(a) {
      AssignedShow(a, x);
      SteersBehind([Sym(Ques)], Front(a), x);
      SteersBehind(Front(c), [Sym(Ques)] + Front(a), x);
    }
    CondParts(c, a, b);
    if x !in Assigned(c) && x !in Assigned(a) {
      AssignedShow(b, x);
      SteersBehind([Sym(Col)], Front(b), x);
      SteersBehind(Front(inner), [Sym(Col)] + Front(b), x);
    } else if !Breaks(a) {
      SteersInFront(Front(inner), [Sym(Col)] + Front(b), x);
    }
  }

  /** Over a store of integers, only names beside such operators change, and the store stays one. So a
      text without them leaves the store alone, whether it is an expression or not. */
  lemma OnlySteeredChange(readonly: set<string>, s: string, vars: Store)
    requires IntStore(vars)
    ensures var after := EvalText(ShellEnv(readonly), s, vars, 0).vars;
            && IntStore(after) && vars.Keys <= after.Keys
            && (forall x <- after :: (x in vars && after[x] == vars[x]) || Steers(Tokens(s), x))
            && ((forall x :: !Steers(Tokens(s), x)) ==> after == vars)
  {
    hide Eval, Stream, TextTree, Blank, IntStore, Steers, Assigned;
    assert Wanted(s);
    ShellReadsInts(readonly);
    if !Blank(s) {
      OnlyAssignedChange(ShellEnv(readonly), TextTree(Tokens(s)), vars, 1);
      AssignedInText(s);
    }
  }

  lemma AssignedInText(s: string)
    ensures forall x <- Assigned(TextTree(Tokens(s))) :: Steers(Tokens(s), x)
  {
    hide Stream, Parse, TextTree, Steers, Assigned, Orderly, Front;
    var t := TextTree(Tokens(s));
    TextTreeIs(s);
    forall x | x in Assigned(t) ensures Steers(Tokens(s), x) {
      AssignedShow(t, x);
      SteersInFront(Front(t), Tokens(s)[|Front(t)|..], x);
      assert Tokens(s) == Front(t) + Tokens(s)[|Front(t)|..];
    }
  }

  // ---- parsing first ----

  /** The shell's expressions, but parsed before they are evaluated: nothing is done for a text that
      does not parse. */
  function ParseFirst(readonly: set<string>): Env {
    Env(readonly, (s: string) => match ParseAll(Tokens(s)) case None => Stuck case Some(t) => t)
  }

  lemma ParseFirstReadsInts(readonly: set<string>)
    ensures ReadsInts(ParseFirst(readonly))
  {
    hide ParseAll, Stream;
    forall n: int64 ensures ParseFirst(readonly).grammar(Itos(n)) == IntTree(n) {
      IntParses(n);
    }
  }

  type Bindings = map<string, int64>

  function Bound(env: Env, x: string, v: int64): Bindings { if x in env.readonly then map[] else map[x := v] }

  function BoundUpdate(env: Env, x: string, op: Kind, a: int64, b: int64): Bindings {
    if IsAssignable(op) && Apply(op, a, b).Some? then Bound(env, x, Apply(op, a, b).value) else map[]
  }

  /** The integers that the evaluation of t assigns over a store of integers, the last one for each
      name. */
  function Writes(env: Env, t: Tree, vars: Store, depth: nat): Bindings
    requires depth <= MAX_EXPR_RECURSION_LEVEL
    decreases t
  {
    match t
    case PreStep(k, x) =>
      var o := Lookup(env, x, vars, depth); if o.Ok? then Bound(env, x, Stepped(k, o.value)) else map[]
    case PostStep(x, k) =>
      var o := Lookup(env, x, vars, depth); if o.Ok? then Bound(env, x, Stepped(k, o.value)) else map[]
    case Paren(e) => Writes(env, e, vars, depth)
    case Unary(_, e) => Writes(env, e, vars, depth)
    case Cut(e) => Writes(env, e, vars, depth)
    case Stray(e, _) => Writes(env, e, vars, depth)
    case Bin(op, l, r) =>
      var o := Eval(env, l, vars, depth);
      Writes(env, l, vars, depth) +
      if o.Ok? && !SkipsRight(op, o.value) then Writes(env, r, o.vars, depth) else map[]
    case Cond(c, a, b) =>
      var o := Eval(env, c, vars, depth);
      Writes(env, c, vars, depth) +
      if o.Error? || (o.value == 0 && Stops(a)) then map[]
      else Writes(env, if o.value != 0 then a else b, o.vars, depth)
    case Assign(x, e) =>
      var o := Eval(env, e, vars, depth);
      Writes(env, e, vars, depth) + if o.Ok? then Bound(env, x, o.value) else map[]
    case Update(x, op, e) =>
      var a, o := Lookup(env, x, vars, depth), Eval(env, e, vars, depth);
      Writes(env, e, vars, depth) + if a.Ok? && o.Ok? then BoundUpdate(env, x, op, a.value, o.value) else map[]
    case ModUpdate(l, x, op, e) =>
      var o := Eval(env, l, vars, depth);
      Writes(env, l, vars, depth) +
      if o.Ok? && o.value == INTMAX_MIN && Lookup(env, x, o.vars, depth) == Ok(-1, o.vars) then
        var u := Eval(env, e, o.vars, depth);
        Writes(env, e, o.vars, depth) + if u.Ok? then BoundUpdate(env, x, op, 0, u.value) else map[]
      else map[]
    case _ => map[]
  }

  /** The store with the texts of the integers in w. */
  function With(vars: Store, w: Bindings): Store { vars + Texts(w) }

  function Texts(w: Bindings): Store { map x | x in w :: Itos(w[x]) }

  lemma WithBoth(vars: Store, a: Bindings, b: Bindings)
    ensures With(vars, a + b) == With(With(vars, a), b)
  {
    hide Itos;
    WithTexts(a, b);
    MapsAdd(vars, Texts(a), Texts(b));
  }

  lemma WithTexts(a: Bindings, b: Bindings)
    ensures Texts(a + b) == Texts(a) + Texts(b)
  {
    hide Itos;
  }

  lemma MapsAdd(a: Store, b: Store, c: Store)
    ensures a + (b + c) == a + b + c
  {
  }

  lemma WithNone(vars: Store)
    ensures With(vars, map[]) == vars
  {
  }

  lemma BindWith(env: Env, vars: Store, x: string, v: int64, r: int64)
    ensures Bind(env, vars, x, v, r).vars == With(vars, Bound(env, x, v))
  {
    hide Itos;
  }

  lemma UpdateWith(env: Env, vars: Store, x: string, op: Kind, a: int64, b: int64)
    ensures StoreUpdate(env, x, op, a, b, vars).vars == With(vars, BoundUpdate(env, x, op, a, b))
  {
    hide Apply, Bind, Bound, With;
    WithNone(vars);
    if IsAssignable(op) && Apply(op, a, b).Some? {
      BindWith(env, vars, x, Apply(op, a, b).value, Apply(op, a, b).value);
    }
  }

  /** These are all the changes of the store, whether the evaluation fails or not. */
  lemma {:induction false} WritesAreAll(env: Env, t: Tree, vars: Store, depth: nat)
    requires ReadsInts(env) && IntStore(vars) && depth < MAX_EXPR_RECURSION_LEVEL
    ensures Eval(env, t, vars, depth).vars == With(vars, Writes(env, t, vars, depth))
    decreases t
  {
    hide Eval, Lookup, IntStore, With, Bind, Bound, StoreUpdate, BoundUpdate, SkipsRight, Stops, SameBut;
    WithNone(vars);
    match t
    case PreStep(k, x) => StepWith(env, t, vars, depth);
    case PostStep(x, k) => StepWith(env, t, vars, depth);
    case Paren(e) => WritesAreAll(env, e, vars, depth); ParenRun(e, env, vars, depth, false);
    case Unary(op, e) => WritesAreAll(env, e, vars, depth); UnaryRun(op, e, env, vars, depth, false);
    case Cut(e) => WritesAreAll(env, e, vars, depth); CutRun(e, env, vars, depth, false);
    case Stray(e, x) =>
      WritesAreAll(env, e, vars, depth);
      StrayRun(e, x, env, vars, depth, false);
      OnlyAssignedChange(env, e, vars, depth);
      if Eval(env, e, vars, depth).Ok? { IntLookup(env, x, Eval(env, e, vars, depth).vars, depth); }
    case Bin(op, l, r) => BinWith(env, op, l, r, vars, depth);
    case Cond(c, a, b) => CondWith(env, c, a, b, vars, depth);
    case Assign(x, e) => AssignWith(env, x, e, vars, depth);
    case Update(x, op, e) => UpdatesWith(env, x, op, e, vars, depth);
    case ModUpdate(l, x, op, e) => ModUpdateWith(env, l, x, op, e, vars, depth);
    case Var(x) => IntLookup(env, x, vars, depth); NameRun(x, Sym(End), env, vars, depth, false);
    case Const(n) => ConstRun(n, env, vars, depth, false);
    case Target(x) => NameRun(x, Sym(Eq), env, vars, depth, false);
    case Stuck => StuckRun(env, vars, depth, false);
  }

  lemma StepWith(env: Env, t: Tree, vars: Store, depth: nat)
    requires (t.PreStep? || t.PostStep?) && ReadsInts(env) && IntStore(vars) && depth < MAX_EXPR_RECURSION_LEVEL
    ensures Eval(env, t, vars, depth).vars == With(vars, Writes(env, t, vars, depth))
  {
    hide Lookup, IntStore, With, Bind, Bound;
    IntLookup(env, t.name, vars, depth);
    var v := Lookup(env, t.name, vars, depth).value;
    BindWith(env, vars, t.name, Stepped(t.kind, v), Stepped(t.kind, v));
    BindWith(env, vars, t.name, Stepped(t.kind, v), v);
  }

  lemma {:induction false} BinWith(env: Env, op: Kind, l: Tree, r: Tree, vars: Store, depth: nat)
    requires ReadsInts(env) && IntStore(vars) && depth < MAX_EXPR_RECURSION_LEVEL
    ensures var t := Bin(op, l, r); Eval(env, t, vars, depth).vars == With(vars, Writes(env, t, vars, depth))
    decreases Bin(op, l, r), 0
  {
    hide Eval, IntStore, With, SkipsRight, Apply, SameBut, Writes, Truth;
    WritesAreAll(env, l, vars, depth);
    OnlyAssignedChange(env, l, vars, depth);
    WritesBin(env, op, l, r, vars, depth);
    var o, w := Eval(env, l, vars, depth), Writes(env, l, vars, depth);
    if o.Error? {
      BinStops(op, l, r, env, vars, depth, false);
      WithBoth(vars, w, map[]);
      WithNone(o.vars);
    } else {
      var skips := SkipsRight(op, o.value);
      BinRun(op, l, r, env, vars, depth, false, skips);
      WritesAreAll(env, r, o.vars, depth);
      WithBoth(vars, w, if skips then map[] else Writes(env, r, o.vars, depth));
      WithNone(o.vars);
    }
  }

  lemma WritesBin(env: Env, op: Kind, l: Tree, r: Tree, vars: Store, depth: nat)
    requires depth <= MAX_EXPR_RECURSION_LEVEL
    ensures var o := Eval(env, l, vars, depth);
            Writes(env, Bin(op, l, r), vars, depth) ==
              Writes(env, l, vars, depth) +
              if o.Ok? && !SkipsRight(op, o.value) then Writes(env, r, o.vars, depth) else map[]
  {
    hide Eval, SkipsRight;
  }

  lemma {:induction false} CondWith(env: Env, c: Tree, a: Tree, b: Tree, vars: Store, depth: nat)
    requires ReadsInts(env) && IntStore(vars) && depth < MAX_EXPR_RECURSION_LEVEL
    ensures var t := Cond(c, a, b); Eval(env, t, vars, depth).vars == With(vars, Writes(env, t, vars, depth))
    decreases Cond(c, a, b), 0
  {
    hide Eval, IntStore, With, Stops, SameBut;
    WritesAreAll(env, c, vars, depth);
    OnlyAssignedChange(env, c, vars, depth);
    var o, w := Eval(env, c, vars, depth), Writes(env, c, vars, depth);
    if o.Error? {
      CondStops(c, a, b, env, vars, depth, false);
      WithBoth(vars, w, map[]);
      WithNone(o.vars);
    } else {
      var branch := if o.value != 0 then a else b;
      CondRun(c, a, b, env, vars, depth, false);
      WritesAreAll(env, branch, o.vars, depth);
      WithBoth(vars, w, if o.value == 0 && Stops(a) then map[] else Writes(env, branch, o.vars, depth));
      WithNone(o.vars);
    }
  }

  lemma {:induction false} AssignWith(env: Env, x: string, e: Tree, vars: Store, depth: nat)
    requires ReadsInts(env) && IntStore(vars) && depth < MAX_EXPR_RECURSION_LEVEL
    ensures var t := Assign(x, e); Eval(env, t, vars, depth).vars == With(vars, Writes(env, t, vars, depth))
    decreases Assign(x, e), 0
  {
    hide Lookup, IntStore, With, Bind, Bound;
    WritesAreAll(env, e, vars, depth);
    var o, w := Eval(env, e, vars, depth), Writes(env, e, vars, depth);
    WithBoth(vars, w, if o.Ok? then Bound(env, x, o.value) else map[]);
    if o.Ok? { BindWith(env, o.vars, x, o.value, o.value); } else { WithNone(o.vars); }
  }

  lemma {:induction false} UpdatesWith(env: Env, x: string, op: Kind, e: Tree, vars: Store, depth: nat)
    requires ReadsInts(env) && IntStore(vars) && depth < MAX_EXPR_RECURSION_LEVEL
    ensures var t := Update(x, op, e); Eval(env, t, vars, depth).vars == With(vars, Writes(env, t, vars, depth))
    decreases Update(x, op, e), 0
  {
    hide Eval, Lookup, IntStore, With, StoreUpdate, BoundUpdate;
    IntLookup(env, x, vars, depth);
    UpdateEval(env, x, op, e, vars, depth);
    WritesAreAll(env, e, vars, depth);
    var a, o, w := Lookup(env, x, vars, depth), Eval(env, e, vars, depth), Writes(env, e, vars, depth);
    WithBoth(vars, w, if o.Ok? then BoundUpdate(env, x, op, a.value, o.value) else map[]);
    if o.Ok? { UpdateWith(env, o.vars, x, op, a.value, o.value); } else { WithNone(o.vars); }
  }

  lemma {:induction false} ModUpdateWith(env: Env, l: Tree, x: string, op: Kind, e: Tree, vars: Store, depth: nat)
    requires ReadsInts(env) && IntStore(vars) && depth < MAX_EXPR_RECURSION_LEVEL
    ensures var t := ModUpdate(l, x, op, e); Eval(env, t, vars, depth).vars == With(vars, Writes(env, t, vars, depth))
    decreases ModUpdate(l, x, op, e), 0
  {
    hide Eval, Lookup, IntStore, With, StoreUpdate, BoundUpdate, SameBut;
    ModUpdateEval(l, x, op, e, env, vars, depth);
    WritesAreAll(env, l, vars, depth);
    OnlyAssignedChange(env, l, vars, depth);
    var o, w := Eval(env, l, vars, depth), Writes(env, l, vars, depth);
    WithBoth(vars, w, map[]);
    WithNone(o.vars);
    if o.Ok? {
      IntLookup(env, x, o.vars, depth);
      var b := Lookup(env, x, o.vars, depth);
      WritesAreAll(env, e, o.vars, depth);
      var u, w2 := Eval(env, e, o.vars, depth), Writes(env, e, o.vars, depth);
      var w3 := if u.Ok? then BoundUpdate(env, x, op, 0, u.value) else map[];
      WithBoth(vars, w, w2 + w3);
      WithBoth(o.vars, w2, w3);
      if u.Ok? { UpdateWith(env, u.vars, x, op, 0, u.value); } else { WithNone(u.vars); }
    }
  }

  lemma WithUnchanged(vars: Store, w: Bindings)
    ensures With(vars, w) == vars <==> forall x <- w :: x in vars && vars[x] == Itos(w[x])
  {
    hide Itos;
    var u := With(vars, w);
    if u == vars {
      forall x <- w ensures x in vars && vars[x] == Itos(w[x]) { assert u[x] == Itos(w[x]); }
    }
  }

  /** Over a store of integers, the shell does what parsing first and evaluating then would do exactly
      if the text is an expression, or whatever is assigned before reading stops is there already. */
  lemma ParseFirstExact(readonly: set<string>, s: string, vars: Store)
    requires IntStore(vars)
    ensures EvalText(ShellEnv(readonly), s, vars, 0) == EvalText(ParseFirst(readonly), s, vars, 0)
            <==> (Blank(s) || ParseAll(Tokens(s)).Some? ||
                   var w := Writes(ShellEnv(readonly), TextTree(Tokens(s)), vars, 1);
                   forall x <- w :: x in vars && vars[x] == Itos(w[x]))
  {
    hide Eval, Stream, Parse, TextTree, ParseAll, Blank, IntStore, Writes, With;
    assert Wanted(s);
    ShellReadsInts(readonly);
    ParseFirstReadsInts(readonly);
    TextTreeIs(s);
    var env, t := ShellEnv(readonly), TextTree(Tokens(s));
    if ParseAll(Tokens(s)).Some? {
      GrammarIrrelevant(env, ParseFirst(readonly), t, vars, 1);
    } else {
      BreakFails(env, t, vars, 1);
      StuckRun(ParseFirst(readonly), vars, 1, false);
      WritesAreAll(env, t, vars, 1);
      WithUnchanged(vars, Writes(env, t, vars, 1));
    }
  }

  // ---- an example ----

  /** What is behind a phrase is only noticed when the phrase has been evaluated: "x=5)" sets x and
      is rejected then. Parsing first would not have touched x. */
  lemma StrayParenthesis(s: string, vars: Store)
    requires s == "x=5)"
    ensures EvalText(ShellEnv({}), s, vars, 0) == Error(vars["x" := "5"])
  {
    hide Eval, Stream, Parse, TextTree, Blank, Itos, Bind;
    var env := ShellEnv({});
    StrayTokens(s);
    StrayTree();
    assert Wanted(s);
    AssignFive(env, vars);
    CutRun(Assign("x", Const(5)), env, vars, 1, false);
  }

  lemma StrayTree()
    ensures TextTree([Id("x"), Sym(Eq), Lit(5), Sym(RPar), Sym(End)]) == Cut(Assign("x", Const(5)))
  {
    hide Parse;
    StrayParse();
  }

  lemma StrayTokens(s: string)
    requires s == "x=5)"
    ensures Tokens(s) == [Id("x"), Sym(Eq), Lit(5), Sym(RPar), Sym(End)] && !Blank(s)
  {
    hide StrLong, Lex;
    StrayHead(s);
    StrayTail(s);
    assert Stream(s, 1, false, AfterName) == [Sym(Eq)] + Stream(s, 2, false, Plain);
    assert Tokens(s) == [Id("x")] + Stream(s, 1, false, AfterName);
  }

  lemma StrayHead(s: string)
    requires s == "x=5)"
    ensures Lex(s, 0, Plain) == Lexed(Id("x"), 1) && Lex(s, 1, AfterName) == Lexed(Sym(Eq), 2) && !Blank(s)
  {
    hide StrLong;
    assert NameEnd(s, 1) == 1 && NameEnd(s, 0) == 1 && s[0..1] == "x";
    assert LexOperator(s, 1, AfterName) == Lexed(Sym(Eq), 2);
  }

  lemma StrayTail(s: string)
    requires s == "x=5)"
    ensures Stream(s, 2, false, Plain) == [Lit(5), Sym(RPar), Sym(End)]
  {
    hide StrLong, NameChar, NameEnd, NextContext;
    DecimalLiteral(5);
    assert NumberEnd(s, 3) == 3 && NumberEnd(s, 2) == 3 && s[2..3] == Print(5, 10);
    assert Lex(s, 2, Plain) == Lexed(Lit(5), 3);
    assert LexOperator(s, 3, NextContext(false, Lit(5))) == Lexed(Sym(RPar), 4);
    assert Lex(s, 3, NextContext(false, Lit(5))) == Lexed(Sym(RPar), 4);
    assert Stream(s, 4, false, NextContext(false, Sym(RPar))) == [Sym(End)];
  }

  lemma StrayParse()
    ensures Parse(0, [Id("x"), Sym(Eq), Lit(5), Sym(RPar), Sym(End)]) ==
              Parsed(Assign("x", Const(5)), [Sym(RPar), Sym(End)])
  {
    hide Parse;
    var t, rest := Assign("x", Const(5)), [Sym(RPar), Sym(End)];
    assert WellFormed(t.rhs) && Yield(t.rhs) == [Lit(5)];
    assert Yield(t) + rest == [Id("x"), Sym(Eq), Lit(5), Sym(RPar), Sym(End)];
    Complete(0, t, rest);
  }

  lemma AssignFive(env: Env, vars: Store)
    requires "x" !in env.readonly
    ensures Eval(env, Assign("x", Const(5)), vars, 1) == Ok(5, vars["x" := "5"])
  {
    ConstRun(5, env, vars, 1, false);
    assert Itos(5) == "5";
  }
}
