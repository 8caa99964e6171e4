/** What the phrases of an expression do when they are evaluated or stepped over, from what their
    parts do; and how the parser gets from the phrases of one level to those of the next. */
module ExprRuns {
  import opened CStrings
  import opened Int64
  import opened Literals
  import opened ExprLex
  import opened ExprGrammar
  import opened ExprSemantics

  /** Evaluate t, or only step over it when evaluation is suppressed (noeval). */
  function Run(env: Env, t: Tree, vars: Store, depth: nat, skip: bool): Outcome
    requires depth <= MAX_EXPR_RECURSION_LEVEL
  {
    if skip then Skipped(t, vars, 0) else Eval(env, t, vars, depth)
  }

  /** The lookup of a name that has just been read, with the token after it. */
  function LookAhead(env: Env, x: string, vars: Store, depth: nat, skip: bool, forced: bool, next: Token): Outcome
    requires depth <= MAX_EXPR_RECURSION_LEVEL
  {
    if skip || (!forced && next == Sym(Eq)) then Ok(0, vars) else Lookup(env, x, vars, depth)
  }

  // ---- the parts of a tree ----

  /** Evaluation starts at the left. */
  lemma BinStops(op: Kind, t: Tree, u: Tree, env: Env, vars: Store, depth: nat, skip: bool)
    requires depth <= MAX_EXPR_RECURSION_LEVEL && Run(env, t, vars, depth, skip).Error?
    ensures Run(env, Bin(op, t, u), vars, depth, skip) == Run(env, t, vars, depth, skip)
  {
    hide Apply, Combine, Lookup;
  }

  /** The right operand is not evaluated. */
  predicate SkipsRight(op: Kind, a: int64) { (op == LOr && a != 0) || (op == LAnd && a == 0) }

  /** A binary operator, from the runs of its operands. */
  lemma BinRun(op: Kind, t: Tree, u: Tree, env: Env, vars: Store, depth: nat, skip: bool, skipRight: bool)
    requires depth <= MAX_EXPR_RECURSION_LEVEL && Run(env, t, vars, depth, skip).Ok?
    requires skipRight == (skip || SkipsRight(op, Run(env, t, vars, depth, skip).value))
    ensures var o1 := Run(env, t, vars, depth, skip);
            var o2 := Run(env, u, o1.vars, depth, skipRight);
            Run(env, Bin(op, t, u), vars, depth, skip) ==
              if o2.Error? then o2
              else if skip then Ok(0, vars)
              else if skipRight then Ok(Truth(o1.value != 0), o1.vars)
              else Combine(op, o1.value, o2.value, o2.vars)
  {
    hide Apply, Combine, Parse, Int64.Add;
    if !skip {
      var o1 := Eval(env, t, vars, depth);
      if SkipsRight(op, o1.value) {
        assert Eval(env, Bin(op, t, u), vars, depth) == Skipped(u, o1.vars, Truth(o1.value != 0));
      } else if Eval(env, u, o1.vars, depth).Error? {
        assert Eval(env, Bin(op, t, u), vars, depth) == Eval(env, u, o1.vars, depth);
      }
    }
  }

  lemma UnaryRun(op: Kind, e: Tree, env: Env, vars: Store, depth: nat, skip: bool)
    requires depth <= MAX_EXPR_RECURSION_LEVEL
    ensures var o := Run(env, e, vars, depth, skip);
            Run(env, Unary(op, e), vars, depth, skip) ==
              if o.Error? then o else if skip then Ok(0, vars) else Ok(ApplyUnary(op, o.value), o.vars)
  {
    hide Apply, Combine, Parse, Lookup;
    if !skip && Eval(env, e, vars, depth).Error? {
      assert Eval(env, Unary(op, e), vars, depth) == Eval(env, e, vars, depth);
    }
  }

  lemma ParenRun(e: Tree, env: Env, vars: Store, depth: nat, skip: bool)
    requires depth <= MAX_EXPR_RECURSION_LEVEL
    ensures Run(env, Paren(e), vars, depth, skip) == Run(env, e, vars, depth, skip)
  {
  }

  lemma CutRun(e: Tree, env: Env, vars: Store, depth: nat, skip: bool)
    requires depth <= MAX_EXPR_RECURSION_LEVEL
    ensures Run(env, Cut(e), vars, depth, skip) == Error(Run(env, e, vars, depth, skip).vars)
  {
    hide Apply, Combine, Lookup;
    if !skip && Eval(env, e, vars, depth).Ok? {
      assert Eval(env, Cut(e), vars, depth) == Error(Eval(env, e, vars, depth).vars);
    }
  }

  lemma StrayRun(e: Tree, x: string, env: Env, vars: Store, depth: nat, skip: bool)
    requires depth <= MAX_EXPR_RECURSION_LEVEL
    ensures var o := Run(env, e, vars, depth, skip);
            Run(env, Stray(e, x), vars, depth, skip) ==
              if o.Error? || skip then o
              else
                var l := Lookup(env, x, o.vars, depth);
                if l.Error? then l else Ok(o.value, l.vars)
  {
    hide Apply, Combine, Lookup;
    if !skip {
      var o := Eval(env, e, vars, depth);
      if o.Error? {
        assert Eval(env, Stray(e, x), vars, depth) == o;
      } else if Lookup(env, x, o.vars, depth).Error? {
        assert Eval(env, Stray(e, x), vars, depth) == Lookup(env, x, o.vars, depth);
      }
    }
  }

  lemma ConstRun(n: int64, env: Env, vars: Store, depth: nat, skip: bool)
    requires depth <= MAX_EXPR_RECURSION_LEVEL
    ensures Run(env, Const(n), vars, depth, skip) == Ok(if skip then 0 else n, vars)
  {
  }

  lemma StuckRun(env: Env, vars: Store, depth: nat, skip: bool)
    requires depth <= MAX_EXPR_RECURSION_LEVEL
    ensures Run(env, Stuck, vars, depth, skip) == Error(vars)
  {
  }

  /** A name in an expression means what readtok looked up for it. */
  lemma NameRun(x: string, next: Token, env: Env, vars: Store, depth: nat, skip: bool)
    requires depth <= MAX_EXPR_RECURSION_LEVEL
    ensures Run(env, if next == Sym(Eq) then Target(x) else Var(x), vars, depth, skip) ==
              LookAhead(env, x, vars, depth, skip, false, next)
  {
  }

  lemma StepRun(x: string, k: Kind, next: Token, env: Env, vars: Store, depth: nat, skip: bool)
    requires depth <= MAX_EXPR_RECURSION_LEVEL && next == Sym(k) && IsPost(k)
    ensures var o := LookAhead(env, x, vars, depth, skip, false, next);
            Run(env, PostStep(x, k), vars, depth, skip) ==
              if o.Error? then o
              else if skip then Ok(0, vars)
              else Bind(env, o.vars, x, Stepped(k, o.value), o.value)
  {
    hide Parse, EvalText, Bind, Int64.Add;
    if !skip && Lookup(env, x, vars, depth).Error? {
      assert Eval(env, PostStep(x, k), vars, depth) == Lookup(env, x, vars, depth);
    }
  }

  lemma PreRun(x: string, k: Kind, next: Token, env: Env, vars: Store, depth: nat, skip: bool)
    requires depth <= MAX_EXPR_RECURSION_LEVEL
    ensures var o := LookAhead(env, x, vars, depth, skip, true, next);
            Run(env, PreStep(k, x), vars, depth, skip) ==
              if o.Error? then o
              else if skip then Ok(0, vars)
              else Bind(env, o.vars, x, Stepped(k, o.value), Stepped(k, o.value))
  {
    hide Parse, EvalText, Bind;
    if !skip && Lookup(env, x, vars, depth).Error? {
      assert Eval(env, PreStep(k, x), vars, depth) == Lookup(env, x, vars, depth);
    }
  }

  /** A conditional, from the runs of its parts; exactly one branch is skipped. */
  lemma CondRun(c: Tree, a: Tree, b: Tree, env: Env, vars: Store, depth: nat, skip: bool)
    requires depth <= MAX_EXPR_RECURSION_LEVEL && Run(env, c, vars, depth, skip).Ok?
    ensures var o1 := Run(env, c, vars, depth, skip);
            var o2 := Run(env, a, o1.vars, depth, skip || o1.value == 0);
            var o := Run(env, Cond(c, a, b), vars, depth, skip);
            if o2.Error? then o == o2
            else
              var o3 := Run(env, b, o2.vars, depth, skip || o1.value != 0);
              if o3.Error? then o == o3
              else o == Ok(if skip then 0 else if o1.value != 0 then o2.value else o3.value, o3.vars)
  {
    hide Apply, Combine, Parse;
    if !skip {
      var o1 := Eval(env, c, vars, depth);
      if o1.value != 0 {
        var o2 := Eval(env, a, o1.vars, depth);
        assert Eval(env, Cond(c, a, b), vars, depth) == if o2.Error? then o2 else Skipped(b, o2.vars, o2.value);
      } else {
        assert Eval(env, Cond(c, a, b), vars, depth) == if Stops(a) then Error(o1.vars)
            else Eval(env, b, o1.vars, depth);
      }
    }
  }

  lemma CondStops(c: Tree, a: Tree, b: Tree, env: Env, vars: Store, depth: nat, skip: bool)
    requires depth <= MAX_EXPR_RECURSION_LEVEL && Run(env, c, vars, depth, skip).Error?
    ensures Run(env, Cond(c, a, b), vars, depth, skip) == Run(env, c, vars, depth, skip)
  {
    hide Apply, Combine, Lookup;
  }

  // ---- assignments ----

  /** t is a bare name. */
  predicate IsName(t: Tree) { t.Var? || t.Target? }

  /** The branch of expr.c:923-927 is the last thing done for t: it leaves lasttok as it is. */
  ghost predicate Fires(t: Tree, env: Env, vars: Store, depth: nat, skip: bool)
    requires depth <= MAX_EXPR_RECURSION_LEVEL
  {
    && !skip && t.Bin? && t.op == Mod && t.right.Var?
    && var l := Eval(env, t.left, vars, depth);
    && l.Ok? && l.value == INTMAX_MIN
    && var r := Eval(env, t.right, l.vars, depth);
    && r.Ok? && r.value == -1
  }

  function NameOf(t: Tree): string
    requires IsName(t) || (t.Bin? && t.right.Var?)
  {
    if IsName(t) then t.name else t.right.name
  }

  /** The last step of an assignment to x: a is the old value, b the right side. */
  function Conclude(env: Env, x: string, op: Token, a: int64, b: int64, vars: Store): Outcome {
    if op.AssignOp? then StoreUpdate(env, x, op.op, a, b, vars)
    else Bind(env, vars, x, b, b)
  }

  /** l % x, from its parts. */
  lemma ModEval(l: Tree, x: string, env: Env, vars: Store, depth: nat)
    requires depth <= MAX_EXPR_RECURSION_LEVEL
    ensures var a := Eval(env, l, vars, depth);
            Eval(env, Bin(Mod, l, Var(x)), vars, depth) ==
              if a.Error? then a
              else
                var b := Lookup(env, x, a.vars, depth);
                if b.Error? then b else Combine(Mod, a.value, b.value, b.vars)
  {
    hide Parse, Skipped, Stops;
    var a := Eval(env, l, vars, depth);
    if a.Ok? { assert Eval(env, Var(x), a.vars, depth) == Lookup(env, x, a.vars, depth); }
  }

  /** l % x op= e, from its parts. */
  lemma ModUpdateEval(l: Tree, x: string, op: Kind, e: Tree, env: Env, vars: Store, depth: nat)
    requires depth <= MAX_EXPR_RECURSION_LEVEL
    ensures var a := Eval(env, l, vars, depth);
            Eval(env, ModUpdate(l, x, op, e), vars, depth) ==
              if a.Error? then a
              else
                var b := Lookup(env, x, a.vars, depth);
                if b.Error? then b
                else if a.value != INTMAX_MIN || b.value != -1 then Error(b.vars)
                else
                  var c := Eval(env, e, b.vars, depth);
                  if c.Error? then c else StoreUpdate(env, x, op, 0, c.value, c.vars)
  {
    hide Parse, Apply, StoreUpdate;
    var t := ModUpdate(l, x, op, e);
    var a := Eval(env, l, vars, depth);
    if a.Error? {
      assert Eval(env, t, vars, depth) == a;
    } else {
      var b := Lookup(env, x, a.vars, depth);
      if b.Error? {
        assert Eval(env, t, vars, depth) == b;
      } else if a.value == INTMAX_MIN && b.value == -1 && Eval(env, e, b.vars, depth).Error? {
        assert Eval(env, t, vars, depth) == Eval(env, e, b.vars, depth);
      }
    }
  }

  lemma ModSideFails(l: Tree, x: string, op: Kind, e: Tree, env: Env, vars: Store, depth: nat)
    requires depth <= MAX_EXPR_RECURSION_LEVEL
    requires Eval(env, Bin(Mod, l, Var(x)), vars, depth).Error?
    ensures Eval(env, ModUpdate(l, x, op, e), vars, depth) == Eval(env, Bin(Mod, l, Var(x)), vars, depth)
  {
    hide Eval, Lookup, StoreUpdate, Apply;
    ModEval(l, x, env, vars, depth);
    ModUpdateEval(l, x, op, e, env, vars, depth);
    ApplyAssignable(Mod, INTMAX_MIN, -1);
  }

  lemma LeftSideFails(t: Tree, op: Token, e: Tree, env: Env, vars: Store, depth: nat, skip: bool)
    requires IsLeftSide(t, op) && depth <= MAX_EXPR_RECURSION_LEVEL
    requires Run(env, t, vars, depth, skip).Error?
    ensures Run(env, MakeAssign(t, op, e), vars, depth, skip) == Run(env, t, vars, depth, skip)
  {
    if t.Bin? && !skip {
      ModSideFails(t.left, t.right.name, op.op, e, env, vars, depth);
    }
  }

  /** An assignment, from the runs of its two sides. */
  lemma AssignRun(t: Tree, op: Token, e: Tree, env: Env, vars: Store, depth: nat, skip: bool)
    requires depth <= MAX_EXPR_RECURSION_LEVEL && Run(env, t, vars, depth, skip).Ok?
    requires IsLeftSide(t, op) && (IsName(t) || Fires(t, env, vars, depth, skip)) && (t.Target? <==> !op.AssignOp?)
    ensures var o1 := Run(env, t, vars, depth, skip);
            var o2 := Run(env, e, o1.vars, depth, skip);
            Run(env, MakeAssign(t, op, e), vars, depth, skip) ==
              if o2.Error? then o2
              else if skip then Ok(0, vars)
              else Conclude(env, NameOf(t), op, o1.value, o2.value, o2.vars)
  {
    if t.Bin? && !skip {
      hide Conclude, StoreUpdate;
      ModUpdateRun(t, op.op, e, env, vars, depth);
    }
  }

  lemma ModUpdateRun(t: Tree, op: Kind, e: Tree, env: Env, vars: Store, depth: nat)
    requires depth <= MAX_EXPR_RECURSION_LEVEL && Fires(t, env, vars, depth, false) && Eval(env, t, vars, depth).Ok?
    ensures var o1 := Eval(env, t, vars, depth);
            var o2 := Eval(env, e, o1.vars, depth);
            Eval(env, ModUpdate(t.left, t.right.name, op, e), vars, depth) ==
              if o2.Error? then o2 else StoreUpdate(env, t.right.name, op, o1.value, o2.value, o2.vars)
  {
    hide Eval, StoreUpdate, Lookup, Apply;
    FiringValues(t, env, vars, depth);
    ModEval(t.left, t.right.name, env, vars, depth);
    ModUpdateEval(t.left, t.right.name, op, e, env, vars, depth);
    ApplyAssignable(Mod, INTMAX_MIN, -1);
  }

  lemma FiringValues(t: Tree, env: Env, vars: Store, depth: nat)
    requires depth <= MAX_EXPR_RECURSION_LEVEL && t.Bin? && t.right.Var?
    ensures var l := Eval(env, t.left, vars, depth);
            Fires(t, env, vars, depth, false) <==>
              t.op == Mod && l.Ok? && l.value == INTMAX_MIN &&
              var r := Lookup(env, t.right.name, l.vars, depth);
              r.Ok? && r.value == -1
  {
    hide StoreUpdate, Lookup, Apply;
    var l := Eval(env, t.left, vars, depth);
    if l.Ok? {
      assert Eval(env, t.right, l.vars, depth) == Lookup(env, t.right.name, l.vars, depth);
    }
  }

  lemma FiresShape(t: Tree, env: Env, vars: Store, depth: nat, skip: bool)
    requires depth <= MAX_EXPR_RECURSION_LEVEL && Fires(t, env, vars, depth, skip)
    ensures t.Bin? && t.op == Mod && t.right.Var?
  {
  }

  lemma NotFiring(l: Tree, x: string, op: Kind, e: Tree, env: Env, vars: Store, depth: nat)
    requires depth <= MAX_EXPR_RECURSION_LEVEL && Eval(env, Bin(Mod, l, Var(x)), vars, depth).Ok?
    requires !Fires(Bin(Mod, l, Var(x)), env, vars, depth, false)
    ensures Eval(env, ModUpdate(l, x, op, e), vars, depth) == Error(Eval(env, Bin(Mod, l, Var(x)), vars, depth).vars)
  {
    hide Eval, StoreUpdate, Lookup, Apply, Fires;
    ModEval(l, x, env, vars, depth);
    ModUpdateEval(l, x, op, e, env, vars, depth);
    FiringValues(Bin(Mod, l, Var(x)), env, vars, depth);
  }

  lemma ApplyZero(op: Kind, a: int64)
    ensures op == Div || op == Mod ==> Apply(op, a, 0) == None
  {
  }

  lemma ApplyAssignable(op: Kind, a: int64, b: int64)
    requires IsAssignable(op) && (op == Div || op == Mod ==> b != 0)
    ensures Apply(op, a, b).Some?
    ensures op == Div && a == INTMAX_MIN && b == -1 ==> Apply(op, a, b) == Some(INTMAX_MIN)
    ensures op == Mod && a == INTMAX_MIN && b == -1 ==> Apply(op, a, b) == Some(0)
  {
    match op
    case Div => assert TruncDiv(INTMAX_MIN, -1) == TWO_63;
    case Mod => assert TruncMod(INTMAX_MIN, -1) == 0;
    case _ =>
  }

  // ---- how the parser goes on ----

  lemma FollowIs(k: nat, ts: seq<Token>)
    requires k <= PRIMARY && |ts| >= 2
    ensures Follow(k, ts) == Parse(k, ts[1..])
  {
    hide Parse;
  }

  lemma LoopGoesOn(k: nat, t: Tree, ts: seq<Token>)
    requires LoopLevel(k) && |ts| > 0 && Continues(k, ts[0])
    ensures var p := Follow(k + 1, ts);
            var u := Bin(ts[0].kind, t, p.tree);
            ParseLoop(k, t, ts) == if p.Parsed? then ParseLoop(k, u, p.rest) else WithTree(p, u)
  {
    hide Follow;
  }

  /** How ParseAssign proceeds at an assignment operator. */
  lemma AssignParse(ts: seq<Token>, t: Tree, r: seq<Token>)
    requires |ts| > 0 && |r| > 0 && Parse(CONDITIONAL, ts) == Parsed(t, r) && (IsSym(r[0], Eq) || r[0].AssignOp?)
    ensures Parse(ASSIGNMENT, ts) ==
              if !IsLeftSide(t, r[0]) then Fail(Cut(t))
              else
                var q := Follow(ASSIGNMENT, r);
                WithTree(q, MakeAssign(t, r[0], q.tree))
  {
    hide Follow, IsLeftSide, MakeAssign;
    assert Parse(ASSIGNMENT, ts) == ParseAssign(ts);
  }

  /** How ParseCond proceeds once a "?" has been seen. */
  lemma CondParse(ts: seq<Token>, c: Tree, r: seq<Token>)
    requires |ts| > 0 && |r| > 0 && Parse(CONDITIONAL + 1, ts) == Parsed(c, r) && IsSym(r[0], Ques)
    ensures var a := Follow(0, r);
            Parse(CONDITIONAL, ts) ==
              if !a.Parsed? || !IsSym(a.rest[0], Col) then Fail(Cond(c, CutOff(a), Stuck))
              else
                var b := Follow(CONDITIONAL, a.rest);
                WithTree(b, Cond(c, a.tree, b.tree))
  {
    hide Follow;
    assert Parse(CONDITIONAL, ts) == ParseCond(ts);
  }

  lemma PowerParse(ts: seq<Token>, t: Tree, r: seq<Token>)
    requires |ts| > 0 && |r| > 0 && Parse(UNARY, ts) == Parsed(t, r) && IsSym(r[0], Power)
    ensures var q := Follow(POWER, r);
            Parse(POWER, ts) == WithTree(q, Bin(Power, t, q.tree))
  {
    hide Follow;
    assert Parse(POWER, ts) == ParsePower(ts);
  }

  /** ParsePower takes all of a chain of "**". */
  lemma {:induction false} PowerStops(ts: seq<Token>)
    requires |ts| > 0
    ensures Parse(POWER, ts).Parsed? ==> !IsSym(Parse(POWER, ts).rest[0], Power)
    decreases |ts|
  {
    hide Follow;
    assert Parse(POWER, ts) == ParsePower(ts);
    var p := Parse(UNARY, ts);
    if p.Parsed? && IsSym(p.rest[0], Power) { PowerFollows(p.rest); }
  }

  lemma {:induction false} PowerFollows(r: seq<Token>)
    requires |r| > 0
    ensures Follow(POWER, r).Parsed? ==> !IsSym(Follow(POWER, r).rest[0], Power)
    decreases |r|, 0
  {
    hide Parse;
    if |r| >= 2 { PowerStops(r[1..]); }
  }

  lemma UnaryParse(ts: seq<Token>)
    requires |ts| > 0
    ensures Parse(UNARY, ts) ==
              if ts[0].Sym? && IsUnary(ts[0].kind) then
                var q := Follow(UNARY, ts);
                WithTree(q, Unary(ts[0].kind, q.tree))
              else Parse(PRIMARY, ts)
  {
    hide Follow;
    assert Parse(UNARY, ts) == ParseUnary(ts);
  }

  lemma ParenParse(ts: seq<Token>)
    requires |ts| > 0 && ts[0] == Sym(LPar)
    ensures var q := Follow(0, ts);
            Parse(PRIMARY, ts) ==
              if q.Parsed? && IsSym(q.rest[0], RPar) then Behind(Paren(q.tree), q.rest, false)
              else Fail(Paren(CutOff(q)))
  {
    hide Follow, Behind;
    assert Parse(PRIMARY, ts) == ParsePrimary(ts);
  }

  lemma PreParse(ts: seq<Token>)
    requires |ts| >= 2 && ts[0].Sym? && IsStep(ts[0].kind)
    ensures Parse(PRIMARY, ts) ==
              if ts[1].Id? && !PeekFails(ts[2..]) then Behind(PreStep(ts[0].kind, ts[1].name), ts[1..], true)
              else Fail(Stuck)
  {
    hide Follow, Behind, PeekFails;
    assert Parse(PRIMARY, ts) == ParsePrimary(ts);
  }

  lemma NameParse(ts: seq<Token>)
    requires |ts| > 0 && ts[0].Id?
    ensures PeekFails(ts[1..]) ==> Parse(PRIMARY, ts) == Fail(Stuck)
    ensures !PeekFails(ts[1..]) ==>
              |ts| >= 2 &&
              Parse(PRIMARY, ts) ==
                if ts[1].Sym? && IsPost(ts[1].kind) then Behind(PostStep(ts[0].name, ts[1].kind), ts[1..], false)
                else if IsSym(ts[1], Eq) then Parsed(Target(ts[0].name), ts[1..])
                else Behind(Var(ts[0].name), ts, false)
  {
    hide Follow, Behind;
    assert Parse(PRIMARY, ts) == ParsePrimary(ts);
  }

  lemma NumberParse(ts: seq<Token>)
    requires |ts| > 0 && ts[0].Lit?
    ensures Parse(PRIMARY, ts) == Behind(Const(ts[0].value), ts, false)
  {
    hide Follow, Behind;
    assert Parse(PRIMARY, ts) == ParsePrimary(ts);
  }

  /** What cannot start an operand. */
  lemma NoOperand(ts: seq<Token>)
    requires |ts| > 0 && !ts[0].Lit? && !ts[0].Id? && !(ts[0].Sym? && (IsStep(ts[0].kind) || ts[0].kind == LPar))
    ensures Parse(PRIMARY, ts) == Fail(Stuck)
  {
    assert Parse(PRIMARY, ts) == ParsePrimary(ts);
  }

  // ---- failures are passed on ----

  /** A failing first operand makes the whole loop fail. */
  lemma {:induction false} LoopFails(k: nat, t: Tree, ts: seq<Token>, env: Env, vars: Store, depth: nat, skip: bool)
    requires LoopLevel(k) && |ts| > 0 && !ts[0].Bad? && !ts[0].Id?
    requires depth <= MAX_EXPR_RECURSION_LEVEL && Run(env, t, vars, depth, skip).Error?
    ensures Run(env, ParseLoop(k, t, ts).tree, vars, depth, skip) == Run(env, t, vars, depth, skip)
    decreases |ts|
  {
    hide Follow, Run;
    if Continues(k, ts[0]) {
      var p := Follow(k + 1, ts);
      BinStops(ts[0].kind, t, p.tree, env, vars, depth, skip);
      if p.Parsed? { LoopFails(k, Bin(ts[0].kind, t, p.tree), p.rest, env, vars, depth, skip); }
    }
  }

  lemma AssignFails(ts: seq<Token>, env: Env, vars: Store, depth: nat, skip: bool)
    requires |ts| > 0 && depth <= MAX_EXPR_RECURSION_LEVEL
    requires Run(env, Parse(CONDITIONAL, ts).tree, vars, depth, skip).Error?
    ensures Run(env, Parse(ASSIGNMENT, ts).tree, vars, depth, skip) ==
              Run(env, Parse(CONDITIONAL, ts).tree, vars, depth, skip)
  {
    hide Parse, Follow, Run;
    var p := Parse(CONDITIONAL, ts);
    if p.Parsed? && (IsSym(p.rest[0], Eq) || p.rest[0].AssignOp?) {
      AssignParse(ts, p.tree, p.rest);
      CutRun(p.tree, env, vars, depth, skip);
      if IsLeftSide(p.tree, p.rest[0]) {
        LeftSideFails(p.tree, p.rest[0], Follow(ASSIGNMENT, p.rest).tree, env, vars, depth, skip);
      }
    } else {
      PlainLevel(ASSIGNMENT, ts);
    }
  }

  /** Where no operator of the level follows, a phrase is one of the next level. */
  lemma PlainLevel(k: nat, ts: seq<Token>)
    requires |ts| > 0 && k < PRIMARY
    requires k == UNARY ==> !(ts[0].Sym? && IsUnary(ts[0].kind))
    requires var p := Parse(k + 1, ts);
             p.Parsed? ==>
               var x := p.rest[0];
               if LoopLevel(k) then !Continues(k, x)
               else if k == ASSIGNMENT then !IsSym(x, Eq) && !x.AssignOp?
               else if k == CONDITIONAL then !IsSym(x, Ques)
               else k == POWER ==> !IsSym(x, Power)
    ensures Parse(k, ts) == Parse(k + 1, ts)
  {
    hide Follow;
  }

  /** A failing phrase makes the phrase of the next weaker level fail. */
  lemma LevelFails(k: nat, ts: seq<Token>, env: Env, vars: Store, depth: nat, skip: bool)
    requires k < PRIMARY && |ts| > 0 && depth <= MAX_EXPR_RECURSION_LEVEL
    requires k == UNARY ==> !(ts[0].Sym? && IsUnary(ts[0].kind))
    requires Run(env, Parse(k + 1, ts).tree, vars, depth, skip).Error?
    ensures Run(env, Parse(k, ts).tree, vars, depth, skip) == Run(env, Parse(k + 1, ts).tree, vars, depth, skip)
  {
    hide Parse, Follow, Run;
    var p := Parse(k + 1, ts);
    if LoopLevel(k) {
      LoopStarts(k, ts);
      if p.Parsed? { LoopFails(k, p.tree, p.rest, env, vars, depth, skip); }
    } else if k == ASSIGNMENT {
      AssignFails(ts, env, vars, depth, skip);
    } else if k == CONDITIONAL && p.Parsed? && IsSym(p.rest[0], Ques) {
      CondParse(ts, p.tree, p.rest);
      var t := Parse(k, ts).tree;
      CondStops(p.tree, t.yes, t.no, env, vars, depth, skip);
    } else if k == POWER && p.Parsed? && IsSym(p.rest[0], Power) {
      PowerParse(ts, p.tree, p.rest);
      BinStops(Power, p.tree, Follow(POWER, p.rest).tree, env, vars, depth, skip);
    } else {
      PlainLevel(k, ts);
    }
  }

  lemma LoopStarts(k: nat, ts: seq<Token>)
    requires LoopLevel(k) && |ts| > 0
    ensures var p := Parse(k + 1, ts);
            Parse(k, ts) == if p.Parsed? then ParseLoop(k, p.tree, p.rest) else p
  {
    hide ParseLoop;
  }

  /** A failing first operand makes the phrases of all levels fail. */
  lemma {:induction false} FirstFails(k: nat, ts: seq<Token>, env: Env, vars: Store, depth: nat, skip: bool)
    requires k <= PRIMARY && |ts| > 0 && depth <= MAX_EXPR_RECURSION_LEVEL
    requires !(ts[0].Sym? && IsUnary(ts[0].kind)) && Run(env, Parse(PRIMARY, ts).tree, vars, depth, skip).Error?
    ensures Run(env, Parse(k, ts).tree, vars, depth, skip) == Run(env, Parse(PRIMARY, ts).tree, vars, depth, skip)
    decreases PRIMARY - k
  {
    hide Parse, Run;
    if k < PRIMARY {
      FirstFails(k + 1, ts, env, vars, depth, skip);
      LevelFails(k, ts, env, vars, depth, skip);
    }
  }

  lemma BehindFails(e: Tree, ts: seq<Token>, forced: bool, env: Env, vars: Store, depth: nat, skip: bool)
    requires |ts| > 0 && depth <= MAX_EXPR_RECURSION_LEVEL && Run(env, e, vars, depth, skip).Error?
    ensures Run(env, Behind(e, ts, forced).tree, vars, depth, skip) == Run(env, e, vars, depth, skip)
  {
    hide Run, PeekFails;
    CutRun(e, env, vars, depth, skip);
    if |ts| >= 2 && ts[1].Id? { StrayRun(e, ts[1].name, env, vars, depth, skip); }
  }

  /** Where the first token cannot be read, the phrase breaks off at once. */
  lemma StuckFails(k: nat, ts: seq<Token>, env: Env, vars: Store, depth: nat, skip: bool)
    requires k <= PRIMARY && |ts| > 0 && depth <= MAX_EXPR_RECURSION_LEVEL
    requires !(ts[0].Sym? && IsUnary(ts[0].kind)) && Parse(PRIMARY, ts) == Fail(Stuck)
    ensures Run(env, Parse(k, ts).tree, vars, depth, skip) == Error(vars)
  {
    hide Parse, Run;
    StuckRun(env, vars, depth, skip);
    FirstFails(k, ts, env, vars, depth, skip);
  }

  lemma ReadingFails(k: nat, ts: seq<Token>, env: Env, vars: Store, depth: nat, skip: bool)
    requires k <= PRIMARY && |ts| > 0 && depth <= MAX_EXPR_RECURSION_LEVEL && ReadFails(ts)
    ensures Run(env, Parse(k, ts).tree, vars, depth, skip) == Error(vars)
  {
    hide Parse, Run, PeekFails;
    if ts[0].Id? { NameParse(ts); } else { NoOperand(ts); }
    StuckFails(k, ts, env, vars, depth, skip);
  }

  /** A name that cannot be looked up makes the phrase fail there. */
  lemma NameFails(k: nat, ts: seq<Token>, env: Env, vars: Store, depth: nat, skip: bool)
    requires k <= PRIMARY && |ts| >= 2 && ts[0].Id? && !PeekFails(ts[1..]) && depth <= MAX_EXPR_RECURSION_LEVEL
    requires LookAhead(env, ts[0].name, vars, depth, skip, false, ts[1]).Error?
    ensures Run(env, Parse(k, ts).tree, vars, depth, skip) ==
              LookAhead(env, ts[0].name, vars, depth, skip, false, ts[1])
  {
    hide Parse, Run, PeekFails, LookAhead, Behind;
    var x := ts[0].name;
    NameParse(ts);
    NameRun(x, ts[1], env, vars, depth, skip);
    if ts[1].Sym? && IsPost(ts[1].kind) {
      StepRun(x, ts[1].kind, ts[1], env, vars, depth, skip);
      BehindFails(PostStep(x, ts[1].kind), ts[1..], false, env, vars, depth, skip);
    } else {
      BehindFails(if ts[1] == Sym(Eq) then Target(x) else Var(x), ts, false, env, vars, depth, skip);
    }
    FirstFails(k, ts, env, vars, depth, skip);
  }

  /** A failing right operand makes the whole loop fail. */
  lemma RightFails(k: nat, t: Tree, ts: seq<Token>, env: Env, vars: Store, depth: nat, skip: bool, skipRight: bool)
    requires LoopLevel(k) && |ts| > 0 && Continues(k, ts[0])
    requires depth <= MAX_EXPR_RECURSION_LEVEL && Run(env, t, vars, depth, skip).Ok?
    requires skipRight == (skip || SkipsRight(ts[0].kind, Run(env, t, vars, depth, skip).value))
    requires Run(env, Follow(k + 1, ts).tree, Run(env, t, vars, depth, skip).vars, depth, skipRight).Error?
    ensures Run(env, ParseLoop(k, t, ts).tree, vars, depth, skip) ==
              Run(env, Follow(k + 1, ts).tree, Run(env, t, vars, depth, skip).vars, depth, skipRight)
  {
    hide Parse, Follow, ParseLoop, Run, SkipsRight;
    var p := Follow(k + 1, ts);
    LoopGoesOn(k, t, ts);
    BinRun(ts[0].kind, t, p.tree, env, vars, depth, skip, skipRight);
    if p.Parsed? { LoopFails(k, Bin(ts[0].kind, t, p.tree), p.rest, env, vars, depth, skip); }
  }

  /** An operator that fails on its operands makes the whole loop fail. */
  lemma OperatorFails(k: nat, t: Tree, ts: seq<Token>, env: Env, vars: Store, depth: nat)
    requires LoopLevel(k) && |ts| > 0 && Continues(k, ts[0]) && depth <= MAX_EXPR_RECURSION_LEVEL
    requires var o1 := Run(env, t, vars, depth, false);
             o1.Ok? && !SkipsRight(ts[0].kind, o1.value) &&
             var o2 := Run(env, Follow(k + 1, ts).tree, o1.vars, depth, false);
             o2.Ok? && Combine(ts[0].kind, o1.value, o2.value, o2.vars).Error?
    ensures var o1 := Run(env, t, vars, depth, false);
            var o2 := Run(env, Follow(k + 1, ts).tree, o1.vars, depth, false);
            Run(env, ParseLoop(k, t, ts).tree, vars, depth, false) ==
              Combine(ts[0].kind, o1.value, o2.value, o2.vars)
  {
    hide Parse, Follow, ParseLoop, Run, SkipsRight, Combine;
    var p := Follow(k + 1, ts);
    LoopGoesOn(k, t, ts);
    BinRun(ts[0].kind, t, p.tree, env, vars, depth, false, false);
    if p.Parsed? { LoopFails(k, Bin(ts[0].kind, t, p.tree), p.rest, env, vars, depth, false); }
  }

  /** What is behind the phrase of a whole text makes it fail, once the phrase has been evaluated. */
  lemma TextRun(ts: seq<Token>, env: Env, vars: Store, depth: nat)
    requires |ts| > 0 && depth <= MAX_EXPR_RECURSION_LEVEL
    ensures var p := Parse(0, ts);
            var o := Run(env, p.tree, vars, depth, false);
            Eval(env, TextTree(ts), vars, depth) ==
              if o.Error? || p.Fail? || (p.Parsed? && IsSym(p.rest[0], End)) then o else Error(o.vars)
  {
    hide Parse, Eval;
    CutRun(Parse(0, ts).tree, env, vars, depth, false);
  }

  /** What is neither a name nor the irregular case cannot be assigned to. */
  lemma NotAssignable(ts: seq<Token>, t: Tree, r: seq<Token>, env: Env, vars: Store, depth: nat, skip: bool)
    requires |ts| > 0 && |r| > 0 && Parse(CONDITIONAL, ts) == Parsed(t, r) && (IsSym(r[0], Eq) || r[0].AssignOp?)
    requires depth <= MAX_EXPR_RECURSION_LEVEL && Run(env, t, vars, depth, skip).Ok?
    requires !IsName(t) && !Fires(t, env, vars, depth, skip)
    ensures Run(env, Parse(ASSIGNMENT, ts).tree, vars, depth, skip) == Error(Run(env, t, vars, depth, skip).vars)
  {
    hide Parse, Follow, Eval, Fires;
    AssignParse(ts, t, r);
    CutRun(t, env, vars, depth, skip);
    if !skip && IsLeftSide(t, r[0]) {
      NotFiring(t.left, t.right.name, r[0].op, Follow(ASSIGNMENT, r).tree, env, vars, depth);
    }
  }
}
