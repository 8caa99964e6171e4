/** The one irregularity of bash/expr.c: behind INTMAX_MIN % -1 the `continue` of lines 923-927
    leaves lasttok as it is, so that an assignment operator may follow. When the evaluator differs
    from the precedence table, and what it computes then. */
module ExprIrregular {
  import opened CStrings
  import opened Int64
  import opened Literals
  import opened ExprLex
  import opened ExprGrammar
  import opened ExprUnambiguous
  import opened ExprSemantics
  import opened ExprRuns
  import opened ExprResults
  import opened ExprRejected

  /** The grammar of the precedence table alone: an operand of "%" is not an assignment target, and
      a text is parsed before it is evaluated, so that nothing is done for one that does not parse. */
  function StrictEnv(readonly: set<string>): Env {
    Env(readonly, (s: string) => match Regular(ParseAll(Tokens(s))) case None => Stuck case Some(t) => t)
  }

  function Regular(t: Option<Tree>): Option<Tree> {
    if t.Some? && HasModUpdate(t.value) then None else t
  }

  lemma StrictReadsInts(readonly: set<string>)
    ensures ReadsInts(StrictEnv(readonly))
  {
    hide ParseAll, Stream;
    forall n: int64 ensures StrictEnv(readonly).grammar(Itos(n)) == IntTree(n) {
      IntParses(n);
      assert !HasModUpdate(Const(n)) && !HasModUpdate(Const(Int64.Sub(0, n)));
    }
  }

  /** The trees of the precedence table alone are decided by the parser and the absence of an
      irregular assignment. */
  lemma TableGrammarExact(s: string, t: Tree)
    ensures Regular(ParseAll(Tokens(s))) == Some(t) <==>
              WellFormed(t) && !HasModUpdate(t) && Tokens(s) == Yield(t) + [Sym(End)]
  {
    hide ParseAll, Stream, WellFormed, Yield, HasModUpdate;
    GrammarExact(s, t);
  }

  // ---- what can be seen in the text ----

  /** An assignment operator behind an operand of "%", at position i. */
  predicate ModTarget(ts: seq<Token>, i: nat) {
    i + 2 < |ts| && ts[i] == Sym(Mod) && ts[i + 1].Id? && ts[i + 2].AssignOp?
  }

  ghost predicate HasTarget(ts: seq<Token>) { exists i :: ModTarget(ts, i) }

  /** A part of a sequence stays one of its parts. */
  lemma InFront(a: seq<Token>, b: seq<Token>)
    requires HasTarget(a)
    ensures HasTarget(a + b)
  {
    var i :| ModTarget(a, i);
    assert ModTarget(a + b, i);
  }

  lemma Behind(a: seq<Token>, b: seq<Token>)
    requires HasTarget(b)
    ensures HasTarget(a + b)
  {
    var i :| ModTarget(b, i);
    assert ModTarget(a + b, |a| + i);
  }

  /** The tokens of a tree with an irregular assignment show it. */
  lemma {:induction false} ModTargetShows(t: Tree)
    requires HasModUpdate(t)
    ensures HasTarget(Yield(t))
  {
    hide HasTarget;
    match t
    case Paren(e) => ModTargetShows(e); Behind([Sym(LPar)], Yield(e)); InFront([Sym(LPar)] + Yield(e), [Sym(RPar)]);
    case Unary(op, e) => ModTargetShows(e); Behind([Sym(op)], Yield(e));
    case Bin(op, l, r) => ShowsInBin(op, l, r);
    case Cond(c, a, b) => ShowsInCond(c, a, b);
    case Assign(x, e) => ModTargetShows(e); Behind([Id(x), Sym(Eq)], Yield(e));
    case Update(x, op, e) => ModTargetShows(e); Behind([Id(x), AssignOp(op)], Yield(e));
    case ModUpdate(l, x, op, e) =>
      TripleIs(x, op);
      Behind(Yield(l), [Sym(Mod), Id(x), AssignOp(op)]);
      InFront(Yield(l) + [Sym(Mod), Id(x), AssignOp(op)], Yield(e));
    case Cut(e) => ModTargetShows(e); InFront(Yield(e), [Bad(false)]);
    case Stray(e, x) => ModTargetShows(e); InFront(Yield(e), [Id(x)]);
  }

  lemma TripleIs(x: string, op: Kind)
    ensures HasTarget([Sym(Mod), Id(x), AssignOp(op)])
  {
    assert ModTarget([Sym(Mod), Id(x), AssignOp(op)], 0);
  }

  lemma {:induction false} ShowsInBin(op: Kind, l: Tree, r: Tree)
    requires HasModUpdate(l) || HasModUpdate(r)
    ensures HasTarget(Yield(Bin(op, l, r)))
    decreases Bin(op, l, r), 0
  {
    hide HasTarget;
    if HasModUpdate(l) {
      ModTargetShows(l);
      InFront(Yield(l), [Sym(op)]);
      InFront(Yield(l) + [Sym(op)], Yield(r));
    } else {
      ModTargetShows(r);
      Behind(Yield(l) + [Sym(op)], Yield(r));
    }
  }

  lemma {:induction false} ShowsInCond(c: Tree, a: Tree, b: Tree)
    requires HasModUpdate(c) || HasModUpdate(a) || HasModUpdate(b)
    ensures HasTarget(Yield(Cond(c, a, b)))
    decreases Cond(c, a, b), 0
  {
    hide HasTarget;
    var q, front := Yield(c) + [Sym(Ques)], Yield(c) + [Sym(Ques)] + Yield(a);
    if HasModUpdate(b) {
      ModTargetShows(b);
      Behind(front + [Sym(Col)], Yield(b));
      return;
    }
    if HasModUpdate(c) {
      ModTargetShows(c);
      InFront(Yield(c), [Sym(Ques)]);
      InFront(q, Yield(a));
    } else {
      ModTargetShows(a);
      Behind(q, Yield(a));
    }
    InFront(front, [Sym(Col)]);
    InFront(front + [Sym(Col)], Yield(b));
  }

  lemma HasModTarget(s: string, t: Tree)
    requires ParseAll(Tokens(s)) == Some(t) && HasModUpdate(t)
    ensures HasTarget(Tokens(s))
  {
    hide ParseAll, Stream, HasModUpdate, HasTarget, Yield;
    GrammarExact(s, t);
    ModTargetShows(t);
    InFront(Yield(t), [Sym(End)]);
  }

  /** The same outcome, but for what a rejected text leaves behind. */
  predicate Agree(o1: Outcome, o2: Outcome) { o1 == o2 || (o1.Error? && o2.Error?) }

  /** Where no assignment operator stands behind an operand of "%", the shell follows the
      precedence table: in acceptance and, for expressions, in value and store. */
  lemma NoModTarget(readonly: set<string>, s: string, vars: Store)
    requires IntStore(vars) && !HasTarget(Tokens(s))
    ensures var o1, o2 := EvalText(ShellEnv(readonly), s, vars, 0), EvalText(StrictEnv(readonly), s, vars, 0);
            if Blank(s) || ParseAll(Tokens(s)).Some? then o1 == o2 else o1.Error? && o2 == Error(vars)
  {
    hide Eval, Parse, TextTree, Stream, Blank, HasModUpdate, IntStore, HasTarget, Yield;
    assert Wanted(s);
    ShellReadsInts(readonly);
    StrictReadsInts(readonly);
    TextTreeIs(s);
    var p := ParseAll(Tokens(s));
    if p.Some? {
      if HasModUpdate(p.value) { HasModTarget(s, p.value); }
      GrammarIrrelevant(ShellEnv(readonly), StrictEnv(readonly), p.value, vars, 1);
    } else {
      BreakFails(ShellEnv(readonly), TextTree(Tokens(s)), vars, 1);
      StuckRun(StrictEnv(readonly), vars, 1, false);
    }
  }

  // ---- the guard ----

  /** The effect of l % x op= e where the guard holds: l is evaluated, and x becomes 0 op e. */
  function Repair(t: Tree): Tree {
    match t
    case Paren(e) => Paren(Repair(e))
    case Unary(op, e) => Unary(op, Repair(e))
    case Bin(op, l, r) => Bin(op, Repair(l), Repair(r))
    case Cond(c, a, b) => Cond(Repair(c), Repair(a), Repair(b))
    case Assign(x, e) => Assign(x, Repair(e))
    case Update(x, op, e) => Update(x, op, Repair(e))
    case ModUpdate(l, x, op, e) => Paren(RepairedUpdate(Repair(l), x, op, Repair(e)))
    case Cut(e) => Cut(Repair(e))
    case Stray(e, x) => Stray(Repair(e), x)
    case _ => t
  }

  function RepairedUpdate(l: Tree, x: string, op: Kind, e: Tree): Tree {
    Bin(Comma, Paren(l), Assign(x, Bin(op, Const(0), Paren(e))))
  }

  /** The operators of assignments in t are those that the lexer delivers. */
  predicate AssignsBy(t: Tree) {
    match t
    case Paren(e) => AssignsBy(e)
    case Unary(_, e) => AssignsBy(e)
    case Bin(_, l, r) => AssignsBy(l) && AssignsBy(r)
    case Cond(c, a, b) => AssignsBy(c) && AssignsBy(a) && AssignsBy(b)
    case Assign(_, e) => AssignsBy(e)
    case Update(_, op, e) => IsAssignable(op) && AssignsBy(e)
    case ModUpdate(l, _, op, e) => AssignsBy(l) && IsAssignable(op) && AssignsBy(e)
    case Cut(e) => AssignsBy(e)
    case Stray(e, _) => AssignsBy(e)
    case _ => true
  }

  /** The repaired tree is one of the precedence table. */
  lemma {:induction false} RepairRegular(t: Tree)
    ensures !HasModUpdate(Repair(t)) && Level(Repair(t)) >= Level(t)
    ensures WellFormed(t) && AssignsBy(t) ==> WellFormed(Repair(t))
  {
    match t
    case Paren(e) => RepairRegular(e);
    case Unary(_, e) => RepairRegular(e);
    case Bin(_, l, r) => RepairRegular(l); RepairRegular(r);
    case Cond(c, a, b) => RepairRegular(c); RepairRegular(a); RepairRegular(b);
    case Assign(_, e) => RepairRegular(e);
    case Update(_, _, e) => RepairRegular(e);
    case ModUpdate(l, x, op, e) =>
      RepairRegular(l);
      RepairRegular(e);
      UpdateRegular(Repair(l), x, op, Repair(e));
    case Cut(e) => RepairRegular(e);
    case Stray(e, _) => RepairRegular(e);
    case _ =>
  }

  /** What has no irregular assignment is left as it is. */
  lemma {:induction false} RepairSame(t: Tree)
    requires !HasModUpdate(t)
    ensures Repair(t) == t
  {
    match t
    case Paren(e) => RepairSame(e);
    case Unary(_, e) => RepairSame(e);
    case Bin(_, l, r) => RepairSame(l); RepairSame(r);
    case Cond(c, a, b) => RepairSame(c); RepairSame(a); RepairSame(b);
    case Assign(_, e) => RepairSame(e);
    case Update(_, _, e) => RepairSame(e);
    case Cut(e) => RepairSame(e);
    case Stray(e, _) => RepairSame(e);
    case _ =>
  }

  lemma RepairStops(t: Tree)
    ensures if HasModUpdate(t) then Stops(t) else Repair(t) == t
  {
    if !HasModUpdate(t) { RepairSame(t); }
  }

  lemma UpdateRegular(l: Tree, x: string, op: Kind, e: Tree)
    requires !HasModUpdate(l) && !HasModUpdate(e)
    ensures var t := RepairedUpdate(l, x, op, e);
            !HasModUpdate(t) && (WellFormed(l) && WellFormed(e) && IsAssignable(op) ==> WellFormed(t))
  {
    hide WellFormed, HasModUpdate, IsAssignable;
    var u := Bin(op, Const(0), Paren(e));
    Leaf();
    Enclosed(l);
    Enclosed(e);
    if IsAssignable(op) { AssignableLevel(op); }
    BinRegular(op, Const(0), Paren(e));
    AssignRegular(x, u);
    BinRegular(Comma, Paren(l), Assign(x, u));
  }

  lemma Leaf()
    ensures WellFormed(Const(0)) && !HasModUpdate(Const(0)) && Level(Const(0)) == PRIMARY
  {
  }

  lemma Enclosed(e: Tree)
    ensures WellFormed(Paren(e)) == WellFormed(e) && HasModUpdate(Paren(e)) == HasModUpdate(e)
            && Level(Paren(e)) == PRIMARY
  {
  }

  lemma AssignableLevel(op: Kind)
    requires IsAssignable(op)
    ensures 5 <= OpLevel(op) <= 12 && op != Power
  {
  }

  lemma BinRegular(op: Kind, l: Tree, r: Tree)
    ensures HasModUpdate(Bin(op, l, r)) == (HasModUpdate(l) || HasModUpdate(r)) && Level(Bin(op, l, r)) == OpLevel(op)
    ensures op != Power && OpLevel(op) < POWER && WellFormed(l) && WellFormed(r) && Level(l) >= OpLevel(op)
            && Level(r) > OpLevel(op)
            ==> WellFormed(Bin(op, l, r))
  {
  }

  lemma AssignRegular(x: string, e: Tree)
    ensures HasModUpdate(Assign(x, e)) == HasModUpdate(e) && Level(Assign(x, e)) == ASSIGNMENT
    ensures WellFormed(e) && Level(e) >= ASSIGNMENT ==> WellFormed(Assign(x, e))
  {
  }

  /** Every irregular assignment in t is reached with INTMAX_MIN on the left of the "%" and the
      text of -1 in the variable: the guard of expr.c:923, for each of them. */
  predicate Guarded(env: Env, t: Tree, vars: Store, depth: nat)
    requires depth <= MAX_EXPR_RECURSION_LEVEL
    decreases t
  {
    match t
    case Paren(e) => Guarded(env, e, vars, depth)
    case Unary(_, e) => Guarded(env, e, vars, depth)
    case Bin(op, l, r) =>
      Guarded(env, l, vars, depth) &&
      (var o := Eval(env, Repair(l), vars, depth);
       o.Ok? ==> if SkipsRight(op, o.value) then !HasModUpdate(r) else Guarded(env, r, o.vars, depth))
    case Cond(c, a, b) =>
      Guarded(env, c, vars, depth) &&
      (var o := Eval(env, Repair(c), vars, depth);
       o.Ok? ==>
         if o.value != 0 then Guarded(env, a, o.vars, depth) && !HasModUpdate(b)
         else !HasModUpdate(a) && Guarded(env, b, o.vars, depth))
    case Assign(_, e) => Guarded(env, e, vars, depth)
    case Update(_, _, e) => Guarded(env, e, vars, depth)
    case ModUpdate(l, x, op, e) =>
      Guarded(env, l, vars, depth) && IsAssignable(op) &&
      (var o := Eval(env, Repair(l), vars, depth);
       o.Ok? ==>
         o.value == INTMAX_MIN && x in o.vars && o.vars[x] == Itos(-1) && Guarded(env, e, o.vars, depth))
    case Cut(e) => Guarded(env, e, vars, depth)
    case Stray(e, _) => Guarded(env, e, vars, depth)
    case _ => true
  }

  /** o, the evaluation of a tree, is r, that of the repaired tree, if its guards hold, and a failure
      if not. */
  predicate AsRepaired(o: Outcome, guarded: bool, r: Outcome) {
    if guarded then o == r else o.Error?
  }

  /** A tree whose guards hold means what the repaired tree means, in value, store and failure; any
      other tree fails. */
  lemma {:induction false} RepairExact(env: Env, t: Tree, vars: Store, depth: nat)
    requires ReadsInts(env) && IntStore(vars) && depth < MAX_EXPR_RECURSION_LEVEL
    ensures AsRepaired(Eval(env, t, vars, depth), Guarded(env, t, vars, depth), Eval(env, Repair(t), vars, depth))
    decreases t
  {
    hide Eval, IntStore, Lookup, StoreUpdate, Apply, Combine;
    match t
    case Paren(e) =>
      RepairExact(env, e, vars, depth);
      ParenRun(e, env, vars, depth, false);
      ParenRun(Repair(e), env, vars, depth, false);
    case Unary(op, e) =>
      RepairExact(env, e, vars, depth);
      UnaryRun(op, e, env, vars, depth, false);
      UnaryRun(op, Repair(e), env, vars, depth, false);
    case Bin(op, l, r) =>
      RepairExact(env, l, vars, depth);
      OnlyAssignedChange(env, l, vars, depth);
      var o := Eval(env, l, vars, depth);
      if o.Ok? { RepairExact(env, r, o.vars, depth); }
      RepairBin(env, op, l, r, vars, depth);
    case Cond(c, a, b) =>
      RepairExact(env, c, vars, depth);
      OnlyAssignedChange(env, c, vars, depth);
      var o := Eval(env, c, vars, depth);
      if o.Ok? { RepairExact(env, if o.value != 0 then a else b, o.vars, depth); }
      RepairCond(env, c, a, b, vars, depth);
    case Assign(x, e) =>
      RepairExact(env, e, vars, depth);
      AssignEval(env, x, e, vars, depth);
      AssignEval(env, x, Repair(e), vars, depth);
    case Update(x, op, e) =>
      RepairExact(env, e, vars, depth);
      IntLookup(env, x, vars, depth);
      UpdateEval(env, x, op, e, vars, depth);
      UpdateEval(env, x, op, Repair(e), vars, depth);
    case ModUpdate(l, x, op, e) =>
      RepairExact(env, l, vars, depth);
      OnlyAssignedChange(env, l, vars, depth);
      var o := Eval(env, l, vars, depth);
      if o.Ok? {
        IntLookup(env, x, o.vars, depth);
        RepairExact(env, e, o.vars, depth);
      }
      RepairModUpdate(env, l, x, op, e, vars, depth);
    case Cut(e) =>
      RepairExact(env, e, vars, depth);
      CutRun(e, env, vars, depth, false);
      CutRun(Repair(e), env, vars, depth, false);
    case Stray(e, x) =>
      RepairExact(env, e, vars, depth);
      StrayRun(e, x, env, vars, depth, false);
      StrayRun(Repair(e), x, env, vars, depth, false);
    case _ =>
  }

  lemma AssignEval(env: Env, x: string, e: Tree, vars: Store, depth: nat)
    requires depth <= MAX_EXPR_RECURSION_LEVEL
    ensures var o := Eval(env, e, vars, depth);
            Eval(env, Assign(x, e), vars, depth) == if o.Error? then o else Bind(env, o.vars, x, o.value, o.value)
  {
    hide Lookup, Bind;
    var o := Eval(env, e, vars, depth);
    if o.Error? { assert Eval(env, Assign(x, e), vars, depth) == o; }
  }

  lemma RepairBin(env: Env, op: Kind, l: Tree, r: Tree, vars: Store, depth: nat)
    requires depth < MAX_EXPR_RECURSION_LEVEL
    requires AsRepaired(Eval(env, l, vars, depth), Guarded(env, l, vars, depth), Eval(env, Repair(l), vars, depth))
    requires var o := Eval(env, l, vars, depth);
             o.Ok? ==> AsRepaired(Eval(env, r, o.vars, depth), Guarded(env, r, o.vars, depth),
                 Eval(env, Repair(r), o.vars, depth))
    ensures var t := Bin(op, l, r);
            AsRepaired(Eval(env, t, vars, depth), Guarded(env, t, vars, depth), Eval(env, Repair(t), vars, depth))
  {
    hide Eval, Combine, HasModUpdate, Stops;
    var l' := Repair(l);
    RepairStops(r);
    if Eval(env, l, vars, depth).Ok? {
      var skips := SkipsRight(op, Eval(env, l, vars, depth).value);
      BinRun(op, l, r, env, vars, depth, false, skips);
      BinRun(op, l', Repair(r), env, vars, depth, false, skips);
    } else {
      BinStops(op, l, r, env, vars, depth, false);
      if Eval(env, l', vars, depth).Error? { BinStops(op, l', Repair(r), env, vars, depth, false); }
    }
  }

  lemma RepairCond(env: Env, c: Tree, a: Tree, b: Tree, vars: Store, depth: nat)
    requires depth < MAX_EXPR_RECURSION_LEVEL
    requires AsRepaired(Eval(env, c, vars, depth), Guarded(env, c, vars, depth), Eval(env, Repair(c), vars, depth))
    requires var o := Eval(env, c, vars, depth);
             o.Ok? ==>
               var u := if o.value != 0 then a else b;
               AsRepaired(Eval(env, u, o.vars, depth), Guarded(env, u, o.vars, depth),
                   Eval(env, Repair(u), o.vars, depth))
    ensures var t := Cond(c, a, b);
            AsRepaired(Eval(env, t, vars, depth), Guarded(env, t, vars, depth), Eval(env, Repair(t), vars, depth))
  {
    hide Eval, HasModUpdate, Stops;
    RepairStops(a);
    RepairStops(b);
    if Eval(env, c, vars, depth).Ok? {
      CondRun(c, a, b, env, vars, depth, false);
      CondRun(Repair(c), Repair(a), Repair(b), env, vars, depth, false);
    } else {
      CondStops(c, a, b, env, vars, depth, false);
      if Eval(env, Repair(c), vars, depth).Error? {
        CondStops(Repair(c), Repair(a), Repair(b), env, vars, depth, false);
      }
    }
  }

  lemma RepairModUpdate(env: Env, l: Tree, x: string, op: Kind, e: Tree, vars: Store, depth: nat)
    requires depth < MAX_EXPR_RECURSION_LEVEL
    requires AsRepaired(Eval(env, l, vars, depth), Guarded(env, l, vars, depth), Eval(env, Repair(l), vars, depth))
    requires var o := Eval(env, l, vars, depth);
             o.Ok? ==>
               && IntStore(o.vars)
               && AsRepaired(Eval(env, e, o.vars, depth), Guarded(env, e, o.vars, depth),
                   Eval(env, Repair(e), o.vars, depth))
               && Lookup(env, x, o.vars, depth).Ok? && Lookup(env, x, o.vars, depth).vars == o.vars
               && forall n: int64 :: x in o.vars && o.vars[x] == Itos(n) ==> Lookup(env, x, o.vars, depth).value == n
    ensures var t := ModUpdate(l, x, op, e);
            AsRepaired(Eval(env, t, vars, depth), Guarded(env, t, vars, depth), Eval(env, Repair(t), vars, depth))
  {
    hide Eval, Lookup, HasModUpdate, IntStore, Apply, Bind, RepairedUpdate;
    var t := ModUpdate(l, x, op, e);
    var o := Eval(env, l, vars, depth);
    var o' := Eval(env, Repair(l), vars, depth);
    ModUpdateEval(l, x, op, e, env, vars, depth);
    assert Repair(t) == Paren(RepairedUpdate(Repair(l), x, op, Repair(e)));
    if IsAssignable(op) { RepairedEval(env, Repair(l), x, op, Repair(e), vars, depth); }
    if o.Ok? {
      IsMinusOne(env, x, o.vars, depth);
    } else if Guarded(env, t, vars, depth) {
      assert o'.Error?;
    }
  }

  lemma IsMinusOne(env: Env, x: string, vars: Store, depth: nat)
    requires depth < MAX_EXPR_RECURSION_LEVEL && IntStore(vars)
    requires Lookup(env, x, vars, depth).Ok?
    requires forall n: int64 :: x in vars && vars[x] == Itos(n) ==> Lookup(env, x, vars, depth).value == n
    ensures Lookup(env, x, vars, depth).value == -1 <==> x in vars && vars[x] == Itos(-1)
  {
    hide EvalText;
    var minus: int64 := -1;
    assert x in vars && vars[x] == Itos(minus) ==> Lookup(env, x, vars, depth).value == minus;
    if x in vars {
      var n: int64 :| vars[x] == Itos(n);
      assert Lookup(env, x, vars, depth).value == n;
    }
  }

  /** (l), x = 0 op (e), from its parts. */
  lemma RepairedEval(env: Env, l: Tree, x: string, op: Kind, e: Tree, vars: Store, depth: nat)
    requires depth < MAX_EXPR_RECURSION_LEVEL && IsAssignable(op)
    ensures var o := Eval(env, l, vars, depth);
            Eval(env, Paren(RepairedUpdate(l, x, op, e)), vars, depth) ==
              if o.Error? then o
              else
                var u := Eval(env, e, o.vars, depth);
                if u.Error? then u else StoreUpdate(env, x, op, 0, u.value, u.vars)
  {
    hide Eval, StoreUpdate, IsAssignable;
    var o := Eval(env, l, vars, depth);
    var v := Assign(x, Bin(op, Const(0), Paren(e)));
    ParenRun(RepairedUpdate(l, x, op, e), env, vars, depth, false);
    ParenRun(l, env, vars, depth, false);
    if o.Ok? {
      BinRun(Comma, Paren(l), v, env, vars, depth, false, false);
      ZeroAssign(env, x, op, e, o.vars, depth);
    } else {
      BinStops(Comma, Paren(l), v, env, vars, depth, false);
    }
  }

  /** x = 0 op (e) is what an update of 0 would store. */
  lemma ZeroAssign(env: Env, x: string, op: Kind, e: Tree, vars: Store, depth: nat)
    requires depth < MAX_EXPR_RECURSION_LEVEL && IsAssignable(op)
    ensures var u := Eval(env, e, vars, depth);
            Eval(env, Assign(x, Bin(op, Const(0), Paren(e))), vars, depth) ==
              if u.Error? then u else StoreUpdate(env, x, op, 0, u.value, u.vars)
  {
    hide Eval, Combine, Bind, StoreUpdate, IsAssignable, SkipsRight;
    var u := Eval(env, e, vars, depth);
    AssignEval(env, x, Bin(op, Const(0), Paren(e)), vars, depth);
    ZeroEval(env, vars, depth);
    ParenRun(e, env, vars, depth, false);
    AssignableRuns(op);
    BinRun(op, Const(0), Paren(e), env, vars, depth, false, false);
    if u.Ok? { CombineStores(env, x, op, u.value, u.vars); }
  }

  lemma AssignableRuns(op: Kind)
    requires IsAssignable(op)
    ensures !SkipsRight(op, 0)
  {
  }

  lemma CombineStores(env: Env, x: string, op: Kind, b: int64, vars: Store)
    requires IsAssignable(op)
    ensures var c := Combine(op, 0, b, vars);
            StoreUpdate(env, x, op, 0, b, vars) == if c.Error? then c else Bind(env, c.vars, x, c.value, c.value)
  {
    hide Apply, Bind;
  }

  lemma ZeroEval(env: Env, vars: Store, depth: nat)
    requires depth <= MAX_EXPR_RECURSION_LEVEL
    ensures Eval(env, Const(0), vars, depth) == Ok(0, vars)
  {
  }

  /** s contains an irregular assignment, the guard of expr.c:923 holds at each of them, and the
      repaired expression succeeds by the precedence table. */
  predicate Irregular(readonly: set<string>, s: string, vars: Store) {
    !Blank(s) &&
    match ParseAll(Tokens(s))
    case None => false
    case Some(t) =>
      && HasModUpdate(t)
      && Guarded(StrictEnv(readonly), t, vars, 1)
      && Eval(StrictEnv(readonly), Repair(t), vars, 1).Ok?
  }

  /** Over stores of integers, the shell agrees with the precedence table exactly on the texts that
      are not Irregular. Those the table rejects. Wherever the guards hold, the shell evaluates the
      repaired tree by the table. */
  lemma TableExact(readonly: set<string>, s: string, vars: Store)
    requires IntStore(vars)
    ensures Agree(EvalText(ShellEnv(readonly), s, vars, 0), EvalText(StrictEnv(readonly), s, vars, 0))
            <==> !Irregular(readonly, s, vars)
    ensures Irregular(readonly, s, vars) ==> EvalText(StrictEnv(readonly), s, vars, 0).Error?
    ensures var p := ParseAll(Tokens(s));
            !Blank(s) && p.Some? && Guarded(StrictEnv(readonly), p.value, vars, 1) ==>
              EvalText(ShellEnv(readonly), s, vars, 0) == Eval(StrictEnv(readonly), Repair(p.value), vars, 1)
  {
    hide Eval, Parse, TextTree, ParseAll, Stream, Blank, HasModUpdate, IntStore, Guarded, Repair;
    assert Wanted(s);
    ShellReadsInts(readonly);
    StrictReadsInts(readonly);
    TextTreeIs(s);
    StuckRun(StrictEnv(readonly), vars, 1, false);
    var p := ParseAll(Tokens(s));
    if p.Some? {
      GrammarIrrelevant(ShellEnv(readonly), StrictEnv(readonly), p.value, vars, 1);
      RepairExact(StrictEnv(readonly), p.value, vars, 1);
    } else {
      BreakFails(ShellEnv(readonly), TextTree(Tokens(s)), vars, 1);
    }
  }

  // ---- an example ----

  lemma IrregularTail(s: string)
    requires s == "y%x+=5"
    ensures Stream(s, 3, false, AfterName) == [AssignOp(Plus), Lit(5), Sym(End)]
  {
    hide StrLong;
    assert s[5..] == Print(5, 10);
    NumberStream(s, 5, 5, Plain);
    assert LexOperator(s, 3, AfterName) == Lexed(AssignOp(Plus), 5);
    assert Lex(s, 3, AfterName) == Lexed(AssignOp(Plus), 5);
  }

  lemma IrregularHead(s: string)
    requires s == "y%x+=5"
    ensures Lex(s, 0, Plain) == Lexed(Id("y"), 1) && Lex(s, 1, AfterName) == Lexed(Sym(Mod), 2)
    ensures Lex(s, 2, Plain) == Lexed(Id("x"), 3) && !Blank(s)
  {
    hide StrLong;
    assert NameEnd(s, 1) == 1 && NameEnd(s, 0) == 1 && s[0..1] == "y";
    assert NameEnd(s, 3) == 3 && NameEnd(s, 2) == 3 && s[2..3] == "x";
    assert LexOperator(s, 1, AfterName) == Lexed(Sym(Mod), 2);
  }

  lemma IrregularTokens(s: string)
    requires s == "y%x+=5"
    ensures Tokens(s) == [Id("y"), Sym(Mod), Id("x"), AssignOp(Plus), Lit(5), Sym(End)] && !Blank(s)
  {
    hide Lex, Blank;
    IrregularTail(s);
    IrregularHead(s);
    assert Stream(s, 2, false, Plain) == [Id("x")] + Stream(s, 3, false, AfterName);
    assert Stream(s, 1, false, AfterName) == [Sym(Mod)] + Stream(s, 2, false, Plain);
    assert Tokens(s) == [Id("y")] + Stream(s, 1, false, AfterName);
  }

  lemma IrregularYield(t: Tree)
    requires t == ModUpdate(Var("y"), "x", Plus, Const(5))
    ensures WellFormed(t) && Yield(t) + [Sym(End)] == [Id("y"), Sym(Mod), Id("x"), AssignOp(Plus), Lit(5), Sym(End)]
  {
    assert WellFormed(t.left) && WellFormed(t.rhs) && Yield(t.left) == [Id("y")] && Yield(t.rhs) == [Lit(5)];
    assert Yield(t) == [Id("y")] + [Sym(Mod), Id("x"), AssignOp(Plus)] + [Lit(5)];
  }

  lemma IrregularParses(s: string, t: Tree)
    requires s == "y%x+=5" && t == ModUpdate(Var("y"), "x", Plus, Const(5))
    ensures ParseAll(Tokens(s)) == Some(t)
  {
    hide Stream, ParseAll, WellFormed, Yield;
    IrregularTokens(s);
    IrregularYield(t);
    YieldIsParsed(t);
  }

  lemma TreeDecides(s: string, t: Tree, vars: Store)
    requires ParseAll(Tokens(s)) == Some(t) && HasModUpdate(t) && !Blank(s)
    ensures EvalText(ShellEnv({}), s, vars, 0) == Eval(ShellEnv({}), t, vars, 1)
    ensures EvalText(StrictEnv({}), s, vars, 0).Error?
  {
    hide Stream, Parse, TextTree, ParseAll, Eval, Blank, HasModUpdate;
    assert Wanted(s);
    TextTreeIs(s);
    StuckRun(StrictEnv({}), vars, 1, false);
  }

  /** The irregularity is real: with y INTMAX_MIN and x -1, "y%x+=5" is accepted and sets x to 5. */
  lemma IrregularExists(s: string, vars: Store)
    requires s == "y%x+=5" && vars == map["x" := Itos(-1), "y" := Itos(INTMAX_MIN)]
    ensures EvalText(ShellEnv({}), s, vars, 0) == Ok(5, vars["x" := "5"])
    ensures EvalText(StrictEnv({}), s, vars, 0).Error?
  {
    hide Stream, ParseAll, Eval, Blank, Itos, HasModUpdate, EvalText;
    IrregularTokens(s);
    var t := ModUpdate(Var("y"), "x", Plus, Const(5));
    IrregularParses(s, t);
    IrregularTree();
    IrregularRuns(ShellEnv({}), vars);
    TreeDecides(s, t, vars);
  }

  lemma IrregularTree()
    ensures HasModUpdate(ModUpdate(Var("y"), "x", Plus, Const(5)))
  {
  }

  lemma IrregularRuns(env: Env, vars: Store)
    requires env == ShellEnv({}) && vars == map["x" := Itos(-1), "y" := Itos(INTMAX_MIN)]
    ensures Eval(env, ModUpdate(Var("y"), "x", Plus, Const(5)), vars, 1) == Ok(5, vars["x" := "5"])
  {
    hide Stream, ParseAll, Eval, Lookup, Itos, Apply;
    ShellReadsInts({});
    IntLookup(env, "x", vars, 1);
    IntLookup(env, "y", vars, 1);
    assert vars["x"] == Itos(-1) && vars["y"] == Itos(INTMAX_MIN);
    NameRun("y", Sym(End), env, vars, 1, false);
    ConstRun(5, env, vars, 1, false);
    ModUpdateEval(Var("y"), "x", Plus, Const(5), env, vars, 1);
    StoreFive(env, vars);
  }

  lemma StoreFive(env: Env, vars: Store)
    requires "x" !in env.readonly
    ensures StoreUpdate(env, "x", Plus, 0, 5, vars) == Ok(5, vars["x" := "5"])
  {
    assert Apply(Plus, 0, 5) == Some(5);
    assert Itos(5) == "5";
  }
}
