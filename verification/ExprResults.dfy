/** What follows for bash/expr.c from the equivalence of its evaluator with parsing and then
    evaluating: integers stored by assignments are read back, only assigned names change, and the
    bits of its bitwise operators. */
module ExprResults {
  import opened CStrings
  import opened Int64
  import opened Literals
  import opened ExprLex
  import opened ExprGrammar
  import opened ExprUnambiguous
  import opened ExprSemantics
  import opened ExprRuns

  // ---- stored integers are read back ----

  lemma {:induction false} NumberRuns(s: string, i: nat)
    requires i <= |s| && forall j :: i <= j < |s| ==> IsDigit(s[j])
    ensures NumberEnd(s, i) == |s|
    decreases |s| - i
  {
    if i < |s| { NumberRuns(s, i + 1); }
  }

  /** A decimal number at the end of a text. */
  lemma NumberStream(s: string, i: nat, n: nat, ctx: Context)
    requires i <= |s| && s[i..] == Print(n, 10)
    ensures Stream(s, i, false, ctx) == [Lit(Wrap(n)), Sym(End)]
  {
    assert forall j :: i <= j < |s| ==> s[j] == s[i..][j - i] && s[j] in s[i..];
    assert IsDigit(At(s, i));
    NumberRuns(s, i);
    DecimalLiteral(n);
    assert SkipSpace(s, i) == i && s[i..|s|] == s[i..];
    assert Lex(s, i, ctx) == Lexed(Lit(Wrap(n)), |s|);
    assert SkipSpace(s, |s|) == |s|;
    assert Stream(s, |s|, false, Plain) == [Sym(End)];
  }

  function IntTree(n: int64): Tree {
    if n < 0 then Unary(Minus, Const(Int64.Sub(0, n))) else Const(n)
  }

  lemma NaturalTokens(n: nat)
    ensures Tokens(Print(n, 10)) == [Lit(Wrap(n)), Sym(End)] && !Blank(Print(n, 10))
  {
    hide Lex, StrLong;
    var s := Print(n, 10);
    assert s[0..] == s && s[0] in s;
    NumberStream(s, 0, n, Plain);
  }

  lemma NegativeTokens(n: nat)
    ensures Tokens("-" + Print(n, 10)) == [Sym(Minus), Lit(Wrap(n)), Sym(End)] && !Blank("-" + Print(n, 10))
  {
    hide StrLong, Lex;
    var s := "-" + Print(n, 10);
    assert s[1..] == Print(n, 10) && s[1] == Print(n, 10)[0] && Print(n, 10)[0] in Print(n, 10);
    NumberStream(s, 1, n, Plain);
    MinusLexed(s);
    assert Tokens(s) == [Sym(Minus)] + Stream(s, 1, false, Plain);
  }

  lemma MinusLexed(s: string)
    requires |s| >= 2 && s[0] == '-' && IsDigit(s[1])
    ensures Lex(s, 0, Plain) == Lexed(Sym(Minus), 1) && !Blank(s)
  {
    hide StrLong;
    assert SkipSpace(s, 0) == 0;
    assert LexOperator(s, 0, Plain) == Lexed(Sym(Minus), 1);
  }

  lemma IntParses(n: int64)
    ensures ParseAll(Tokens(Itos(n))) == Some(IntTree(n)) && !Blank(Itos(n))
    ensures TextTree(Tokens(Itos(n))) == IntTree(n)
  {
    hide Tokens, Parse, Blank;
    YieldIsParsed(IntTree(n));
    if n < 0 {
      NegativeTokens(-(n as int));
      assert Tokens(Itos(n)) == Yield(IntTree(n)) + [Sym(End)];
    } else {
      NaturalTokens(n);
      assert Tokens(Itos(n)) == Yield(IntTree(n)) + [Sym(End)];
    }
  }

  lemma IntEvaluates(env: Env, n: int64, vars: Store, depth: nat)
    requires depth <= MAX_EXPR_RECURSION_LEVEL
    ensures Eval(env, IntTree(n), vars, depth) == Ok(n, vars)
  {
    if n < 0 {
      var m := Int64.Sub(0, n);
      assert Eval(env, Const(m), vars, depth) == Ok(m, vars);
      assert Int64.Sub(0, m) == n;
    }
  }

  /** Grammars that read the decimal texts of integers as such. */
  ghost predicate ReadsInts(env: Env) {
    forall n: int64 :: env.grammar(Itos(n)) == IntTree(n)
  }

  /** The text that an assignment stores evaluates to the value it stored, without side effects,
      unless the nesting limit has been reached. INTMAX_MIN included, whose digits overflow. */
  lemma StoredValueReadsBack(env: Env, n: int64, vars: Store, depth: nat)
    requires ReadsInts(env) && depth < MAX_EXPR_RECURSION_LEVEL
    ensures EvalText(env, Itos(n), vars, depth) == Ok(n, vars)
  {
    hide Eval, ParseAll, TextTree, Stream, Blank, Itos, IntTree;
    IntParses(n);
    IntEvaluates(env, n, vars, depth + 1);
    assert env.grammar(Itos(n)) == IntTree(n);
  }

  lemma ShellReadsInts(readonly: set<string>)
    ensures ReadsInts(ShellEnv(readonly))
  {
    forall n: int64 ensures ShellEnv(readonly).grammar(Itos(n)) == IntTree(n) {
      IntParses(n);
      assert Wanted(Itos(n));
    }
  }

  // ---- stores of integers ----

  /** Every variable holds the decimal text of an integer. */
  ghost predicate IntStore(vars: Store) {
    forall x <- vars :: exists n: int64 :: vars[x] == Itos(n)
  }

  lemma IntLookup(env: Env, x: string, vars: Store, depth: nat)
    requires ReadsInts(env) && IntStore(vars) && depth < MAX_EXPR_RECURSION_LEVEL
    ensures Lookup(env, x, vars, depth).Ok? && Lookup(env, x, vars, depth).vars == vars
    ensures forall n: int64 :: x in vars && vars[x] == Itos(n) ==> Lookup(env, x, vars, depth).value == n
  {
    if x in vars {
      forall n: int64 | vars[x] == Itos(n) ensures Lookup(env, x, vars, depth) == Ok(n, vars) {
        StoredValueReadsBack(env, n, vars, depth);
      }
    }
  }

  /** The names that t may assign to. */
  function Assigned(t: Tree): set<string> {
    match t
    case Paren(e) => Assigned(e)
    case PreStep(_, x) => {x}
    case PostStep(x, _) => {x}
    case Unary(_, e) => Assigned(e)
    case Bin(_, l, r) => Assigned(l) + Assigned(r)
    case Cond(c, a, b) => Assigned(c) + Assigned(a) + Assigned(b)
    case Assign(x, e) => {x} + Assigned(e)
    case Update(x, _, e) => {x} + Assigned(e)
    case ModUpdate(l, x, _, e) => Assigned(l) + {x} + Assigned(e)
    case Cut(e) => Assigned(e)
    case Stray(e, _) => Assigned(e)
    case _ => {}
  }

  /** before and after differ at most in the given names. */
  predicate SameBut(before: Store, after: Store, names: set<string>) {
    before.Keys <= after.Keys && after.Keys <= before.Keys + names &&
    forall x <- before :: x !in names ==> after[x] == before[x]
  }

  /** o has left a store of integers that differs from the one before at most in the given names. */
  ghost predicate Kept(before: Store, o: Outcome, names: set<string>) {
    IntStore(o.vars) && SameBut(before, o.vars, names)
  }

  lemma BindKeeps(env: Env, vars: Store, x: string, v: int64, r: int64)
    requires IntStore(vars)
    ensures Kept(vars, Bind(env, vars, x, v, r), {x})
  {
  }

  lemma UpdateKeeps(env: Env, vars: Store, x: string, op: Kind, a: int64, b: int64)
    requires IntStore(vars)
    ensures Kept(vars, StoreUpdate(env, x, op, a, b, vars), {x})
  {
    hide Apply, Bind, IntStore, SameBut;
    SameStore(vars, {x});
    if IsAssignable(op) && Apply(op, a, b).Some? {
      BindKeeps(env, vars, x, Apply(op, a, b).value, Apply(op, a, b).value);
    }
  }

  lemma SameStore(vars: Store, names: set<string>)
    ensures SameBut(vars, vars, names)
  {
  }

  /** The store stayed as it was. */
  lemma KeptSame(o: Outcome, vars: Store, names: set<string>)
    requires IntStore(vars) && o.vars == vars
    ensures Kept(vars, o, names)
  {
    SameStore(vars, names);
  }

  lemma KeptMore(before: Store, o: Outcome, p: set<string>, q: set<string>)
    requires Kept(before, o, p) && p <= q
    ensures Kept(before, o, q)
  {
    hide IntStore;
  }

  /** First o1 and then o2. */
  lemma KeptTrans(before: Store, o1: Outcome, o2: Outcome, p: set<string>, q: set<string>, names: set<string>)
    requires o1.Ok? && Kept(before, o1, p) && Kept(o1.vars, o2, q) && p <= names && q <= names
    ensures Kept(before, o2, names)
  {
    hide IntStore;
  }

  /** What Eval does to a store of integers. */
  ghost predicate Tidy(t: Tree, before: Store, o: Outcome) { Kept(before, o, Assigned(t)) }

  /** A store of integers stays one, and only names that t assigns to can change, also where the
      evaluation fails: the store at the failure is then determined. */
  lemma {:induction false} OnlyAssignedChange(env: Env, t: Tree, vars: Store, depth: nat)
    requires ReadsInts(env) && IntStore(vars) && depth < MAX_EXPR_RECURSION_LEVEL
    ensures Tidy(t, vars, Eval(env, t, vars, depth))
    decreases t
  {
    hide Eval, Apply, StoreUpdate, Lookup, EvalText, IntStore, SameBut;
    match t
    case Const(_) => LeafTidy(env, t, vars, depth);
    case Target(_) => LeafTidy(env, t, vars, depth);
    case Var(x) => LeafTidy(env, t, vars, depth);
    case Paren(e) =>
      OnlyAssignedChange(env, e, vars, depth);
      ParenRun(e, env, vars, depth, false);
    case PreStep(k, x) => StepTidy(env, t, vars, depth);
    case PostStep(x, k) => StepTidy(env, t, vars, depth);
    case Unary(op, e) =>
      OnlyAssignedChange(env, e, vars, depth);
      UnaryRun(op, e, env, vars, depth, false);
    case Bin(op, l, r) =>
      OnlyAssignedChange(env, l, vars, depth);
      var o := Eval(env, l, vars, depth);
      if o.Ok? {
        OnlyAssignedChange(env, r, o.vars, depth);
        BinTidy(env, op, l, r, vars, depth);
      } else {
        BinStops(op, l, r, env, vars, depth, false);
        KeptMore(vars, o, Assigned(l), Assigned(t));
      }
    case Cond(c, a, b) =>
      OnlyAssignedChange(env, c, vars, depth);
      var o := Eval(env, c, vars, depth);
      if o.Ok? {
        OnlyAssignedChange(env, if o.value != 0 then a else b, o.vars, depth);
      }
      CondTidy(env, c, a, b, vars, depth);
    case Assign(x, e) =>
      OnlyAssignedChange(env, e, vars, depth);
      AssignTidy(env, x, e, vars, depth);
    case Update(x, op, e) =>
      IntLookup(env, x, vars, depth);
      OnlyAssignedChange(env, e, vars, depth);
      UpdateEval(env, x, op, e, vars, depth);
      UpdateTidy(env, x, op, Lookup(env, x, vars, depth).value, vars, Assigned(e), Eval(env, e, vars, depth),
          Assigned(t));
    case ModUpdate(l, x, op, e) =>
      OnlyAssignedChange(env, l, vars, depth);
      ModUpdateEval(l, x, op, e, env, vars, depth);
      var o := Eval(env, l, vars, depth);
      if o.Ok? {
        IntLookup(env, x, o.vars, depth);
        OnlyAssignedChange(env, e, o.vars, depth);
        ModUpdateTidy(env, l, x, op, e, vars, depth);
      } else {
        KeptMore(vars, o, Assigned(l), Assigned(t));
      }
    case Stuck => StuckRun(env, vars, depth, false); KeptSame(Eval(env, t, vars, depth), vars, {});
    case Cut(e) =>
      OnlyAssignedChange(env, e, vars, depth);
      CutRun(e, env, vars, depth, false);
      SameAfter(Eval(env, e, vars, depth), Eval(env, t, vars, depth), vars, Assigned(e));
    case Stray(e, x) =>
      OnlyAssignedChange(env, e, vars, depth);
      StrayRun(e, x, env, vars, depth, false);
      if Eval(env, e, vars, depth).Ok? { IntLookup(env, x, Eval(env, e, vars, depth).vars, depth); }
      SameAfter(Eval(env, e, vars, depth), Eval(env, t, vars, depth), vars, Assigned(e));
  }

  lemma LeafTidy(env: Env, t: Tree, vars: Store, depth: nat)
    requires t.Const? || t.Target? || t.Var?
    requires ReadsInts(env) && IntStore(vars) && depth < MAX_EXPR_RECURSION_LEVEL
    ensures Tidy(t, vars, Eval(env, t, vars, depth))
  {
    hide Lookup, EvalText, IntStore, Kept;
    if t.Var? { IntLookup(env, t.name, vars, depth); }
    KeptSame(Eval(env, t, vars, depth), vars, Assigned(t));
  }

  lemma StepTidy(env: Env, t: Tree, vars: Store, depth: nat)
    requires t.PreStep? || t.PostStep?
    requires ReadsInts(env) && IntStore(vars) && depth < MAX_EXPR_RECURSION_LEVEL
    ensures Tidy(t, vars, Eval(env, t, vars, depth))
  {
    hide Lookup, EvalText, Bind, IntStore, Kept;
    IntLookup(env, t.name, vars, depth);
    var v := Lookup(env, t.name, vars, depth).value;
    BindKeeps(env, vars, t.name, Stepped(t.kind, v), Stepped(t.kind, v));
    BindKeeps(env, vars, t.name, Stepped(t.kind, v), v);
  }

  lemma BinTidy(env: Env, op: Kind, l: Tree, r: Tree, vars: Store, depth: nat)
    requires depth < MAX_EXPR_RECURSION_LEVEL && Eval(env, l, vars, depth).Ok?
            && Tidy(l, vars, Eval(env, l, vars, depth))
    requires Tidy(r, Eval(env, l, vars, depth).vars, Eval(env, r, Eval(env, l, vars, depth).vars, depth))
    ensures Tidy(Bin(op, l, r), vars, Eval(env, Bin(op, l, r), vars, depth))
  {
    hide Eval, Apply, IntStore, SameBut;
    var o1 := Eval(env, l, vars, depth);
    var o := Eval(env, Bin(op, l, r), vars, depth);
    var skips := SkipsRight(op, o1.value);
    BinRun(op, l, r, env, vars, depth, false, skips);
    if skips { KeptSame(o, o1.vars, Assigned(r)); }
    else { SameAfter(Eval(env, r, o1.vars, depth), o, o1.vars, Assigned(r)); }
    KeptTrans(vars, o1, o, Assigned(l), Assigned(r), Assigned(Bin(op, l, r)));
  }

  lemma SameAfter(o: Outcome, o': Outcome, before: Store, names: set<string>)
    requires Kept(before, o, names) && o.vars == o'.vars
    ensures Kept(before, o', names)
  {
  }

  lemma CondTidy(env: Env, c: Tree, a: Tree, b: Tree, vars: Store, depth: nat)
    requires depth < MAX_EXPR_RECURSION_LEVEL && Tidy(c, vars, Eval(env, c, vars, depth))
    requires var o := Eval(env, c, vars, depth);
             o.Ok? ==>
               var branch := if o.value != 0 then a else b;
               Tidy(branch, o.vars, Eval(env, branch, o.vars, depth))
    ensures Tidy(Cond(c, a, b), vars, Eval(env, Cond(c, a, b), vars, depth))
  {
    hide Eval, IntStore, SameBut;
    var t := Cond(c, a, b);
    var o := Eval(env, c, vars, depth);
    if o.Ok? {
      var branch := if o.value != 0 then a else b;
      var o2 := Eval(env, branch, o.vars, depth);
      CondRun(c, a, b, env, vars, depth, false);
      CondEnds(o, o2, Eval(env, t, vars, depth), Assigned(branch));
      KeptTrans(vars, o, Eval(env, t, vars, depth), Assigned(c), Assigned(branch), Assigned(t));
    } else {
      CondStops(c, a, b, env, vars, depth, false);
      KeptMore(vars, o, Assigned(c), Assigned(t));
    }
  }

  lemma CondEnds(o: Outcome, o2: Outcome, u: Outcome, names: set<string>)
    requires o.Ok? && Kept(o.vars, o2, names) && IntStore(o.vars)
    requires u.vars == o.vars || u.vars == o2.vars
    ensures Kept(o.vars, u, names)
  {
    if u.vars == o.vars { KeptSame(u, o.vars, names); } else { SameAfter(o2, u, o.vars, names); }
  }

  lemma AssignTidy(env: Env, x: string, e: Tree, vars: Store, depth: nat)
    requires depth < MAX_EXPR_RECURSION_LEVEL && Tidy(e, vars, Eval(env, e, vars, depth))
    ensures Tidy(Assign(x, e), vars, Eval(env, Assign(x, e), vars, depth))
  {
    hide IntStore, SameBut, Lookup, Bind;
    var o := Eval(env, e, vars, depth);
    if o.Ok? {
      var u := Bind(env, o.vars, x, o.value, o.value);
      BindKeeps(env, o.vars, x, o.value, o.value);
      KeptTrans(vars, o, u, Assigned(e), {x}, Assigned(Assign(x, e)));
    } else {
      KeptMore(vars, o, Assigned(e), Assigned(Assign(x, e)));
    }
  }

  /** x op= e, from its parts, where looking x up has no effect. */
  lemma UpdateEval(env: Env, x: string, op: Kind, e: Tree, vars: Store, depth: nat)
    requires depth < MAX_EXPR_RECURSION_LEVEL && Lookup(env, x, vars, depth).Ok?
            && Lookup(env, x, vars, depth).vars == vars
    ensures var a := Lookup(env, x, vars, depth);
            var o := Eval(env, e, vars, depth);
            Eval(env, Update(x, op, e), vars, depth) ==
              if o.Error? then o else StoreUpdate(env, x, op, a.value, o.value, o.vars)
  {
    hide Lookup, StoreUpdate;
    var o := Eval(env, e, vars, depth);
    if o.Error? { assert Eval(env, Update(x, op, e), vars, depth) == o; }
  }

  lemma UpdateTidy(env: Env, x: string, op: Kind, a: int64, before: Store, p: set<string>, o: Outcome,
      names: set<string>)
    requires Kept(before, o, p) && p <= names && x in names
    ensures Kept(before, if o.Error? then o else StoreUpdate(env, x, op, a, o.value, o.vars), names)
  {
    hide StoreUpdate, SameBut;
    if o.Ok? {
      UpdateKeeps(env, o.vars, x, op, a, o.value);
      KeptTrans(before, o, StoreUpdate(env, x, op, a, o.value, o.vars), p, {x}, names);
    } else {
      KeptMore(before, o, p, names);
    }
  }

  lemma ModUpdateTidy(env: Env, l: Tree, x: string, op: Kind, e: Tree, vars: Store, depth: nat)
    requires depth < MAX_EXPR_RECURSION_LEVEL
    requires var o := Eval(env, l, vars, depth);
             o.Ok? && Tidy(l, vars, o) &&
             Lookup(env, x, o.vars, depth).Ok? && Lookup(env, x, o.vars, depth).vars == o.vars &&
             Tidy(e, o.vars, Eval(env, e, o.vars, depth))
    ensures Tidy(ModUpdate(l, x, op, e), vars, Eval(env, ModUpdate(l, x, op, e), vars, depth))
  {
    hide Eval, Lookup, StoreUpdate, IntStore, SameBut;
    var t := ModUpdate(l, x, op, e);
    var o := Eval(env, l, vars, depth);
    ModUpdateEval(l, x, op, e, env, vars, depth);
    var u, names := Eval(env, t, vars, depth), {x} + Assigned(e);
    if u.vars == o.vars {
      KeptSame(u, o.vars, names);
    } else {
      UpdateTidy(env, x, op, 0, o.vars, Assigned(e), Eval(env, e, o.vars, depth), names);
    }
    KeptTrans(vars, o, u, Assigned(l), names, Assigned(t));
  }

  // ---- the grammar of variable values ----

  /** Over stores of integers, evaluation does not depend on the grammar of variable values. */
  lemma {:induction false} GrammarIrrelevant(e1: Env, e2: Env, t: Tree, vars: Store, depth: nat)
    requires ReadsInts(e1) && ReadsInts(e2) && e1.readonly == e2.readonly
    requires IntStore(vars) && depth < MAX_EXPR_RECURSION_LEVEL
    ensures Eval(e1, t, vars, depth) == Eval(e2, t, vars, depth)
    decreases t
  {
    hide Lookup, EvalText, StoreUpdate, Combine, Apply, IntStore;
    OnlyAssignedChange(e1, t, vars, depth);
    match t
    case Const(_) =>
    case Target(_) =>
    case Var(x) => SameLookup(e1, e2, x, vars, depth);
    case Paren(e) => GrammarIrrelevant(e1, e2, e, vars, depth);
    case PreStep(_, x) => SameLookup(e1, e2, x, vars, depth);
    case PostStep(x, _) => SameLookup(e1, e2, x, vars, depth);
    case Unary(_, e) => GrammarIrrelevant(e1, e2, e, vars, depth);
    case Bin(op, l, r) =>
      GrammarIrrelevant(e1, e2, l, vars, depth);
      OnlyAssignedChange(e1, l, vars, depth);
      var o := Eval(e1, l, vars, depth);
      if o.Ok? { GrammarIrrelevant(e1, e2, r, o.vars, depth); }
      SameBin(e1, e2, op, l, r, vars, depth);
    case Cond(c, a, b) =>
      GrammarIrrelevant(e1, e2, c, vars, depth);
      OnlyAssignedChange(e1, c, vars, depth);
      var o := Eval(e1, c, vars, depth);
      if o.Ok? { GrammarIrrelevant(e1, e2, if o.value != 0 then a else b, o.vars, depth); }
    case Assign(_, e) => GrammarIrrelevant(e1, e2, e, vars, depth);
    case Update(x, op, e) =>
      SameLookup(e1, e2, x, vars, depth);
      GrammarIrrelevant(e1, e2, e, vars, depth);
      UpdateEval(e1, x, op, e, vars, depth);
      UpdateEval(e2, x, op, e, vars, depth);
      SameUpdate(e1, e2, x, op, Lookup(e1, x, vars, depth).value, Eval(e1, e, vars, depth));
    case ModUpdate(l, x, op, e) =>
      GrammarIrrelevant(e1, e2, l, vars, depth);
      OnlyAssignedChange(e1, l, vars, depth);
      var o := Eval(e1, l, vars, depth);
      if o.Ok? {
        SameLookup(e1, e2, x, o.vars, depth);
        GrammarIrrelevant(e1, e2, e, o.vars, depth);
        SameUpdate(e1, e2, x, op, 0, Eval(e1, e, o.vars, depth));
      }
      ModUpdateEval(l, x, op, e, e1, vars, depth);
      ModUpdateEval(l, x, op, e, e2, vars, depth);
    case Stuck =>
    case Cut(e) => GrammarIrrelevant(e1, e2, e, vars, depth);
    case Stray(e, x) =>
      GrammarIrrelevant(e1, e2, e, vars, depth);
      OnlyAssignedChange(e1, e, vars, depth);
      StrayRun(e, x, e1, vars, depth, false);
      StrayRun(e, x, e2, vars, depth, false);
      if Eval(e1, e, vars, depth).Ok? { SameLookup(e1, e2, x, Eval(e1, e, vars, depth).vars, depth); }
  }

  lemma SameLookup(e1: Env, e2: Env, x: string, vars: Store, depth: nat)
    requires ReadsInts(e1) && ReadsInts(e2) && IntStore(vars) && depth < MAX_EXPR_RECURSION_LEVEL
    ensures Lookup(e1, x, vars, depth) == Lookup(e2, x, vars, depth)
    ensures Lookup(e1, x, vars, depth).Ok? && Lookup(e1, x, vars, depth).vars == vars
  {
    IntLookup(e1, x, vars, depth);
    IntLookup(e2, x, vars, depth);
  }

  lemma SameUpdate(e1: Env, e2: Env, x: string, op: Kind, a: int64, o: Outcome)
    requires e1.readonly == e2.readonly
    ensures o.Ok? ==> StoreUpdate(e1, x, op, a, o.value, o.vars) == StoreUpdate(e2, x, op, a, o.value, o.vars)
  {
    hide Apply;
  }

  lemma SameBin(e1: Env, e2: Env, op: Kind, l: Tree, r: Tree, vars: Store, depth: nat)
    requires depth < MAX_EXPR_RECURSION_LEVEL
    requires var o := Eval(e1, l, vars, depth);
             o == Eval(e2, l, vars, depth) && (o.Ok? ==> Eval(e1, r, o.vars, depth) == Eval(e2, r, o.vars, depth))
    ensures Eval(e1, Bin(op, l, r), vars, depth) == Eval(e2, Bin(op, l, r), vars, depth)
  {
    hide Eval, Apply, Combine;
    var o := Eval(e1, l, vars, depth);
    if o.Ok? {
      BinRun(op, l, r, e1, vars, depth, false, SkipsRight(op, o.value));
      BinRun(op, l, r, e2, vars, depth, false, SkipsRight(op, o.value));
    } else {
      BinStops(op, l, r, e1, vars, depth, false);
      BinStops(op, l, r, e2, vars, depth, false);
    }
  }

  // ---- the bits of bitwise results ----

  /** Bit i of the two's complement representation of a. */
  predicate Bit(a: int, i: nat)
    decreases i
  {
    if i == 0 then a % 2 == 1 else Bit(a / 2, i - 1)
  }

  /** "&", "|" and "^" combine their operands bit by bit, the sign bit included. */
  lemma {:induction false} BitwiseBits(kind: BitKind, a: int, b: int, width: nat, i: nat)
    requires -Pow(2, width) <= a < Pow(2, width) && -Pow(2, width) <= b < Pow(2, width)
    ensures Bit(Bitwise(kind, a, b, width), i) == BitOf(kind, Bit(a, i), Bit(b, i))
    decreases i, width
  {
    if i > 0 {
      if width > 0 {
        BitwiseBits(kind, a / 2, b / 2, width - 1, i - 1);
      } else {
        SignBits(a, i);
        SignBits(b, i);
        SignBits(Bitwise(kind, a, b, 0), i);
      }
    }
  }

  lemma {:induction false} SignBits(a: int, i: nat)
    requires -1 <= a <= 0
    ensures Bit(a, i) <==> a == -1
  {
    if i > 0 { SignBits(a / 2, i - 1); }
  }

  lemma Bits64Bits(kind: BitKind, a: int64, b: int64, i: nat)
    ensures Bit(Bits64(kind, a, b), i) == BitOf(kind, Bit(a, i), Bit(b, i))
  {
    PowTwo63();
    BitwiseBits(kind, a, b, 63, i);
  }
}
