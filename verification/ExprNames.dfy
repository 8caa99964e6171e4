/** Names that name each other, and names that stand where an operator should be. */
module ExprNames {
  import opened CStrings
  import opened Int64
  import opened Literals
  import opened ExprLex
  import opened ExprGrammar
  import opened ExprSemantics
  import opened ExprRuns
  import opened ExprResults
  import ExprUnambiguous
  import opened ExprWords
  import opened ExprValues
  import ExprRejected

  /** What goes wrong at a name goes wrong on all levels. */
  lemma PassedUp(k: nat, ts: seq<Token>)
    requires |ts| > 0 && k < PRIMARY && ts[0].Id? && Parse(k + 1, ts).Astray?
    ensures Parse(k, ts) == Parse(k + 1, ts)
  {
    hide Follow, ParsePrimary, ParseLoop;
    if k == ASSIGNMENT {
      assert Parse(k, ts) == ParseAssign(ts);
    } else if k == CONDITIONAL {
      assert Parse(k, ts) == ParseCond(ts);
    } else if k == POWER {
      assert Parse(k, ts) == ParsePower(ts);
    } else if k == UNARY {
      assert Parse(k, ts) == ParseUnary(ts);
    } else {
      assert LoopLevel(k);
    }
  }

  /** A name behind a name does not fit anywhere, on no level. */
  lemma {:induction false} StrayParse(k: nat, x: string, y: string, rest: seq<Token>)
    requires k <= PRIMARY && rest == [Sym(End)]
    ensures Parse(k, [Id(x), Id(y)] + rest) == Astray(Stray(Var(x), y))
    decreases PRIMARY - k
  {
    var ts := [Id(x), Id(y)] + rest;
    assert ts[1..] == [Id(y)] + rest && ts[2..] == rest;
    if k == PRIMARY {
      assert ParsePrimary(ts) == Behind(Var(x), ts, false);
    } else {
      StrayParse(k + 1, x, y, rest);
      PassedUp(k, ts);
    }
  }

  /** The same with a "=" behind it: the second name is not looked up then. */
  lemma {:induction false} StrayTargetParse(k: nat, x: string, y: string, n: Token)
    requires k <= PRIMARY && n.Lit?
    ensures Parse(k, [Id(x), Id(y), Sym(Eq), n, Sym(End)]) == Astray(Var(x))
    decreases PRIMARY - k
  {
    var ts := [Id(x), Id(y), Sym(Eq), n, Sym(End)];
    assert ts[1..] == [Id(y), Sym(Eq), n, Sym(End)] && ts[2..] == [Sym(Eq), n, Sym(End)];
    if k == PRIMARY {
      assert ParsePrimary(ts) == Behind(Var(x), ts, false);
    } else {
      StrayTargetParse(k + 1, x, y, n);
      PassedUp(k, ts);
    }
  }

  /** The tokens of a text written with one blank between them. */
  lemma SpreadTokens(ts: seq<Token>, s: string)
    requires ts != [] && (forall t <- ts :: !t.Bad?) && AllWritable(ts, Plain, false) && Spread(ts) == s
    ensures Tokens(s) == ts + [Sym(End)] && !Blank(s)
  {
    hide Written, Fits, Spread, AllWritable, Stream;
    SpreadFits(ts);
    assert s[0..] == s;
    WrittenRead(s, 0, ts, Gaps(|ts|), Plain, false);
    NotBlank(s, ts, Gaps(|ts|));
  }

  /** A second name is looked up before it is rejected: what its value does to the store stays, just
      as if the names were joined by a comma. */
  lemma StrayName(s: string, readonly: set<string>, vars: Store)
    requires s == "x y"
    ensures EvalText(ShellEnv(readonly), s, vars, 0)
            == Error(EvalText(ShellEnv(readonly), Infix(Comma), vars, 0).vars)
  {
    hide EvalText, Eval, Lookup, Tokens, Blank, Yield, WellFormed, Nameable, Spread, Infix, Parse;
    var ts, env, t := [Id("x"), Id("y")], ShellEnv(readonly), Bin(Comma, Var("x"), Var("y"));
    TwoNames(s);
    InfixTree(Comma);
    TextRuns(t, Infix(Comma), readonly, vars);
    StrayParse(0, "x", "y", [Sym(End)]);
    TextIs(s, ts + [Sym(End)], readonly, vars);
    CutRun(Stray(Var("x"), "y"), env, vars, 1, false);
    StrayIsComma(env, vars);
  }

  /** The trees of both texts look x up first, and then y. */
  lemma StrayIsComma(env: Env, vars: Store)
    ensures Eval(env, Stray(Var("x"), "y"), vars, 1).vars == Eval(env, Bin(Comma, Var("x"), Var("y")), vars, 1).vars
  {
    hide Lookup;
    StrayRun(Var("x"), "y", env, vars, 1, false);
    if Eval(env, Var("x"), vars, 1).Ok? { BinRun(Comma, Var("x"), Var("y"), env, vars, 1, false, false); }
  }

  /** A text that is not blank is evaluated as its tokens are read. */
  lemma TextIs(s: string, ts: seq<Token>, readonly: set<string>, vars: Store)
    requires ts != [] && Tokens(s) == ts && !Blank(s)
    ensures EvalText(ShellEnv(readonly), s, vars, 0) == Eval(ShellEnv(readonly), TextTree(ts), vars, 1)
  {
    hide Eval, Tokens, Blank, TextTree;
    assert Wanted(s);
  }

  lemma TwoNames(s: string)
    requires s == "x y"
    ensures Tokens(s) == [Id("x"), Id("y")] + [Sym(End)] && !Blank(s)
  {
    hide Spread, Tokens, Blank;
    var t1 := [Id("y")] + [];
    SpreadStep(Id("y"), []);
    SpreadOn(Id("x"), t1, s);
    assert [Id("x")] + t1 == [Id("x"), Id("y")];
    SpreadTokens([Id("x"), Id("y")], s);
  }

  lemma NamesAndNumber(s: string)
    requires s == "x y = 5"
    ensures Tokens(s) == [Id("x"), Id("y"), Sym(Eq), Lit(5)] + [Sym(End)] && !Blank(s)
  {
    hide Spread, Tokens, Blank;
    var t1 := [Lit(5)] + [];
    SpreadStep(Lit(5), []);
    var t2 := [Sym(Eq)] + t1;
    SpreadOn(Sym(Eq), t1, "= 5");
    var t3 := [Id("y")] + t2;
    SpreadOn(Id("y"), t2, "y = 5");
    SpreadOn(Id("x"), t3, s);
    assert [Id("x")] + t3 == [Id("x"), Id("y"), Sym(Eq), Lit(5)];
    SpreadTokens([Id("x"), Id("y"), Sym(Eq), Lit(5)], s);
  }

  /** In front of a "=" it is not: the text is rejected with the store that reading x leaves. */
  lemma StrayTarget(s: string, readonly: set<string>, vars: Store)
    requires s == "x y = 5"
    ensures EvalText(ShellEnv(readonly), s, vars, 0) == Error(EvalText(ShellEnv(readonly), "x", vars, 0).vars)
  {
    hide EvalText, Eval, Lookup, Tokens, Blank, Spread, Parse;
    NamesAndNumber(s);
    StrayTargetParse(0, "x", "y", Lit(5));
    TextIs(s, [Id("x"), Id("y"), Sym(Eq), Lit(5)] + [Sym(End)], readonly, vars);
    CutRun(Var("x"), ShellEnv(readonly), vars, 1, false);
    NameTree("x", readonly, vars);
    assert [Id("x"), Id("y"), Sym(Eq), Lit(5)] + [Sym(End)] == [Id("x"), Id("y"), Sym(Eq), Lit(5), Sym(End)];
    NameEval(ShellEnv(readonly), vars, 1);
  }

  // ---- values that are names ----

  lemma NameRead(x: string, readonly: set<string>)
    requires ExprWords.IsName(x)
    ensures ShellEnv(readonly).grammar(x) == Var(x) && !Blank(x)
  {
    hide Stream, TextTree, ParseAll, Spread, Blank;
    var ts := [Id(x)] + [];
    SpreadStep(Id(x), []);
    SpreadTokens(ts, x);
    assert Yield(Var(x)) == ts;
    ExprUnambiguous.YieldIsParsed(Var(x));
    ParsedTree(ts + [Sym(End)]);
    assert Wanted(x);
  }

  lemma ParsedTree(ts: seq<Token>)
    requires |ts| > 0 && ParseAll(ts).Some?
    ensures TextTree(ts) == ParseAll(ts).value
  {
    hide Parse;
  }

  /** Each of the names holds the next one, and the last one holds n. */
  ghost predicate Chain(names: seq<string>, n: int64, vars: Store) {
    && names != [] && (forall x <- names :: ExprWords.IsName(x))
    && (forall i :: 0 <= i < |names| - 1 ==> names[i] in vars && vars[names[i]] == names[i + 1])
    && Has(vars, names[|names| - 1], n)
  }

  /** A chain of variables has the value at its end exactly if it has less than 1024 of them; a longer
      one is an error, and no evaluation changes anything. */
  lemma ValueChain(names: seq<string>, n: int64, readonly: set<string>, vars: Store)
    requires Chain(names, n, vars)
    ensures EvalText(ShellEnv(readonly), names[0], vars, 0) == if |names| < 1024 then Ok(n, vars) else Error(vars)
  {
    ChainFrom(names, n, readonly, vars, 0);
  }

  lemma {:induction false} ChainFrom(names: seq<string>, n: int64, readonly: set<string>, vars: Store, i: nat)
    requires Chain(names, n, vars) && i < |names| && i <= 1024
    ensures EvalText(ShellEnv(readonly), names[i], vars, i) == if |names| < 1024 then Ok(n, vars) else Error(vars)
    decreases |names| - i
  {
    hide Eval, ExprWords.IsName, Itos, ShellEnv, Blank;
    var env, x := ShellEnv(readonly), names[i];
    NameRead(x, readonly);
    if i < 1024 {
      VarEval(x, env, vars, i + 1);
      if i < |names| - 1 {
        ChainFrom(names, n, readonly, vars, i + 1);
      } else if i < 1023 {
        ShellReadsInts(readonly);
        StoredValueReadsBack(env, n, vars, i + 1);
      } else {
        NumberNotBlank(n);
      }
    }
  }

  lemma VarEval(x: string, env: Env, vars: Store, depth: nat)
    requires depth <= MAX_EXPR_RECURSION_LEVEL
    ensures Eval(env, Var(x), vars, depth) == Lookup(env, x, vars, depth)
  {
    hide Lookup;
  }

  lemma NumberNotBlank(n: int64)
    ensures !Blank(Itos(n))
  {
    IntParses(n);
  }
}
