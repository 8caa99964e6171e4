/** What the operators of arithmetic expressions compute, from the text to the value and the store. */
module ExprValues {
  import opened CStrings
  import opened Int64
  import opened Literals
  import opened ExprLex
  import opened ExprGrammar
  import opened ExprSemantics
  import opened ExprRuns
  import opened ExprResults
  import opened ExprWords
  import ExprRejected

  // ---- texts ----

  /** The tokens with one blank between them. */
  function Spread(ts: seq<Token>): string {
    if ts == [] then "" else if |ts| == 1 then Spelled(ts[0]) else Spelled(ts[0]) + " " + Spread(ts[1..])
  }

  function Gaps(n: nat): (gaps: seq<string>)
    ensures |gaps| == n
  {
    if n == 0 then [] else if n == 1 then [""] else [" "] + Gaps(n - 1)
  }

  lemma {:induction false} SpreadFits(ts: seq<Token>)
    requires forall t <- ts :: !t.Bad?
    ensures Written(ts, Gaps(|ts|)) == Spread(ts) && Fits(ts, Gaps(|ts|))
    decreases |ts|
  {
    hide Spelled, Ends, Blanks;
    if ts != [] {
      var gaps := Gaps(|ts|);
      OneBlank();
      EndOfText(ts[0]);
      assert forall t <- ts[1..] :: t in ts;
      SpreadFits(ts[1..]);
      if |ts| == 1 {
        assert ts[1..] == [] && gaps[1..] == [] && "" + Written([], []) == "";
        assert Spelled(ts[0]) + "" == Spelled(ts[0]);
      } else {
        assert gaps[1..] == Gaps(|ts| - 1) && gaps[0] == " ";
        assert Spelled(ts[0]) + (" " + Spread(ts[1..])) == Spelled(ts[0]) + " " + Spread(ts[1..]);
      }
    }
  }

  lemma OneBlank()
    ensures Blanks("") && Blanks(" ")
  {
  }

  lemma EndOfText(t: Token)
    ensures !t.Bad? ==> Ends(t, '\0')
  {
  }

  /** The text of a tree evaluates as the tree. */
  lemma TextRuns(t: Tree, s: string, readonly: set<string>, vars: Store)
    requires WellFormed(t) && Nameable(t) && Spread(Yield(t)) == s
    ensures EvalText(ShellEnv(readonly), s, vars, 0) == Eval(ShellEnv(readonly), t, vars, 1)
  {
    hide Written, Fits, Yield, Spread, EvalText, Eval, WellFormed, Nameable;
    YieldGood(t);
    SpreadFits(Yield(t));
    PrintedTree(t, Gaps(|Yield(t)|), readonly, vars);
  }

  lemma {:induction false} YieldGood(t: Tree)
    requires WellFormed(t)
    ensures forall k <- Yield(t) :: !k.Bad?
    decreases t
  {
    hide Level, OpLevel;
    match t
    case Paren(e) => YieldGood(e);
    case Unary(_, e) => YieldGood(e);
    case Bin(_, l, r) =>
      YieldGood(l);
      YieldGood(r);
    case Cond(c, a, b) =>
      YieldGood(c);
      YieldGood(a);
      YieldGood(b);
    case Assign(_, e) => YieldGood(e);
    case Update(_, _, e) => YieldGood(e);
    case ModUpdate(l, _, _, e) =>
      YieldGood(l);
      YieldGood(e);
    case _ =>
  }

  lemma SpreadStep(t: Token, ts: seq<Token>)
    ensures Spread([t] + ts) == if ts == [] then Spelled(t) else Spelled(t) + " " + Spread(ts)
  {
    assert ([t] + ts)[1..] == ts;
  }

  /** The text s gives v, and leaves the store alone. */
  ghost predicate Gives(readonly: set<string>, s: string, vars: Store, v: int64) {
    EvalText(ShellEnv(readonly), s, vars, 0) == Ok(v, vars)
  }

  ghost predicate Fails(readonly: set<string>, s: string, vars: Store) {
    EvalText(ShellEnv(readonly), s, vars, 0) == Error(vars)
  }

  // ---- binary operators ----

  /** x op y */
  function Infix(op: Kind): string { "x " + Spelling(op) + " y" }

  /** Binary operators that always evaluate both sides. */
  predicate IsStrict(op: Kind) {
    op == Comma || op == BOr || op == BXor || op == BAnd || op == EqEq || op == Neq || op == Leq || op == Geq ||
    op == Lt || op == Gt || op == LSh || op == RSh || op == Plus || op == Minus || op == ExprLex.Mul || op == Div ||
    op == Mod || op == Power
  }

  /** x holds a, and y holds b. */
  predicate Holding(vars: Store, a: int64, b: int64) {
    "x" in vars && "y" in vars && vars["x"] == Itos(a) && vars["y"] == Itos(b)
  }

  /** The value of the text, by the operator on values. */
  lemma InfixRuns(op: Kind, a: int64, b: int64, readonly: set<string>, vars: Store)
    requires IsStrict(op) && Holding(vars, a, b)
    ensures EvalText(ShellEnv(readonly), Infix(op), vars, 0) == Combine(op, a, b, vars)
  {
    hide Yield, WellFormed, Nameable, Spelling, Infix, EvalText, Combine, Eval, Itos, Lookup, Spread;
    var t, env := Bin(op, Var("x"), Var("y")), ShellEnv(readonly);
    InfixTree(op);
    TextRuns(t, Infix(op), readonly, vars);
    Operand(readonly, "x", a, vars);
    Operand(readonly, "y", b, vars);
    hide ShellEnv, IsStrict;
    BinRun(op, Var("x"), Var("y"), env, vars, 1, false, false);
  }

  lemma InfixTree(op: Kind)
    requires IsStrict(op)
    ensures var t := Bin(op, Var("x"), Var("y")); WellFormed(t) && Nameable(t) && Spread(Yield(t)) == Infix(op)
  {
    hide Spelling, Spread, Infix;
    assert Yield(Bin(op, Var("x"), Var("y"))) == [Id("x"), Sym(op), Id("y")];
    InfixText(op);
  }

  lemma InfixText(op: Kind)
    ensures Spread([Id("x"), Sym(op), Id("y")]) == Infix(op)
  {
    hide Spelling, Spread;
    SpreadStep(Id("y"), []);
    var t1 := [Id("y")] + [];
    SpreadOn(Sym(op), t1, Spelling(op) + " y");
    var t2 := [Sym(op)] + t1;
    SpreadOn(Id("x"), t2, Infix(op));
    assert [Id("x")] + t2 == [Id("x"), Sym(op), Id("y")];
  }

  /** A variable that holds an integer. */
  lemma Operand(readonly: set<string>, x: string, a: int64, vars: Store)
    requires x in vars && vars[x] == Itos(a)
    ensures Eval(ShellEnv(readonly), Var(x), vars, 1) == Ok(a, vars)
    ensures Lookup(ShellEnv(readonly), x, vars, 1) == Ok(a, vars)
  {
    hide Itos;
    ShellReadsInts(readonly);
    StoredValueReadsBack(ShellEnv(readonly), a, vars, 1);
  }

  /** m and n are equal modulo 2^64. */
  predicate Congruent(m: int, n: int) { (m - n) % 0x1_0000_0000_0000_0000 == 0 }

  /** 2^k. */
  function TwoTo(k: nat): (n: nat)
    ensures n > 0
  {
    if k == 0 then 1 else 2 * TwoTo(k - 1)
  }

  /** b multiplied n times. */
  function PowerOf(b: int, n: nat): int { if n == 0 then 1 else PowerOf(b, n - 1) * b }

  lemma {:induction false} PowIsPower(b: int, n: nat)
    ensures Pow(b, n) == PowerOf(b, n)
  {
    if n > 0 {
      PowIsPower(b, n - 1);
      assert b * PowerOf(b, n - 1) == PowerOf(b, n - 1) * b;
    }
  }

  lemma {:induction false} PowIsTwoTo(k: nat)
    ensures Pow(2, k) == TwoTo(k)
  {
    if k > 0 { PowIsTwoTo(k - 1); }
  }

  /** Where the operator gives v for the values. */
  lemma InfixGives(op: Kind, a: int64, b: int64, v: int64, readonly: set<string>, vars: Store)
    requires IsStrict(op) && Holding(vars, a, b) && Combine(op, a, b, vars) == Ok(v, vars)
    ensures Gives(readonly, Infix(op), vars, v)
  {
    hide EvalText, Itos, Holding, Infix, Combine, IsStrict;
    InfixRuns(op, a, b, readonly, vars);
  }

  lemma InfixFails(op: Kind, a: int64, b: int64, readonly: set<string>, vars: Store)
    requires IsStrict(op) && Holding(vars, a, b) && Combine(op, a, b, vars) == Error(vars)
    ensures Fails(readonly, Infix(op), vars)
  {
    hide EvalText, Itos, Holding, Infix, Combine, IsStrict;
    InfixRuns(op, a, b, readonly, vars);
  }

  /** "+", "-" and "*" are exact modulo 2^64. */
  lemma RingOperators(op: Kind, a: int64, b: int64, readonly: set<string>, vars: Store) returns (v: int64)
    requires Holding(vars, a, b) && (op == Plus || op == Minus || op == ExprLex.Mul)
    ensures Gives(readonly, Infix(op), vars, v)
    ensures Congruent(v, if op == Plus then a + b else if op == Minus then a - b else a * b)
  {
    hide Gives, Holding, Infix;
    v := if op == Plus then Int64.Add(a, b) else if op == Minus then Int64.Sub(a, b) else Int64.Mul(a, b);
    InfixGives(op, a, b, v, readonly, vars);
  }

  function Size(n: int): nat { if n < 0 then -n else n }

  /** "/" and "%": division by zero is an error; otherwise the quotient is cut off toward zero, and the
      remainder has the sign of the dividend; INTMAX_MIN by -1 gives INTMAX_MIN and 0. */
  lemma Division(a: int64, b: int64, readonly: set<string>, vars: Store) returns (q: int64, r: int64)
    requires Holding(vars, a, b)
    ensures b == 0 ==> Fails(readonly, Infix(Div), vars) && Fails(readonly, Infix(Mod), vars)
    ensures b != 0 ==> Gives(readonly, Infix(Div), vars, q) && Gives(readonly, Infix(Mod), vars, r)
    ensures b != 0 && !(a == INTMAX_MIN && b == -1)
      ==> a == q * b + r && Size(r) < Size(b) && (r == 0 || (r < 0) == (a < 0))
    ensures a == INTMAX_MIN && b == -1 ==> q == INTMAX_MIN && r == 0
  {
    hide Gives, Fails, Wrap, Holding, Infix, TruncDiv, TruncMod;
    if b == 0 {
      q, r := 0, 0;
      InfixFails(Div, a, b, readonly, vars);
      InfixFails(Mod, a, b, readonly, vars);
    } else {
      q, r := Wrap(TruncDiv(a, b)), Wrap(TruncMod(a, b));
      Truncation(a, b);
      InfixGives(Div, a, b, q, readonly, vars);
      InfixGives(Mod, a, b, r, readonly, vars);
    }
  }

  lemma Truncation(a: int64, b: int64)
    requires b != 0
    ensures var q, r := Wrap(TruncDiv(a, b)), Wrap(TruncMod(a, b));
            if a == INTMAX_MIN && b == -1 then q == INTMAX_MIN && r == 0
            else a == q * b + r && Size(r) < Size(b) && (r == 0 || (r < 0) == (a < 0))
  {
    hide Wrap;
    var m := Size(a);
    var k: int, l: int := m / b, m % b;
    Quotient(m, b);
    if a < 0 {
      MulNegative(b, k);
      assert TruncDiv(a, b) == -k && TruncMod(a, b) == a - b * -k == -l;
      assert -k * b == b * -k;
    } else {
      assert TruncDiv(a, b) == k && TruncMod(a, b) == a - b * k == l;
      assert k * b == b * k;
    }
    if b == -1 {
      assert k == -m;
    } else if b != 1 && m > 0 {
      assert Size(k) < m;
    }
  }

  lemma MulNegative(b: int, k: int)
    ensures b * -k == -(b * k)
  {
  }

  /** Euclidean division. */
  lemma Quotient(m: nat, b: int)
    requires b != 0
    ensures var k, l := m / b, m % b;
            && m == b * k + l && 0 <= l < Size(b) && Size(k) <= m
            && (b == 1 ==> k == m) && (b == -1 ==> k + m == 0) && (Size(b) > 1 && m > 0 ==> Size(k) < m)
  {
    var k: int, l: int := m / b, m % b;
    if b > 0 {
      Factor(b, k);
    } else {
      Factor(-b, -k);
      MulNegatives(b, k);
    }
  }

  lemma MulNegatives(b: int, k: int)
    ensures (-b) * (-k) == b * k
  {
  }

  lemma Factor(b: nat, k: int)
    requires b > 0
    ensures k > 0 ==> b * k >= k && b * k >= b && (b > 1 ==> b * k > k)
    ensures k < 0 ==> b * k <= -(b as int)
  {
    if k > 0 { FactorUp(b, k); } else if k < 0 { FactorDown(b, k); }
  }

  lemma FactorUp(b: int, k: int)
    requires b > 0 && k > 0
    ensures b * k >= k && b * k >= b && (b > 1 ==> b * k > k)
  {
    assert b * k == (b - 1) * k + k;
    assert b * k == b * (k - 1) + b;
  }

  lemma FactorDown(b: int, k: int)
    requires b > 0 && k < 0
    ensures b * k + b <= 0
  {
    FactorUp(b, -k);
    MulNegative(b, k);
  }

  /** "<<" multiplies by a power of two modulo 2^64; ">>" divides by one and rounds down, the sign is kept. */
  lemma Shifts(a: int64, b: int64, readonly: set<string>, vars: Store) returns (l: int64, r: int64)
    requires Holding(vars, a, b)
    ensures Gives(readonly, Infix(LSh), vars, l) && Gives(readonly, Infix(RSh), vars, r)
    ensures var p := TwoTo(b % 64); Congruent(l, a * p) && r * p <= a < r * p + p
  {
    hide Gives, Holding, Infix, Wrap, TwoTo;
    var k := b % 64;
    PowIsTwoTo(k);
    l, r := ShiftLeft(a, b), ShiftRight(a, b);
    InfixGives(LSh, a, b, l, readonly, vars);
    InfixGives(RSh, a, b, r, readonly, vars);
    Floor(a, TwoTo(k));
  }

  lemma Floor(a: int, p: nat)
    requires p > 0
    ensures a / p * p <= a < a / p * p + p
  {
    assert a == p * (a / p) + a % p && p * (a / p) == a / p * p;
  }

  /** "&", "|" and "^" work bit by bit, and so does "~", which is also -1 minus its operand. */
  lemma BitOperators(op: Kind, a: int64, b: int64, readonly: set<string>, vars: Store) returns (v: int64)
    requires Holding(vars, a, b) && (op == BAnd || op == BOr || op == BXor)
    ensures Gives(readonly, Infix(op), vars, v)
    ensures forall i: nat ::
              Bit(v, i) == if op == BAnd then Bit(a, i) && Bit(b, i)
                           else if op == BOr then Bit(a, i) || Bit(b, i)
                           else Bit(a, i) != Bit(b, i)
  {
    hide Gives, Holding, Infix, Bit, Bits64;
    var kind := if op == BAnd then BitKind.And else if op == BOr then BitKind.Or else BitKind.Xor;
    v := Bits64(kind, a, b);
    InfixGives(op, a, b, v, readonly, vars);
    forall i: nat ensures Bit(v, i) == BitOf(kind, Bit(a, i), Bit(b, i)) { Bits64Bits(kind, a, b, i); }
  }

  /** Comparisons give 1 or 0. */
  lemma Comparisons(op: Kind, a: int64, b: int64, readonly: set<string>, vars: Store)
    requires Holding(vars, a, b)
    requires op == EqEq || op == Neq || op == Lt || op == Gt || op == Leq || op == Geq
    ensures var holds := if op == EqEq then a == b else if op == Neq then a != b else if op == Lt then a < b
                         else if op == Gt then a > b else if op == Leq then a <= b else a >= b;
            Gives(readonly, Infix(op), vars, if holds then 1 else 0)
  {
    hide Gives, Holding, Infix;
    var holds := if op == EqEq then a == b else if op == Neq then a != b else if op == Lt then a < b
                 else if op == Gt then a > b else if op == Leq then a <= b else a >= b;
    InfixGives(op, a, b, if holds then 1 else 0, readonly, vars);
  }

  /** "**" is the power modulo 2^64; a negative exponent is an error. */
  lemma Powers(a: int64, b: int64, readonly: set<string>, vars: Store) returns (v: int64)
    requires Holding(vars, a, b)
    ensures if b < 0 then Fails(readonly, Infix(Power), vars)
            else Gives(readonly, Infix(Power), vars, v) && Congruent(v, PowerOf(a, b))
  {
    hide Gives, Fails, Holding, Infix, Wrap;
    v := 0;
    if b < 0 {
      InfixFails(Power, a, b, readonly, vars);
    } else {
      PowIsPower(a, b);
      v := Wrap(Pow(a, b));
      InfixGives(Power, a, b, v, readonly, vars);
    }
  }

  /** The comma drops its left value. */
  lemma Commas(a: int64, b: int64, readonly: set<string>, vars: Store)
    requires Holding(vars, a, b)
    ensures Gives(readonly, Infix(Comma), vars, b)
  {
    InfixGives(Comma, a, b, b, readonly, vars);
  }

  // ---- operators on one side ----

  predicate Has(vars: Store, x: string, a: int64) { x in vars && vars[x] == Itos(a) }

  predicate IsPrefix(op: Kind) { op == Minus || op == Plus || op == Not || op == BNot }

  /** op x */
  function Prefix(op: Kind): string { Spelling(op) + " x" }

  lemma PrefixRuns(op: Kind, a: int64, readonly: set<string>, vars: Store)
    requires Has(vars, "x", a) && IsPrefix(op)
    ensures Gives(readonly, Prefix(op), vars, ApplyUnary(op, a))
  {
    hide Spread, Yield, WellFormed, Nameable, EvalText, Lookup, Spelling, ApplyUnary, Prefix, Itos, ShellEnv;
    var t := Unary(op, Var("x"));
    PrefixTree(op);
    TextRuns(t, Prefix(op), readonly, vars);
    Operand(readonly, "x", a, vars);
    UnaryOk(op, a, ShellEnv(readonly), vars);
  }

  lemma UnaryOk(op: Kind, a: int64, env: Env, vars: Store)
    requires Eval(env, Var("x"), vars, 1) == Ok(a, vars)
    ensures Eval(env, Unary(op, Var("x")), vars, 1) == Ok(ApplyUnary(op, a), vars)
  {
    hide ApplyUnary;
  }

  lemma PrefixTree(op: Kind)
    requires IsPrefix(op)
    ensures var t := Unary(op, Var("x")); WellFormed(t) && Nameable(t) && Spread(Yield(t)) == Prefix(op)
  {
    hide Spelling, Spread;
    assert Yield(Unary(op, Var("x"))) == [Sym(op)] + ([Id("x")] + []);
    SpreadStep(Id("x"), []);
    SpreadStep(Sym(op), [Id("x")] + []);
  }

  /** "-" negates modulo 2^64, "+" does nothing, "!" asks for 0, and "~" is -1 minus its operand. */
  lemma Prefixes(a: int64, readonly: set<string>, vars: Store) returns (v: int64)
    requires Has(vars, "x", a)
    ensures Gives(readonly, Prefix(Minus), vars, v) && Congruent(v, 0 - a)
    ensures Gives(readonly, Prefix(Plus), vars, a)
    ensures Gives(readonly, Prefix(Not), vars, if a == 0 then 1 else 0)
    ensures Gives(readonly, Prefix(BNot), vars, -1 - a)
  {
    hide Has, Gives, Prefix, Wrap;
    v := Int64.Sub(0, a);
    PrefixRuns(Minus, a, readonly, vars);
    PrefixRuns(Plus, a, readonly, vars);
    PrefixRuns(Not, a, readonly, vars);
    PrefixRuns(BNot, a, readonly, vars);
  }

  /** "~" inverts every bit. */
  lemma {:induction false} Complement(a: int, i: nat)
    ensures Bit(-1 - a, i) != Bit(a, i)
    decreases i
  {
    if i > 0 {
      assert (-1 - a) / 2 == -1 - a / 2;
      Complement(a / 2, i - 1);
    }
  }

  predicate IsAnyStep(k: Kind) { k == PreInc || k == PreDec || k == PostInc || k == PostDec }

  predicate InFront(k: Kind) { k == PreInc || k == PreDec }

  /** ++x, --x, x++ or x-- */
  function StepText(k: Kind): string {
    if k == PreInc then "++x" else if k == PreDec then "--x" else if k == PostInc then "x++" else "x--"
  }

  /** "++x" and "--x" give the new value, "x++" and "x--" the old one; x is bound to the new value, and if
      it is readonly that is an error. */
  lemma Steps(k: Kind, a: int64, readonly: set<string>, vars: Store) returns (n: int64)
    requires Has(vars, "x", a) && IsAnyStep(k)
    ensures Congruent(n, if k == PreInc || k == PostInc then a + 1 else a - 1)
    ensures EvalText(ShellEnv(readonly), StepText(k), vars, 0) ==
              if "x" in readonly then Error(vars) else Ok(if InFront(k) then n else a, vars["x" := Itos(n)])
  {
    hide EvalText, Stepped, StepText, Has, Bind, ShellEnv, Itos;
    n := Stepped(k, a);
    SteppedIs(k, a);
    StepRuns(k, a, readonly, vars);
    BindIs(readonly, vars, "x", n, if InFront(k) then n else a);
  }

  lemma SteppedIs(k: Kind, a: int64)
    requires IsAnyStep(k)
    ensures Congruent(Stepped(k, a), if k == PreInc || k == PostInc then a + 1 else a - 1)
  {
  }

  lemma BindIs(readonly: set<string>, vars: Store, x: string, v: int64, r: int64)
    ensures Bind(ShellEnv(readonly), vars, x, v, r) ==
              if x in readonly then Error(vars) else Ok(r, vars[x := Itos(v)])
  {
  }

  lemma StepRuns(k: Kind, a: int64, readonly: set<string>, vars: Store)
    requires Has(vars, "x", a) && IsAnyStep(k)
    ensures EvalText(ShellEnv(readonly), StepText(k), vars, 0) ==
              Bind(ShellEnv(readonly), vars, "x", Stepped(k, a), if InFront(k) then Stepped(k, a) else a)
  {
    hide Itos, EvalText, Lookup, Written, Fits, Stepped, StepText, WellFormed, Nameable, Yield, Eval, Bind, ShellEnv;
    var t := if InFront(k) then PreStep(k, "x") else PostStep("x", k);
    StepTree(k);
    PrintedTree(t, ["", ""], readonly, vars);
    Operand(readonly, "x", a, vars);
    StepEval(k, a, ShellEnv(readonly), vars);
  }

  lemma StepEval(k: Kind, a: int64, env: Env, vars: Store)
    requires Lookup(env, "x", vars, 1) == Ok(a, vars)
    ensures Eval(env, if InFront(k) then PreStep(k, "x") else PostStep("x", k), vars, 1) ==
              Bind(env, vars, "x", Stepped(k, a), if InFront(k) then Stepped(k, a) else a)
  {
    hide Stepped, Bind, Lookup;
  }

  lemma StepTree(k: Kind)
    requires IsAnyStep(k)
    ensures var t := if InFront(k) then PreStep(k, "x") else PostStep("x", k);
            && WellFormed(t) && Nameable(t) && |Yield(t)| == 2
            && Fits(Yield(t), ["", ""]) && Written(Yield(t), ["", ""]) == StepText(k)
  {
    hide Fits, Written;
    var op, x := Sym(k), Id("x");
    NothingText();
    if InFront(k) {
      TwoWords(op, x);
      assert [op, x] == Yield(PreStep(k, "x"));
    } else {
      TwoWords(x, op);
      assert [x, op] == Yield(PostStep("x", k));
    }
  }

  lemma TwoWords(t: Token, u: Token)
    requires !u.Bad? && Ends(t, At(Spelled(u), 0))
    ensures Written([t, u], ["", ""]) == Spelled(t) + Spelled(u) && Fits([t, u], ["", ""])
  {
    hide Spelled, Ends;
    NothingText();
    EndOfText(u);
    WordText(u, [], "", []);
    WordText(t, [u] + [], "", [""] + []);
    assert [t, u] == [t] + ([u] + []) && ["", ""] == [""] + ([""] + []);
    assert "" + "" == "" && Spelled(u) + "" == Spelled(u) && "" + Spelled(u) == Spelled(u);
  }

  lemma NothingText()
    ensures Written([], []) == "" && Fits([], []) && Blanks("")
  {
  }

  /** One token, its gap, and the rest. */
  lemma WordText(t: Token, ts: seq<Token>, g: string, gaps: seq<string>)
    requires |ts| == |gaps|
    ensures Written([t] + ts, [g] + gaps) == Spelled(t) + (g + Written(ts, gaps))
    ensures Fits([t] + ts, [g] + gaps)
            == (Blanks(g) && (g != "" || Ends(t, At(Written(ts, gaps), 0))) && Fits(ts, gaps))
  {
    hide Spelled, Ends, Blanks;
    assert ([t] + ts)[1..] == ts && ([g] + gaps)[1..] == gaps;
  }

  // ---- assignments ----

  /** x = y */
  lemma Assignments(b: int64, s: string, readonly: set<string>, vars: Store)
    requires s == "x = y" && Has(vars, "y", b)
    ensures EvalText(ShellEnv(readonly), s, vars, 0) ==
              if "x" in readonly then Error(vars) else Ok(b, vars["x" := Itos(b)])
  {
    hide EvalText, Lookup, Itos, ShellEnv, Bind, Spread, Yield, WellFormed, Nameable, Has;
    var t := Assign("x", Var("y"));
    AssignTree(s);
    TextRuns(t, s, readonly, vars);
    Variable(readonly, "y", b, vars);
    BindIs(readonly, vars, "x", b, b);
    AssignIs(t, b, ShellEnv(readonly), vars);
  }

  lemma Variable(readonly: set<string>, x: string, a: int64, vars: Store)
    requires Has(vars, x, a)
    ensures Eval(ShellEnv(readonly), Var(x), vars, 1) == Ok(a, vars)
    ensures Lookup(ShellEnv(readonly), x, vars, 1) == Ok(a, vars)
  {
    hide Itos, Eval, Lookup, ShellEnv;
    Operand(readonly, x, a, vars);
  }

  lemma AssignIs(t: Tree, b: int64, env: Env, vars: Store)
    requires t == Assign("x", Var("y")) && Eval(env, Var("y"), vars, 1) == Ok(b, vars)
    ensures Eval(env, t, vars, 1) == Bind(env, vars, "x", b, b)
  {
    hide Bind, Lookup;
  }

  lemma AssignTree(s: string)
    requires s == "x = y"
    ensures var t := Assign("x", Var("y")); WellFormed(t) && Nameable(t) && Spread(Yield(t)) == s
  {
    hide Spread;
    assert Yield(Assign("x", Var("y"))) == [Id("x")] + ([Sym(Eq)] + ([Id("y")] + []));
    SpreadStep(Id("y"), []);
    SpreadStep(Sym(Eq), [Id("y")] + []);
    SpreadStep(Id("x"), [Sym(Eq)] + ([Id("y")] + []));
    assert "x" + " " + ("=" + " " + "y") == s;
  }

  /** x op= y is x = x op y, for every operator that can be assigned with, errors included. */
  lemma Updates(op: Kind, a: int64, b: int64, readonly: set<string>, vars: Store)
    requires Holding(vars, a, b) && OfAssignment(op)
    ensures EvalText(ShellEnv(readonly), "x " + Spelling(op) + "= y", vars, 0) ==
              match EvalText(ShellEnv(readonly), Infix(op), vars, 0)
              case Error(after) => Error(after)
              case Ok(v, after) => if "x" in readonly then Error(vars) else Ok(v, vars["x" := Itos(v)])
  {
    hide EvalText, Lookup, Itos, ShellEnv, Bind, Spread, Yield, WellFormed, Nameable, Holding, Spelling, Infix, Apply;
    var t, s := Update("x", op, Var("y")), "x " + Spelling(op) + "= y";
    UpdateTree(op, s);
    TextRuns(t, s, readonly, vars);
    HoldingHas(vars, a, b);
    Variable(readonly, "x", a, vars);
    Variable(readonly, "y", b, vars);
    InfixRuns(op, a, b, readonly, vars);
    UpdateEval(ShellEnv(readonly), "x", op, Var("y"), vars, 1);
    Updated(op, a, b, ShellEnv(readonly), vars);
    if Apply(op, a, b).Some? { BindIs(readonly, vars, "x", Apply(op, a, b).value, Apply(op, a, b).value); }
  }

  lemma HoldingHas(vars: Store, a: int64, b: int64)
    requires Holding(vars, a, b)
    ensures Has(vars, "x", a) && Has(vars, "y", b)
  {
  }

  lemma Updated(op: Kind, a: int64, b: int64, env: Env, vars: Store)
    requires OfAssignment(op)
    ensures StoreUpdate(env, "x", op, a, b, vars) ==
              match Apply(op, a, b) case None => Error(vars) case Some(v) => Bind(env, vars, "x", v, v)
    ensures Combine(op, a, b, vars) == match Apply(op, a, b) case None => Error(vars) case Some(v) => Ok(v, vars)
  {
    hide Apply, Bind;
  }

  lemma UpdateTree(op: Kind, s: string)
    requires OfAssignment(op) && s == "x " + Spelling(op) + "= y"
    ensures var t := Update("x", op, Var("y")); WellFormed(t) && Nameable(t) && Spread(Yield(t)) == s
  {
    hide Spread, Spelling;
    assert Yield(Update("x", op, Var("y"))) == [Id("x")] + ([AssignOp(op)] + ([Id("y")] + []));
    SpreadStep(Id("y"), []);
    SpreadStep(AssignOp(op), [Id("y")] + []);
    SpreadStep(Id("x"), [AssignOp(op)] + ([Id("y")] + []));
    assert "x" + " " + (Spelling(op) + "=" + " " + "y") == s;
  }

  // ---- operators that evaluate only one side ----

  /** y++ as an operand. */
  function Bump(x: string): Tree { PostStep(x, PostInc) }

  /** The store behind y++. */
  ghost predicate Bumped(vars: Store, x: string, b: int64, after: Store) {
    exists n: int64 :: Congruent(n, b + 1) && after == vars[x := Itos(n)]
  }

  lemma BumpRuns(readonly: set<string>, x: string, b: int64, vars: Store) returns (after: Store)
    requires Has(vars, x, b) && x !in readonly
    ensures Eval(ShellEnv(readonly), Bump(x), vars, 1) == Ok(b, after) && Bumped(vars, x, b, after)
  {
    hide Itos, Lookup, ShellEnv, Has, Bind;
    Variable(readonly, x, b, vars);
    var n := Stepped(PostInc, b);
    SteppedIs(PostInc, b);
    BindIs(readonly, vars, x, n, b);
    after := vars[x := Itos(n)];
    BumpIs(x, b, ShellEnv(readonly), vars);
  }

  lemma BumpIs(x: string, b: int64, env: Env, vars: Store)
    requires Lookup(env, x, vars, 1) == Ok(b, vars)
    ensures Eval(env, Bump(x), vars, 1) == Bind(env, vars, x, Stepped(PostInc, b), b)
  {
    hide Bind, Lookup, Stepped;
  }

  /** "&&" and "||": the right side is evaluated only if the left one does not decide; the value is 1 or 0. */
  lemma Connectives(op: Kind, a: int64, b: int64, s: string, readonly: set<string>, vars: Store) returns (after: Store)
    requires Holding(vars, a, b) && "y" !in readonly && (op == LAnd || op == LOr)
    requires s == "x " + Spelling(op) + " y ++"
    ensures var decided := if op == LAnd then a == 0 else a != 0;
            EvalText(ShellEnv(readonly), s, vars, 0) ==
              if decided then Ok(if op == LAnd then 0 else 1, vars) else Ok(if b != 0 then 1 else 0, after)
    ensures Bumped(vars, "y", b, after)
  {
    hide EvalText, Lookup, Itos, ShellEnv, Spread, Yield, WellFormed, Nameable, Holding, Spelling, Eval, Bumped, Has;
    var t, env := Bin(op, Var("x"), Bump("y")), ShellEnv(readonly);
    HoldingHas(vars, a, b);
    Variable(readonly, "x", a, vars);
    after := BumpRuns(readonly, "y", b, vars);
    ConnectiveTree(op, s);
    TextRuns(t, s, readonly, vars);
    ConnectiveIs(op, a, b, env, vars, after);
  }

  lemma ConnectiveIs(op: Kind, a: int64, b: int64, env: Env, vars: Store, after: Store)
    requires op == LAnd || op == LOr
    requires Eval(env, Var("x"), vars, 1) == Ok(a, vars) && Eval(env, Bump("y"), vars, 1) == Ok(b, after)
    ensures var decided := if op == LAnd then a == 0 else a != 0;
            Eval(env, Bin(op, Var("x"), Bump("y")), vars, 1) ==
              if decided then Ok(if op == LAnd then 0 else 1, vars) else Ok(if b != 0 then 1 else 0, after)
  {
    hide Lookup, Bind;
  }

  lemma ConnectiveTree(op: Kind, s: string)
    requires (op == LAnd || op == LOr) && s == "x " + Spelling(op) + " y ++"
    ensures var t := Bin(op, Var("x"), Bump("y")); WellFormed(t) && Nameable(t) && Spread(Yield(t)) == s
  {
    hide Spread, Spelling;
    assert Yield(Bin(op, Var("x"), Bump("y"))) == [Id("x"), Sym(op), Id("y"), Sym(PostInc)];
    ConnectiveText(op, s);
  }

  lemma ConnectiveText(op: Kind, s: string)
    requires s == "x " + Spelling(op) + " y ++"
    ensures Spread([Id("x"), Sym(op), Id("y"), Sym(PostInc)]) == s
  {
    hide Spread, Spelling;
    StepsSpelled();
    SpreadStep(Sym(PostInc), []);
    var t1 := [Sym(PostInc)] + [];
    SpreadOn(Id("y"), t1, "y ++");
    var t2 := [Id("y")] + t1;
    SpreadOn(Sym(op), t2, Spelling(op) + " y ++");
    var t3 := [Sym(op)] + t2;
    SpreadOn(Id("x"), t3, s);
    assert [Id("x")] + t3 == [Id("x"), Sym(op), Id("y"), Sym(PostInc)];
  }

  lemma StepsSpelled()
    ensures Spelled(Sym(PostInc)) == "++" && Spelled(Sym(Ques)) == "?" && Spelled(Sym(Col)) == ":"
  {
  }

  /** "?:": exactly one of the branches is evaluated, by whether the test is 0. */
  lemma Conditionals(a: int64, b: int64, c: int64, s: string, readonly: set<string>, vars: Store) returns (after: Store)
    requires Holding(vars, a, b) && Has(vars, "z", c) && "y" !in readonly && "z" !in readonly
    requires s == "x ? y ++ : z ++"
    ensures EvalText(ShellEnv(readonly), s, vars, 0) == Ok(if a != 0 then b else c, after)
    ensures if a != 0 then Bumped(vars, "y", b, after) else Bumped(vars, "z", c, after)
  {
    hide EvalText, Lookup, Itos, ShellEnv, Spread, Yield, WellFormed, Nameable, Holding, Spelling, Eval, Bumped, Has;
    var t, env := Cond(Var("x"), Bump("y"), Bump("z")), ShellEnv(readonly);
    HoldingHas(vars, a, b);
    Variable(readonly, "x", a, vars);
    var y := BumpRuns(readonly, "y", b, vars);
    var z := BumpRuns(readonly, "z", c, vars);
    after := if a != 0 then y else z;
    ConditionalTree(s);
    TextRuns(t, s, readonly, vars);
    ConditionalIs(a, b, c, env, vars, y, z);
  }

  lemma ConditionalIs(a: int64, b: int64, c: int64, env: Env, vars: Store, y: Store, z: Store)
    requires Eval(env, Var("x"), vars, 1) == Ok(a, vars)
    requires Eval(env, Bump("y"), vars, 1) == Ok(b, y) && Eval(env, Bump("z"), vars, 1) == Ok(c, z)
    ensures Eval(env, Cond(Var("x"), Bump("y"), Bump("z")), vars, 1) == if a != 0 then Ok(b, y) else Ok(c, z)
  {
    hide Lookup, Bind;
  }

  lemma ConditionalTree(s: string)
    requires s == "x ? y ++ : z ++"
    ensures var t := Cond(Var("x"), Bump("y"), Bump("z")); WellFormed(t) && Nameable(t) && Spread(Yield(t)) == s
  {
    hide Spread, Spelling;
    assert Yield(Cond(Var("x"), Bump("y"), Bump("z")))
        == [Id("x"), Sym(Ques), Id("y"), Sym(PostInc), Sym(Col), Id("z"), Sym(PostInc)];
    ConditionalText(s);
  }

  lemma ConditionalText(s: string)
    requires s == "x ? y ++ : z ++"
    ensures Spread([Id("x"), Sym(Ques), Id("y"), Sym(PostInc), Sym(Col), Id("z"), Sym(PostInc)]) == s
  {
    hide Spread, Spelling;
    StepsSpelled();
    var t5 := BranchesText();
    SpreadOn(Sym(Ques), t5, "? y ++ : z ++");
    var t6 := [Sym(Ques)] + t5;
    SpreadOn(Id("x"), t6, s);
    assert [Id("x")] + t6 == [Id("x"), Sym(Ques), Id("y"), Sym(PostInc), Sym(Col), Id("z"), Sym(PostInc)];
  }

  lemma BranchesText() returns (t5: seq<Token>)
    ensures t5 == [Id("y"), Sym(PostInc), Sym(Col), Id("z"), Sym(PostInc)] && Spread(t5) == "y ++ : z ++"
  {
    hide Spread, Spelling;
    StepsSpelled();
    var t3 := BranchText();
    SpreadOn(Sym(PostInc), t3, "++ : z ++");
    var t4 := [Sym(PostInc)] + t3;
    SpreadOn(Id("y"), t4, "y ++ : z ++");
    t5 := [Id("y")] + t4;
  }

  lemma BranchText() returns (t3: seq<Token>)
    ensures t3 == [Sym(Col), Id("z"), Sym(PostInc)] && Spread(t3) == ": z ++"
  {
    hide Spread, Spelling;
    StepsSpelled();
    SpreadStep(Sym(PostInc), []);
    var t1 := [Sym(PostInc)] + [];
    SpreadOn(Id("z"), t1, "z ++");
    var t2 := [Id("z")] + t1;
    SpreadOn(Sym(Col), t2, ": z ++");
    t3 := [Sym(Col)] + t2;
  }

  lemma SpreadOn(t: Token, ts: seq<Token>, s: string)
    requires ts != [] && Spelled(t) + " " + Spread(ts) == s
    ensures Spread([t] + ts) == s
  {
    hide Spelled, Spread;
    SpreadStep(t, ts);
  }

  // ---- texts without operators ----

  /** A text of blanks is 0. */
  lemma {:induction false} BlankSkipped(s: string, i: nat)
    requires i <= |s| && Blanks(s)
    ensures SkipSpace(s, i) == |s|
    decreases |s| - i
  {
    if i < |s| {
      assert s[i] in s;
      BlankSkipped(s, i + 1);
    }
  }

  lemma BlankTexts(s: string, readonly: set<string>, vars: Store)
    requires Blanks(s)
    ensures Gives(readonly, s, vars, 0)
  {
    hide ShellEnv, SkipSpace;
    BlankSkipped(s, 0);
  }

  /** A name alone, and in parentheses. */
  lemma NameTree(s: string, readonly: set<string>, vars: Store)
    requires s == "x" || s == "( x )"
    ensures EvalText(ShellEnv(readonly), s, vars, 0) == Lookup(ShellEnv(readonly), "x", vars, 1)
  {
    hide Spread, Spelling, EvalText, Lookup, ShellEnv;
    if s == "x" {
      var t := Var("x");
      SpreadStep(Id("x"), []);
      assert Yield(t) == [Id("x")] + [];
      TextRuns(t, s, readonly, vars);
    } else {
      var t := Paren(Var("x"));
      ParenText(s);
      assert Yield(t) == [Sym(LPar), Id("x"), Sym(RPar)];
      TextRuns(t, s, readonly, vars);
    }
  }

  lemma ParenText(s: string)
    requires s == "( x )"
    ensures Spread([Sym(LPar), Id("x"), Sym(RPar)]) == s
  {
    hide Spread;
    SpreadStep(Sym(RPar), []);
    var t1 := [Sym(RPar)] + [];
    SpreadOn(Id("x"), t1, "x )");
    var t2 := [Id("x")] + t1;
    SpreadOn(Sym(LPar), t2, s);
    assert [Sym(LPar)] + t2 == [Sym(LPar), Id("x"), Sym(RPar)];
  }

  /** A variable has the value of what it holds; one that is not set is 0. */
  lemma Names(a: int64, s: string, readonly: set<string>, vars: Store)
    requires s == "x" || s == "( x )"
    ensures Has(vars, "x", a) ==> Gives(readonly, s, vars, a)
    ensures "x" !in vars ==> Gives(readonly, s, vars, 0)
  {
    hide EvalText, ShellEnv, Eval, Has;
    NameTree(s, readonly, vars);
    if Has(vars, "x", a) { Variable(readonly, "x", a, vars); }
  }

  /** A variable that holds its own name is an error and not an endless evaluation. */
  lemma SelfReference(s: string, readonly: set<string>, vars: Store)
    requires s == "x" && "x" in vars && vars["x"] == s
    ensures Fails(readonly, s, vars)
  {
    hide EvalText, ShellEnv, Eval, Lookup;
    NameTree(s, readonly, vars);
    NamePlain(s);
    SelfFails(s, readonly, vars, 1);
  }

  lemma NamePlain(s: string)
    requires s == "x"
    ensures !Blank(s)
  {
  }

  lemma {:induction false} SelfFails(s: string, readonly: set<string>, vars: Store, depth: nat)
    requires s == "x" && "x" in vars && vars["x"] == s && !Blank(s) && depth <= MAX_EXPR_RECURSION_LEVEL
    ensures Lookup(ShellEnv(readonly), "x", vars, depth) == Error(vars)
    decreases MAX_EXPR_RECURSION_LEVEL - depth
  {
    hide ShellEnv, Blank, Eval;
    if depth < MAX_EXPR_RECURSION_LEVEL {
      SelfFails(s, readonly, vars, depth + 1);
      NameGrammar(s, readonly);
      NameEval(ShellEnv(readonly), vars, depth + 1);
    }
  }

  lemma NameEval(env: Env, vars: Store, depth: nat)
    requires depth <= MAX_EXPR_RECURSION_LEVEL
    ensures Eval(env, Var("x"), vars, depth) == Lookup(env, "x", vars, depth)
  {
    hide Lookup;
  }

  lemma NameGrammar(s: string, readonly: set<string>)
    requires s == "x"
    ensures ShellEnv(readonly).grammar(s) == Var("x")
  {
    hide Written, Fits, Yield, Spread, ParseAll, Stream, TextTree;
    var t := Var("x");
    assert Yield(t) == [Id("x")] + [] && |Yield(t)| == 1 by { NameYield(); }
    SpreadStep(Id("x"), []);
    YieldGood(t);
    SpreadFits(Yield(t));
    TreeOfText(t, s);
    assert Wanted(s);
  }

  lemma NameYield()
    ensures Yield(Var("x")) == [Id("x")] + []
  {
  }

  lemma TreeOfText(t: Tree, s: string)
    requires WellFormed(t) && Nameable(t)
    requires Fits(Yield(t), Gaps(|Yield(t)|)) && Written(Yield(t), Gaps(|Yield(t)|)) == s
    ensures TextTree(Tokens(s)) == t
  {
    hide Written, Fits, Yield, ParseAll, Stream, TextTree, EvalText, Eval;
    PrintedTree(t, Gaps(|Yield(t)|), {}, map[]);
    ExprRejected.TextTreeIs(s);
  }
}
