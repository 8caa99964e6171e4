/** The meaning of arithmetic expressions: evaluation of trees, left to right, over a store of
    shell variables whose values are themselves texts of expressions. */
module ExprSemantics {
  import opened CStrings
  import opened Int64
  import opened Literals
  import opened ExprLex
  import opened ExprGrammar

  type Store = map<string, string>

  const MAX_EXPR_RECURSION_LEVEL: nat := 1024

  /** What evaluation is given: the readonly variables, and the tree that a text denotes. */
  datatype Env = Env(readonly: set<string>, grammar: string -> Tree)

  /** The grammar of ExprGrammar. The trigger keeps the definition folded until Wanted is used. */
  ghost predicate IsGrammar(g: string -> Tree) {
    forall s {:trigger Wanted(s)} :: Wanted(s) ==> g(s) == TextTree(Tokens(s))
  }

  ghost predicate Wanted(s: string) { true }

  function ShellEnv(readonly: set<string>): (env: Env)
    ensures env.readonly == readonly && IsGrammar(env.grammar)
  {
    Env(readonly, (s: string) => TextTree(Tokens(s)))
  }

  /** The store that an evaluation comes to, whether it fails there or not. */
  datatype Outcome = Error(vars: Store) | Ok(value: int64, vars: Store)

  predicate Blank(s: string) { At(s, SkipSpace(s, 0)) == '\0' }

  function Truth(b: bool): int64 { if b then 1 else 0 }

  /** A binary operator on values; None is division by zero or a negative exponent. */
  function Apply(op: Kind, a: int64, b: int64): Option<int64> {
    match op
    case Mul => Some(Int64.Mul(a, b))
    case Div => if b == 0 then None else Some(Wrap(TruncDiv(a, b)))
    case Mod => if b == 0 then None else Some(Wrap(TruncMod(a, b)))
    case Plus => Some(Int64.Add(a, b))
    case Minus => Some(Int64.Sub(a, b))
    case LSh => Some(ShiftLeft(a, b))
    case RSh => Some(ShiftRight(a, b))
    case BAnd => Some(Bits64(BitKind.And, a, b))
    case BXor => Some(Bits64(BitKind.Xor, a, b))
    case BOr => Some(Bits64(BitKind.Or, a, b))
    case EqEq => Some(Truth(a == b))
    case Neq => Some(Truth(a != b))
    case Leq => Some(Truth(a <= b))
    case Geq => Some(Truth(a >= b))
    case Lt => Some(Truth(a < b))
    case Gt => Some(Truth(a > b))
    case Power => if b < 0 then None else Some(Wrap(Pow(a, b)))
    case _ => None
  }

  function ApplyUnary(op: Kind, a: int64): int64 {
    match op
    case Not => Truth(a == 0)
    case BNot => -1 - a
    case Minus => Int64.Sub(0, a)
    case _ => a
  }

  function Stepped(kind: Kind, v: int64): int64 {
    Int64.Add(v, if kind == PreInc || kind == PostInc then 1 else -1)
  }

  /** Assignment stores the decimal text of the value; readonly variables refuse. */
  function Bind(env: Env, vars: Store, name: string, v: int64, result: int64): Outcome {
    if name in env.readonly then Error(vars) else Ok(result, vars[name := Itos(v)])
  }

  /** t contains the irregular assignment of expr.c:923-927. */
  predicate HasModUpdate(t: Tree) {
    match t
    case ModUpdate(_, _, _, _) => true
    case Paren(e) => HasModUpdate(e)
    case Unary(_, e) => HasModUpdate(e)
    case Bin(_, l, r) => HasModUpdate(l) || HasModUpdate(r)
    case Cond(c, a, b) => HasModUpdate(c) || HasModUpdate(a) || HasModUpdate(b)
    case Assign(_, e) => HasModUpdate(e)
    case Update(_, _, e) => HasModUpdate(e)
    case Cut(e) => HasModUpdate(e)
    case Stray(e, _) => HasModUpdate(e)
    case _ => false
  }

  /** Reading stops somewhere in t. */
  predicate Breaks(t: Tree) {
    match t
    case Stuck => true
    case Cut(_) => true
    case Stray(e, _) => Breaks(e)
    case Paren(e) => Breaks(e)
    case Unary(_, e) => Breaks(e)
    case Bin(_, l, r) => Breaks(l) || Breaks(r)
    case Cond(c, a, b) => Breaks(c) || Breaks(a) || Breaks(b)
    case Assign(_, e) => Breaks(e)
    case Update(_, _, e) => Breaks(e)
    case ModUpdate(l, _, _, e) => Breaks(l) || Breaks(e)
    case _ => false
  }

  /** t cannot be stepped over: it breaks off, or has an irregular assignment, which only survives
      evaluation. */
  predicate Stops(t: Tree) { HasModUpdate(t) || Breaks(t) }

  /** An operand that is not evaluated: it has no effect, but it is read. */
  function Skipped(t: Tree, vars: Store, value: int64): Outcome {
    if Stops(t) then Error(vars) else Ok(value, vars)
  }

  /** The value of t, evaluated inside `depth` nested variable values. */
  function Eval(env: Env, t: Tree, vars: Store, depth: nat): Outcome
    requires depth <= MAX_EXPR_RECURSION_LEVEL
    decreases MAX_EXPR_RECURSION_LEVEL - depth, 1, t
  {
    match t
    case Const(n) => Ok(n, vars)
    case Var(x) => Lookup(env, x, vars, depth)
    case Target(x) => Ok(0, vars)
    case Paren(e) => Eval(env, e, vars, depth)
    case PreStep(k, x) =>
      (match Lookup(env, x, vars, depth)
       case Error(left) => Error(left)
       case Ok(v, vars1) => Bind(env, vars1, x, Stepped(k, v), Stepped(k, v)))
    case PostStep(x, k) =>
      (match Lookup(env, x, vars, depth)
       case Error(left) => Error(left)
       case Ok(v, vars1) => Bind(env, vars1, x, Stepped(k, v), v))
    case Unary(op, e) =>
      (match Eval(env, e, vars, depth)
       case Error(left) => Error(left)
       case Ok(v, vars1) => Ok(ApplyUnary(op, v), vars1))
    case Bin(op, l, r) =>
      (match Eval(env, l, vars, depth)
       case Error(left) => Error(left)
       case Ok(a, vars1) =>
         if (op == LOr && a != 0) || (op == LAnd && a == 0) then Skipped(r, vars1, Truth(a != 0))
         else
           match Eval(env, r, vars1, depth)
           case Error(left) => Error(left)
           case Ok(b, vars2) => Combine(op, a, b, vars2))
    case Cond(c, a, b) =>
      (match Eval(env, c, vars, depth)
       case Error(left) => Error(left)
       case Ok(v, vars1) =>
         if v == 0 then (if Stops(a) then Error(vars1) else Eval(env, b, vars1, depth))
         else
           match Eval(env, a, vars1, depth)
           case Error(left) => Error(left)
           case Ok(u, vars2) => Skipped(b, vars2, u))
    case Assign(x, e) =>
      (match Eval(env, e, vars, depth)
       case Error(left) => Error(left)
       case Ok(v, vars1) => Bind(env, vars1, x, v, v))
    case Update(x, op, e) =>
      (match Lookup(env, x, vars, depth)
       case Error(left) => Error(left)
       case Ok(a, vars1) =>
         match Eval(env, e, vars1, depth)
         case Error(left) => Error(left)
         case Ok(b, vars2) => StoreUpdate(env, x, op, a, b, vars2))
    case ModUpdate(l, x, op, e) =>
      (match Eval(env, l, vars, depth)
       case Error(left) => Error(left)
       case Ok(a, vars1) =>
         match Lookup(env, x, vars1, depth)
         case Error(left) => Error(left)
         case Ok(b, vars2) =>
           if a != INTMAX_MIN || b != -1 then Error(vars2)
           else
             match Eval(env, e, vars2, depth)
             case Error(left) => Error(left)
             case Ok(c, vars3) => StoreUpdate(env, x, op, 0, c, vars3))
    case Stuck => Error(vars)
    case Cut(e) =>
      (match Eval(env, e, vars, depth)
       case Error(left) => Error(left)
       case Ok(_, vars1) => Error(vars1))
    case Stray(e, x) =>
      (match Eval(env, e, vars, depth)
       case Error(left) => Error(left)
       case Ok(v, vars1) =>
         match Lookup(env, x, vars1, depth)
         case Error(left) => Error(left)
         case Ok(_, vars2) => Ok(v, vars2))
  }

  /** Both operands of a binary operator have been evaluated. */
  function Combine(op: Kind, a: int64, b: int64, vars: Store): Outcome {
    match op
    case Comma => Ok(b, vars)
    case LOr => Ok(Truth(b != 0), vars)
    case LAnd => Ok(Truth(b != 0), vars)
    case _ => match Apply(op, a, b) case None => Error(vars) case Some(v) => Ok(v, vars)
  }

  function StoreUpdate(env: Env, x: string, op: Kind, a: int64, b: int64, vars: Store): Outcome {
    if !IsAssignable(op) then Error(vars)
    else match Apply(op, a, b) case None => Error(vars) case Some(v) => Bind(env, vars, x, v, v)
  }

  /** The value of a text: blank texts are 0, others are evaluated one level deeper, as far as they
      can be read. */
  function EvalText(env: Env, s: string, vars: Store, depth: nat): Outcome
    requires depth <= MAX_EXPR_RECURSION_LEVEL
    decreases MAX_EXPR_RECURSION_LEVEL - depth, 0, 0
  {
    if Blank(s) then Ok(0, vars)
    else if depth == MAX_EXPR_RECURSION_LEVEL then Error(vars)
    else Eval(env, env.grammar(s), vars, depth + 1)
  }

  /** The value of a variable is the value of its text; unset variables are 0. */
  function Lookup(env: Env, x: string, vars: Store, depth: nat): Outcome
    requires depth <= MAX_EXPR_RECURSION_LEVEL
    decreases MAX_EXPR_RECURSION_LEVEL - depth, 0, 1
  {
    if x in vars then EvalText(env, vars[x], vars, depth) else Ok(0, vars)
  }
}
