/** The one-pass evaluator of bash/expr.c: a recursive-descent parser over mutable globals that
    computes values, looks variables up one token ahead, and assigns, while it parses. It is
    proved to compute what parsing to a tree and evaluating the tree would compute; a text that is
    no expression is evaluated as far as it can be read. The original leaves through longjmp on
    errors; here every method returns ok == false. */
module ExprEvaluator {
  import opened CStrings
  import opened Int64
  import opened Literals
  import opened ExprLex
  import opened ExprGrammar
  import opened ExprSemantics
  import opened ExprRuns

  /** The token of readtok, by its first character. */
  lemma LexAt(ts: seq<Token>, s: string, i: nat, stepped: bool, ctx: Context)
    requires i <= |s| && |ts| >= 2 && ts[1..] == Stream(s, i, stepped, ctx)
    ensures !ts[1].Bad? && ts[1] != Sym(End) ==> |ts| >= 3
    ensures var p := SkipSpace(s, i);
            var c := At(s, p);
            if c == '\0' then ts[1] == Sym(End)
            else if NameStart(c) then
              var e := NameEnd(s, p);
              ts[1] == Id(s[p..e]) && ts[2..] == Stream(s, e, false, NextContext(stepped, ts[1]))
            else if IsDigit(c) then
              var e := NumberEnd(s, p);
              if StrLong(s[p..e]).None? then ts[1] == Bad(false)
              else ts[1] == Lit(StrLong(s[p..e]).value) && ts[2..] == Stream(s, e, false, Plain)
            else
              var l := LexOperator(s, p, ctx);
              ts[1] == l.tok && (!l.tok.Bad? ==> ts[2..] == Stream(s, l.next, IsStep(KindOf(l.tok)), Plain))
  {
    hide StrLong, LexOperator;
    assert ts[1] == ts[1..][0] && (|ts| >= 3 ==> ts[2..] == ts[1..][1..]);
  }

  /** What pushexp saves: an EXPR_CONTEXT, expr.c:156-164. */
  datatype Frame = Frame(expression: string, tp: nat, curtok: Kind, lasttok: Kind,
                         tokval: int64, tokstr: Option<string>, noeval: nat)

  class Evaluator {
    const env: Env
    var vars: Store
    var expression: string
    var tp: nat
    var curtok: Kind
    var lasttok: Kind
    var assigntok: Kind
    var tokval: int64
    var tokstr: Option<string>
    var noeval: nat
    var stack: seq<Frame>       // expr_stack; expr_depth is its length

    constructor (readonly: set<string>, vars: Store)
      ensures env == ShellEnv(readonly) && this.vars == vars && stack == []
    {
      this.env, this.vars := ShellEnv(readonly), vars;
      expression, tp, curtok, lasttok, assigntok := "", 0, End, End, End;
      tokval, tokstr, noeval, stack := 0, None, 0, [];
    }

    /** SAVETOK. */
    function Save(): Frame
      reads this
    {
      Frame(expression, tp, curtok, lasttok, tokval, tokstr, noeval)
    }

    /** RESTORETOK. */
    method Restore(f: Frame)
      modifies this
      ensures Save() == f
      ensures vars == old(vars) && stack == old(stack)
    {
      expression, tp, curtok, lasttok := f.expression, f.tp, f.curtok, f.lasttok;
      tokval, tokstr, noeval := f.tokval, f.tokstr, f.noeval;
    }

    ghost predicate Live()
      reads this
    {
      tp <= |expression| && |stack| <= MAX_EXPR_RECURSION_LEVEL && IsGrammar(env.grammar)
    }

    /** The globals hold the token tok. */
    ghost predicate Holds(tok: Token)
      reads this
    {
      && !tok.Bad?
      && KindOf(tok) == curtok
      && (tok.Lit? ==> tokval == tok.value)
      && (tok.Id? ==> tokstr == Some(tok.name))
      && (tok.AssignOp? ==> assigntok == tok.op && IsAssignable(tok.op))
      && (tok.Sym? ==> IsSymbol(tok.kind))
    }

    /** The globals are at the first token of ts, and the rest of ts is what will be read. */
    ghost predicate Reads(ts: seq<Token>)
      reads this
    {
      && Live()
      && |ts| > 0
      && Holds(ts[0])
      && !IsStep(lasttok)
      && (curtok != End ==> ts[1..] == Stream(expression, tp, IsStep(curtok), ContextOf(curtok, lasttok)))
      && (IsStep(curtok) ==> NameStart(At(expression, SkipSpace(expression, tp))))
    }

    /** ... and if that token is a name, it has already been looked up in the store `before`. */
    ghost predicate Ready(ts: seq<Token>, before: Store)
      reads this
    {
      && Reads(ts)
      && (if ts[0].Id? then
            && !PeekFails(ts[1..])
            && LookAhead(env, ts[0].name, before, |stack|, noeval > 0, false, ts[1]) == Ok(tokval, vars)
          else vars == before)
    }

    /** lasttok tells whether what was just parsed may be assigned to. */
    ghost predicate Marked(t: Tree, before: Store)
      reads this
      requires |stack| <= MAX_EXPR_RECURSION_LEVEL
    {
      && (lasttok == Str <==> IsName(t) || Fires(t, env, before, |stack|, noeval > 0))
      && (lasttok == Str ==>
            && tokstr == Some(NameOf(t))
            && (t.Target? <==> curtok == Eq))
    }

    /** Where the reader stands behind p. Behind a stray name nothing can be consumed. */
    ghost predicate Stands(p: Parsed)
      reads this
    {
      match p
      case Fail(_) => false
      case Astray(_) => Live() && curtok == Str && !IsStep(lasttok)
      case Parsed(_, r) => Reads(r) && !r[0].Id?
    }

    /** t has been evaluated to v, starting from the store `before`. */
    ghost predicate Ran(t: Tree, before: Store, v: int64)
      reads this
    {
      && |stack| <= MAX_EXPR_RECURSION_LEVEL
      && var o := Run(env, t, before, |stack|, noeval > 0);
      && o.Ok? && vars == o.vars
      && (noeval == 0 ==> v == o.value)
    }

    /** p has been read and evaluated, as far as that is possible: its value is v, or it has failed,
        and the store is what it has left. */
    ghost predicate Finished(p: Parsed, before: Store, depth: nat, skip: bool, ok: bool, v: int64)
      reads this
      requires depth <= MAX_EXPR_RECURSION_LEVEL
    {
      var o := Run(env, p.tree, before, depth, skip);
      if o.Error? then !ok && vars == o.vars
      else ok && depth == |stack| && skip == (noeval > 0) && Stands(p) && Ran(p.tree, before, v)
    }

    /** What later phrases want to know of the complete phrase p of level k. */
    ghost predicate Named(k: nat, p: Parsed, before: Store, v: int64)
      reads this
      requires |stack| <= MAX_EXPR_RECURSION_LEVEL
    {
      p.Parsed? ==> (k >= CONDITIONAL ==> Marked(p.tree, before)) && (noeval > 0 && IsName(p.tree) ==> v == 0)
    }

    /** The result of reading a phrase of level k. */
    ghost predicate Done(k: nat, ts: seq<Token>, before: Store, depth: nat, skip: bool, ok: bool, v: int64)
      reads this
      requires k <= PRIMARY && |ts| > 0 && depth <= MAX_EXPR_RECURSION_LEVEL
    {
      && Finished(Parse(k, ts), before, depth, skip, ok, v)
      && (ok ==> |stack| <= MAX_EXPR_RECURSION_LEVEL && Named(k, Parse(k, ts), before, v))
    }

    /** The same for the phrase behind ts[0]. */
    ghost predicate OperandRead(k: nat, ts: seq<Token>, before: Store, depth: nat, skip: bool, ok: bool, v: int64)
      reads this
      requires k <= PRIMARY && |ts| > 0 && depth <= MAX_EXPR_RECURSION_LEVEL
    {
      && Finished(Follow(k, ts), before, depth, skip, ok, v)
      && (ok ==> |stack| <= MAX_EXPR_RECURSION_LEVEL && Named(k, Follow(k, ts), before, v))
    }

    /** Inside the loop of level k: t has been read, and r is what the loop goes on with. */
    ghost predicate Looping(k: nat, ts: seq<Token>, before: Store, t: Tree, r: seq<Token>, v: int64)
      reads this
      requires LoopLevel(k) && |ts| > 0
    {
      && Stands(Parsed(t, r)) && Ran(t, before, v) && Named(k, Parsed(t, r), before, v)
      && |r| < |ts| && !r[0].Bad? && !r[0].Id?
      && Parse(k, ts) == ParseLoop(k, t, r)
    }

    /** The loop has come to a stray name. */
    ghost predicate Lost(k: nat, ts: seq<Token>, before: Store, v: int64)
      reads this
      requires k <= PRIMARY && |ts| > 0
    {
      var p := Parse(k, ts);
      p.Astray? && Stands(p) && Ran(p.tree, before, v)
    }

    // ---- the context stack ----

    method PushExp() returns (ok: bool)
      modifies this
      ensures ok <==> |old(stack)| < 1024
      ensures stack == if ok then old(stack) + [old(Save())] else old(stack)
      ensures Save() == old(Save()) && vars == old(vars)
    {
      if |stack| >= MAX_EXPR_RECURSION_LEVEL {
        return false;
      }
      stack := stack + [Save()];
      ok := true;
    }

    method PopExp() returns (ok: bool)
      modifies this
      ensures ok <==> old(stack) != []
      ensures ok ==> Save() == old(stack)[|old(stack)| - 1] && stack == old(stack)[..|old(stack)| - 1]
      ensures vars == old(vars) && (!ok ==> stack == [])
    {
      if |stack| == 0 {
        return false;
      }
      ok := true;
      var context := stack[|stack| - 1];
      stack := stack[..|stack| - 1];
      Restore(context);
    }

    /** expr_bind_variable: a readonly variable is an assignment error. */
    method BindVariable(lhs: string, rhs: string) returns (ok: bool)
      modifies this`vars
      ensures ok <==> lhs !in env.readonly
      ensures vars == if ok then old(vars)[lhs := rhs] else old(vars)
    {
      if lhs in env.readonly {
        return false;
      }
      vars := vars[lhs := rhs];
      ok := true;
    }

    // ---- the lexical analyser ----

    /** readtok: the next token of ts, and if it is a name, its value. */
    method ReadToken(ghost ts: seq<Token>) returns (ok: bool)
      requires Live() && |ts| >= 2
      requires ts[1..] == Stream(expression, tp, IsStep(curtok), ContextOf(curtok, lasttok))
      modifies this
      decreases MAX_EXPR_RECURSION_LEVEL - |stack|, 1, |expression| - tp, 2
      ensures ok ==> Live() && stack == old(stack) && expression == old(expression) && noeval == old(noeval)
      ensures ok ==> Holds(ts[1]) && curtok == KindOf(ts[1]) && lasttok == old(curtok)
      ensures ok && curtok != End ==>
                |ts| >= 3 && ts[2..] == Stream(expression, tp, IsStep(curtok), NextContext(IsStep(old(curtok)), ts[1]))
      ensures ok && IsStep(curtok) ==> NameStart(At(expression, SkipSpace(expression, tp)))
      ensures ReadFails(ts[1..]) ==> !ok && vars == old(vars)
      ensures !ReadFails(ts[1..]) && !ts[1].Id? ==> ok && vars == old(vars) && tokstr == old(tokstr)
      ensures !ReadFails(ts[1..]) && ts[1].Id? ==>
                |ts| >= 3 &&
                var o := LookAhead(env, ts[1].name, old(vars), |old(stack)|, old(noeval) > 0, IsStep(old(lasttok)),
                    ts[2]);
                if ok then o == Ok(tokval, vars) else o == Error(vars)
    {
      hide Lookup, Lex, Stream, StrLong, LexOperator, IsGrammar, LookAhead, ContextOf, SkipSpace, NameEnd, NumberEnd;
      hide PeekFails;
      LexAt(ts, expression, tp, IsStep(curtok), ContextOf(curtok, lasttok));
      assert ts[1..][0] == ts[1] && ts[1..][1..] == ts[2..];
      var cp := SkipBlanks(expression, tp);
      var c := At(expression, cp);
      if c == '\0' {
        lasttok := curtok;
        curtok := End;
        tp := cp;
        return true;
      }
      tp := cp;
      if NameStart(c) {
        cp := ScanName(expression, tp);
        ok := ReadName(ts, cp);
      } else if IsDigit(c) {
        ok := ReadNumber();
      } else {
        ok := ReadOperator();
      }
    }

    /** The loops of readtok over blanks and over the characters of a name. */
    static method SkipBlanks(s: string, i: nat) returns (cp: nat)
      requires i <= |s|
      ensures cp <= |s| && cp == SkipSpace(s, i) && !CrWhitespace(At(s, cp))
    {
      cp := i;
      while CrWhitespace(At(s, cp))
        invariant cp <= |s| && SkipSpace(s, cp) == SkipSpace(s, i)
        decreases |s| - cp
      {
        cp := cp + 1;
      }
    }

    static method ScanName(s: string, i: nat) returns (cp: nat)
      requires i < |s| && NameStart(s[i])
      ensures i < cp <= |s| && cp == NameEnd(s, i)
    {
      cp := i;
      while NameChar(At(s, cp))
        invariant i <= cp <= |s| && NameEnd(s, cp) == NameEnd(s, i) && (cp == i ==> NameChar(s[i]))
        decreases |s| - cp
      {
        cp := cp + 1;
      }
    }

    /** readtok on a constant. */
    method ReadNumber() returns (ok: bool)
      requires tp < |expression|
      modifies `tp, `curtok, `lasttok, `tokval
      ensures var e := NumberEnd(expression, old(tp));
              var n := StrLong(expression[old(tp)..e]);
              ok == n.Some? && (ok ==> tp == e && lasttok == old(curtok) && Holds(Lit(n.value)))
    {
      var cp := tp;
      while NumberChar(At(expression, cp))
        invariant tp <= cp <= |expression| && NumberEnd(expression, cp) == NumberEnd(expression, tp)
        decreases |expression| - cp
      {
        cp := cp + 1;
      }
      ok, tokval := Strlong(expression[tp..cp]);
      if ok {
        lasttok := curtok;
        curtok := Num;
        tp := cp;
      }
    }

    /** readtok on an operator. */
    method ReadOperator() returns (ok: bool)
      requires tp < |expression|
      modifies `tp, `curtok, `lasttok, `assigntok
      ensures var l := LexOperator(expression, old(tp), ContextOf(old(curtok), old(lasttok)));
              ok == !l.tok.Bad? && !l.tok.Id? &&
              (ok ==> tp == l.next && lasttok == old(curtok) && Holds(l.tok) && curtok != End &&
                      (IsStep(curtok) ==> NameStart(At(expression, SkipSpace(expression, tp)))))
    {
      var l := LexOperator(expression, tp, ContextOf(curtok, lasttok));
      if l.tok.Bad? {
        return false;
      }
      if l.tok.AssignOp? {
        assigntok := l.tok.op;
      }
      lasttok := curtok;
      curtok := KindOf(l.tok);
      tp := l.next;
      ok := true;
    }

    /** readtok where a phrase of level k is to follow. */
    method ReadOperand(ghost k: nat, ghost ts: seq<Token>) returns (ok: bool)
      requires Live() && |ts| >= 2 && k <= PRIMARY && !IsStep(curtok)
      requires ts[1..] == Stream(expression, tp, IsStep(curtok), ContextOf(curtok, lasttok))
      requires !IsStep(lasttok)
      modifies this
      decreases MAX_EXPR_RECURSION_LEVEL - |stack|, 1, |expression| - tp, 3
      ensures ok ==> stack == old(stack) && expression == old(expression) && noeval == old(noeval)
      ensures ok ==> lasttok == old(curtok) && Ready(ts[1..], old(vars))
      ensures !ok ==> Run(env, Parse(k, ts[1..]).tree, old(vars), |old(stack)|, old(noeval) > 0) == Error(vars)
    {
      hide Lookup, Parse, Eval, Lex, Stream, Run, LookAhead, IsGrammar, PeekFails;
      ok := ReadToken(ts);
      if ReadFails(ts[1..]) {
        ReadingFails(k, ts[1..], env, old(vars), |old(stack)|, old(noeval) > 0);
      } else if !ok {
        NameFails(k, ts[1..], env, old(vars), |old(stack)|, old(noeval) > 0);
      }
    }

    /** The look ahead of readtok behind a name: read the token at cp and put everything back. */
    method Peek(ghost name: string, cp: nat) returns (ok: bool, peektok: Kind)
      requires Live() && tp < cp <= |expression|
      modifies this
      decreases MAX_EXPR_RECURSION_LEVEL - |stack|, 1, |expression| - tp, 0
      ensures ok ==> Save() == old(Save()) && stack == old(stack)
      ensures vars == old(vars)
      ensures var next := Stream(old(expression), cp, false, AfterName);
              ok == !ReadFails(next) && (ok ==> peektok == KindOf(next[0]))
    {
      hide Lookup, Lex, Stream, ReadFails, NameStart, SkipSpace, NextContext, IsGrammar;
      var ec := Save();
      tokstr := None;
      tp := cp;
      noeval := 1;
      curtok := Str;
      ghost var next := Stream(expression, cp, false, AfterName);
      ghost var ts := [Id(name)] + next;
      assert ts[1..] == next && ts[1] == next[0];
      ok := ReadToken(ts);
      if !ok {
        return false, End;
      }
      peektok := curtok;
      Restore(ec);
    }

    /** readtok on a name, which ends at cp: peek at the token after it, then look it up unless
        it is about to be assigned. */
    method ReadName(ghost ts: seq<Token>, cp: nat) returns (ok: bool)
      requires Live() && |ts| >= 3 && tp < cp <= |expression| && ts[1] == Id(expression[tp..cp])
      requires ts[2..] == Stream(expression, cp, false, NextContext(IsStep(curtok), ts[1]))
      modifies this
      decreases MAX_EXPR_RECURSION_LEVEL - |stack|, 1, |expression| - tp, 1
      ensures ok ==> Live() && stack == old(stack) && expression == old(expression) && noeval == old(noeval)
      ensures ok ==> tp == cp && curtok == Str && tokstr == Some(ts[1].name) && lasttok == old(curtok)
      ensures PeekFails(ts[2..]) ==> !ok && vars == old(vars)
      ensures !PeekFails(ts[2..]) ==>
                var o := LookAhead(env, ts[1].name, old(vars), |old(stack)|, old(noeval) > 0, IsStep(old(lasttok)),
                    ts[2]);
                if ok then o == Ok(tokval, vars) else o == Error(vars)
    {
      hide Lookup, Lex, Stream, IsGrammar, LookAhead, IsStep, NameStart, PeekFails, ReadFails;
      tokstr := Some(expression[tp..cp]);
      PeekSees(ts, expression, cp, IsStep(curtok));
      var peektok;
      ok, peektok := Peek(ts[1].name, cp);
      if !ok {
        return;
      }
      ok := NameValue(ts[2], peektok);
      if !ok {
        return;
      }
      lasttok := curtok;
      curtok := Str;
      tp := cp;
    }

    /** What the look ahead sees agrees with what will be read. */
    static lemma PeekSees(ts: seq<Token>, s: string, cp: nat, stepped: bool)
      requires |ts| >= 3 && ts[1].Id? && cp <= |s| && ts[2..] == Stream(s, cp, false, NextContext(stepped, ts[1]))
      ensures var next := Stream(s, cp, false, AfterName);
              && ReadFails(next) == PeekFails(ts[2..])
              && (!ReadFails(next) ==> (KindOf(next[0]) == Eq <==> ts[2] == Sym(Eq)))
    {
      hide Lex, Stream, PeekFails, ReadFails;
      PeekSame(s, cp);
      assert ts[2] == ts[2..][0];
    }

    /** The value of the name in tokstr, with the token behind it. */
    method NameValue(ghost next: Token, peektok: Kind) returns (ok: bool)
      requires Live() && tokstr.Some? && (peektok == Eq <==> next == Sym(Eq))
      modifies this
      decreases MAX_EXPR_RECURSION_LEVEL - |stack|, 0, 2
      ensures ok ==> Live() && stack == old(stack) && expression == old(expression) && noeval == old(noeval)
      ensures ok ==> tp == old(tp) && curtok == old(curtok) && lasttok == old(lasttok) && tokstr == old(tokstr)
      ensures var o := LookAhead(env, old(tokstr).value, old(vars), |old(stack)|, old(noeval) > 0,
                  IsStep(old(lasttok)), next);
              if ok then o == Ok(tokval, vars) else o == Error(vars)
    {
      hide Lookup, IsGrammar;
      ok := true;
      if IsStep(lasttok) || peektok != Eq {
        ok, tokval := StreVal(tokstr.value);
      } else {
        tokval := 0;
      }
    }

    /** expr_streval for a scalar variable. */
    method StreVal(tok: string) returns (ok: bool, tval: int64)
      requires |stack| <= MAX_EXPR_RECURSION_LEVEL && IsGrammar(env.grammar)
      modifies this
      decreases MAX_EXPR_RECURSION_LEVEL - |stack|, 0, 1
      ensures ok ==> Save() == old(Save()) && stack == old(stack)
      ensures var o := if old(noeval) > 0 then Ok(0, old(vars)) else Lookup(env, tok, old(vars), |old(stack)|);
              if o.Error? then !ok && vars == o.vars else ok && o == Ok(tval, vars)
    {
      if noeval > 0 {
        return true, 0;
      }
      if tok in vars {
        ok, tval := SubExpr(vars[tok]);
      } else {
        ok, tval := true, 0;
      }
    }

    /** subexpr: evaluate a text in a context of its own. */
    method SubExpr(expr: string) returns (ok: bool, val: int64)
      requires |stack| <= MAX_EXPR_RECURSION_LEVEL && IsGrammar(env.grammar) && noeval == 0
      modifies this
      decreases MAX_EXPR_RECURSION_LEVEL - |stack|, 0, 0
      ensures ok ==> Save() == old(Save()) && stack == old(stack)
      ensures var o := EvalText(env, expr, old(vars), |old(stack)|);
              if o.Error? then !ok && vars == o.vars else ok && o == Ok(val, vars)
    {
      hide Eval, Lookup, Lex, Stream, TextTree;
      var p := SkipBlanks(expr, 0);
      if At(expr, p) == '\0' {
        return true, 0;
      }
      ok := PushExp();
      if !ok {
        return false, 0;
      }
      assert Wanted(expr);
      ok, val := EvalPushed(expr);
      if ok {
        ok := PopExp();
      }
    }

    /** The fresh context of a text. */
    method Begin(expr: string)
      modifies this
      ensures expression == expr && tp == 0 && curtok == End && lasttok == End
      ensures noeval == old(noeval) && vars == old(vars) && stack == old(stack)
    {
      expression := expr;
      tp := 0;
      curtok, lasttok := End, End;
      tokstr := None;
      tokval := 0;
    }

    /** The part of subexpr between pushexp and popexp. */
    method EvalPushed(expr: string) returns (ok: bool, val: int64)
      requires 0 < |stack| <= MAX_EXPR_RECURSION_LEVEL && IsGrammar(env.grammar) && noeval == 0
      modifies this
      decreases MAX_EXPR_RECURSION_LEVEL - |stack|, |Tokens(expr)| + 2
      ensures ok ==> stack == old(stack)
      ensures var o := Eval(env, TextTree(Tokens(expr)), old(vars), |old(stack)|);
              if o.Error? then !ok && vars == o.vars else ok && o == Ok(val, vars)
    {
      hide Lookup, Eval, Lex, Stream, Parse, Run, TextTree, IsGrammar, Ready, Finished;
      Begin(expr);
      ghost var before := vars;
      ghost var ts := Tokens(expr);
      ghost var all := [Sym(End)] + ts;
      assert all[1..] == ts;
      ok := ReadOperand(0, all);
      if !ok {
        FailedDone(0, ts, before, |old(stack)|, false, 0);
        TextDone(ts, before, |old(stack)|, false, 0);
        return false, 0;
      }
      ok, val := Phrase(0, ts, before);
      TextDone(ts, before, |old(stack)|, ok, val);
      if !ok || curtok != End {
        return false, 0;
      }
    }

    /** What becomes of the whole text. */
    lemma TextDone(ts: seq<Token>, before: Store, depth: nat, ok: bool, v: int64)
      requires |ts| > 0 && depth <= MAX_EXPR_RECURSION_LEVEL && Finished(Parse(0, ts), before, depth, false, ok, v)
      ensures Eval(env, TextTree(ts), before, depth) == if ok && curtok == End then Ok(v, vars) else Error(vars)
    {
      hide Lookup, Eval, Lex, Stream, Parse, IsGrammar;
      var p := Parse(0, ts);
      TextRun(ts, env, before, depth);
      if ok && p.Parsed? { FirstOf(p.rest); }
    }

    /** The assignments to lasttok behind an operator. They make a following "=" an error, and do
        not change what will be read. */
    method SetLast(k: Kind, ghost p: Parsed)
      requires !IsStep(lasttok) && !IsStep(k) && k != Str
      modifies `lasttok
      ensures lasttok == k
      ensures old(Stands(p)) ==> Stands(p)
    {
      hide Stream, IsGrammar;
      assert ContextOf(curtok, k) == ContextOf(curtok, lasttok);
      lasttok := k;
    }

    /** The current token is the first one. */
    lemma FirstOf(ts: seq<Token>)
      requires Reads(ts)
      ensures |ts| > 0 && curtok == KindOf(ts[0]) && !ts[0].Bad? && (curtok != End ==> |ts| >= 2)
      ensures Live() && !IsStep(lasttok)
      ensures ts[0].Sym? <==> curtok != Str && curtok != Num && curtok != OpAssign
      ensures ts[0].AssignOp? ==> assigntok == ts[0].op && IsAssignable(ts[0].op)
    {
      hide Lex, IsGrammar;
    }

    lemma FirstToken(ts: seq<Token>, before: Store)
      requires Ready(ts, before)
      ensures Reads(ts) && !(ts[0].Id?) ==> vars == before
      ensures Reads(ts) && |stack| <= MAX_EXPR_RECURSION_LEVEL && |ts| > 0 && (!ts[0].Id? ==> vars == before)
      ensures IsUnary(curtok) <==> ts[0].Sym? && IsUnary(ts[0].kind)
    {
      hide Lookup, Lex, IsGrammar, PeekFails, LookAhead;
      FirstOf(ts);
    }

    lemma Following(ts: seq<Token>)
      requires Reads(ts) && curtok != End
      ensures Live() && !IsStep(lasttok)
      ensures ts[1..] == Stream(expression, tp, IsStep(curtok), ContextOf(curtok, lasttok))
    {
    }

    /** Where the reader stands and the value do not depend on the names of the parts. */
    lemma Standing(p: Parsed)
      requires Stands(p)
      ensures Live() && !IsStep(lasttok) && |stack| <= MAX_EXPR_RECURSION_LEVEL && !p.Fail?
      ensures p.Astray? ==> curtok == Str
      ensures p.Parsed? ==> Reads(p.rest) && !p.rest[0].Id? && curtok == KindOf(p.rest[0]) && curtok != Str
      ensures forall t :: Stands(WithTree(p, t))
    {
      hide Lex, Stream, IsGrammar;
      if p.Parsed? { FirstOf(p.rest); }
    }

    /** A phrase that is known to fail has been found to fail. */
    lemma FailedDone(k: nat, ts: seq<Token>, before: Store, depth: nat, skip: bool, v: int64)
      requires k <= PRIMARY && |ts| > 0 && depth <= MAX_EXPR_RECURSION_LEVEL
      requires Run(env, Parse(k, ts).tree, before, depth, skip) == Error(vars)
      ensures Done(k, ts, before, depth, skip, false, v)
    {
      hide Run, Parse;
    }

    /** A failed phrase makes those of the next weaker level fail. */
    lemma LevelDone(k: nat, ts: seq<Token>, before: Store, depth: nat, skip: bool, v: int64)
      requires k < PRIMARY && |ts| > 0 && depth <= MAX_EXPR_RECURSION_LEVEL
      requires k == UNARY ==> !(ts[0].Sym? && IsUnary(ts[0].kind))
      requires Done(k + 1, ts, before, depth, skip, false, v)
      ensures Done(k, ts, before, depth, skip, false, v)
      ensures Run(env, Parse(k, ts).tree, before, depth, skip) == Error(vars)
    {
      hide Run, Parse, Stands, Ran, Named;
      LevelFails(k, ts, env, before, depth, skip);
    }

    /** A phrase of level k + 1 with no operator of level k behind it. */
    lemma SameDone(k: nat, ts: seq<Token>, before: Store, depth: nat, skip: bool, ok: bool, v: int64)
      requires k < PRIMARY && |ts| > 0 && depth <= MAX_EXPR_RECURSION_LEVEL
      requires Parse(k, ts) == Parse(k + 1, ts) && Done(k + 1, ts, before, depth, skip, ok, v)
      requires k + 1 >= CONDITIONAL
      ensures Done(k, ts, before, depth, skip, ok, v)
    {
      hide Run, Parse, Stands, Ran, Marked;
    }

    /** The loop that expcomma, explor, expland, expbor, expbxor, expband, expeq, expcompare,
        expshift, expaddsub and expmuldiv all consist of: an operand, and then rounds of operator
        and operand. */
    method ExpLoop(k: nat, ghost ts: seq<Token>, ghost before: Store) returns (ok: bool, value: int64)
      requires LoopLevel(k) && Ready(ts, before)
      modifies this
      decreases MAX_EXPR_RECURSION_LEVEL - |stack|, |ts| + 1, 20 - k, 0
      ensures ok ==> stack == old(stack) && expression == old(expression) && noeval == old(noeval)
      ensures Done(k, ts, before, |old(stack)|, old(noeval) > 0, ok, value)
    {
      hide Lookup, Eval, Lex, Stream, Parse, ParseLoop, Run, IsGrammar, Done, Reads, Live, Looping, Lost;
      FirstToken(ts, before);
      ok, value := Phrase(k + 1, ts, before);
      if !ok {
        LevelDone(k, ts, before, |old(stack)|, old(noeval) > 0, value);
        return;
      }
      ghost var t, r := LoopBegins(k, ts, before, value);
      while OpLevel(curtok) == k
        invariant stack == old(stack) && expression == old(expression) && noeval == old(noeval)
        invariant Looping(k, ts, before, t, r, value) || (Lost(k, ts, before, value) && curtok == Str)
        decreases if curtok == Str then 0 else |r| + 1
      {
        LoopHead(k, ts, before, t, r, value);
        ok, value, t, r := Round(k, ts, before, t, r, value);
        if !ok {
          FailedDone(k, ts, before, |old(stack)|, old(noeval) > 0, value);
          return;
        }
      }
      LoopEnds(k, ts, before, t, r, value);
    }

    lemma LoopBegins(k: nat, ts: seq<Token>, before: Store, v: int64) returns (t: Tree, r: seq<Token>)
      requires LoopLevel(k) && |ts| > 0 && |stack| <= MAX_EXPR_RECURSION_LEVEL
      requires Done(k + 1, ts, before, |stack|, noeval > 0, true, v)
      ensures Looping(k, ts, before, t, r, v) || (Lost(k, ts, before, v) && curtok == Str)
    {
      hide Run, Parse, ParseLoop, Marked, Reads, Live;
      var p := Parse(k + 1, ts);
      LoopStarts(k, ts);
      t, r := p.tree, if p.Parsed? then p.rest else ts;
    }

    lemma LoopEnds(k: nat, ts: seq<Token>, before: Store, t: Tree, r: seq<Token>, v: int64)
      requires LoopLevel(k) && |ts| > 0 && OpLevel(curtok) != k && |stack| <= MAX_EXPR_RECURSION_LEVEL
      requires Looping(k, ts, before, t, r, v) || Lost(k, ts, before, v)
      ensures Done(k, ts, before, |stack|, noeval > 0, true, v)
    {
      hide Run, Parse, Marked, Stands;
      if Looping(k, ts, before, t, r, v) {
        Standing(Parsed(t, r));
        assert ParseLoop(k, t, r) == Parsed(t, r);
      }
    }

    /** A phrase of any level. */
    method Phrase(k: nat, ghost ts: seq<Token>, ghost before: Store) returns (ok: bool, val: int64)
      requires k <= PRIMARY && Ready(ts, before)
      modifies this
      decreases MAX_EXPR_RECURSION_LEVEL - |stack|, |ts| + 1, 20 - k, 2
      ensures ok ==> stack == old(stack) && expression == old(expression) && noeval == old(noeval)
      ensures Done(k, ts, before, |old(stack)|, old(noeval) > 0, ok, val)
    {
      if LoopLevel(k) {
        ok, val := ExpLoop(k, ts, before);
      } else if k == ASSIGNMENT {
        ok, val := ExpAssign(ts, before);
      } else if k == CONDITIONAL {
        ok, val := ExpCond(ts, before);
      } else if k == POWER {
        ok, val := ExpPower(ts, before);
      } else if k == UNARY {
        ok, val := ExpUnary(ts, before);
      } else {
        ok, val := Exp0(ts, before);
      }
    }

    /** readtok, and then a phrase of level k: the operand of the operator at ts[0]. */
    method Operand(k: nat, ghost ts: seq<Token>) returns (ok: bool, val: int64)
      requires k <= PRIMARY && Reads(ts) && |ts| >= 2 && !IsStep(curtok) && curtok != End
      modifies this
      decreases MAX_EXPR_RECURSION_LEVEL - |stack|, |ts| + 1, 0, 0
      ensures ok ==> stack == old(stack) && expression == old(expression) && noeval == old(noeval)
      ensures OperandRead(k, ts, old(vars), |old(stack)|, old(noeval) > 0, ok, val)
    {
      hide Lookup, Eval, Lex, Stream, Parse, Run, IsGrammar, Reads, Live, Done, OperandRead;
      Following(ts);
      val := 0;
      ok := ReadOperand(k, ts);
      if ok {
        ok, val := Phrase(k, ts[1..], old(vars));
      } else {
        FailedDone(k, ts[1..], old(vars), |old(stack)|, old(noeval) > 0, val);
      }
      OperandDone(k, ts, old(vars), |old(stack)|, old(noeval) > 0, ok, val);
    }

    lemma OperandDone(k: nat, ts: seq<Token>, before: Store, depth: nat, skip: bool, ok: bool, v: int64)
      requires k <= PRIMARY && |ts| >= 2 && depth <= MAX_EXPR_RECURSION_LEVEL
      requires Done(k, ts[1..], before, depth, skip, ok, v)
      ensures OperandRead(k, ts, before, depth, skip, ok, v)
    {
      hide Run, Parse, Finished, Named;
      FollowIs(k, ts);
    }

    /** One round of the loop of level k. */
    method Round(k: nat, ghost ts: seq<Token>, ghost before: Store, ghost t: Tree, ghost r: seq<Token>, val1: int64)
      returns (ok: bool, val: int64, ghost t': Tree, ghost r': seq<Token>)
      requires LoopLevel(k) && |ts| > 0 && OpLevel(curtok) == k && Looping(k, ts, before, t, r, val1)
      modifies this
      decreases MAX_EXPR_RECURSION_LEVEL - |stack|, |r| + 1, 20 - k, 1
      ensures ok ==> stack == old(stack) && expression == old(expression) && noeval == old(noeval)
      ensures RoundDone(k, ts, before, |r|, |old(stack)|, old(noeval) > 0, ok, val, t', r')
    {
      if k == 0 {
        ok, val, t', r' := RoundComma(ts, before, t, r);
      } else if k == 3 || k == 4 {
        ok, val, t', r' := RoundLogical(k, ts, before, t, r, val1);
      } else if k == 12 {
        ok, val, t', r' := RoundMulDiv(ts, before, t, r, val1);
      } else {
        ok, val, t', r' := RoundBinary(k, ts, before, t, r, val1);
      }
    }

    /** A round of a loop that had n tokens left: the loop goes on behind a larger tree, has come to
        a stray name, or has failed. */
    ghost predicate RoundDone(k: nat, ts: seq<Token>, before: Store, n: nat, depth: nat, skip: bool, ok: bool, v: int64,
        t: Tree, r: seq<Token>)
      reads this
      requires LoopLevel(k) && |ts| > 0 && depth <= MAX_EXPR_RECURSION_LEVEL
    {
      if ok then (Lost(k, ts, before, v) && curtok == Str) || (Looping(k, ts, before, t, r, v) && |r| < n)
      else Run(env, Parse(k, ts).tree, before, depth, skip) == Error(vars)
    }

    /** Behind the operator r[0]: read the right operand, with noeval raised if it is skipped. */
    method RightOperand(k: nat, ghost ts: seq<Token>, ghost before: Store, ghost t: Tree, ghost r: seq<Token>,
        raise: bool)
      returns (ok: bool, val2: int64)
      requires LoopLevel(k) && |ts| > 0 && Reads(r) && |r| >= 2 && Continues(k, r[0])
              && Parse(k, ts) == ParseLoop(k, t, r)
      requires Run(env, t, before, |stack|, noeval > 0).Ok? && vars == Run(env, t, before, |stack|, noeval > 0).vars
      requires (noeval > 0 || raise)
            <==> (noeval > 0 || SkipsRight(r[0].kind, Run(env, t, before, |stack|, noeval > 0).value))
      modifies this
      decreases MAX_EXPR_RECURSION_LEVEL - |stack|, |r| + 1, 19 - k, 3
      ensures ok ==> stack == old(stack) && expression == old(expression) && noeval == old(noeval)
      ensures BranchRead(k + 1, r, old(vars), |old(stack)|, old(noeval) > 0 || raise, raise, ok, val2)
      ensures !ok ==> Run(env, Parse(k, ts).tree, before, |old(stack)|, old(noeval) > 0) == Error(vars)
    {
      hide Lookup, Eval, Lex, Stream, Run, Parse, ParseLoop, IsGrammar, SkipsRight, Reads;
      FirstOf(r);
      ok, val2 := Branch(k + 1, r, raise);
      if !ok {
        RightFails(k, t, r, env, before, |old(stack)|, old(noeval) > 0, old(noeval) > 0 || raise);
      }
    }

    /** The operator has been applied, with result val: the end of a round. */
    method EndRound(k: nat, mark: Kind, ghost ts: seq<Token>, ghost before: Store, ghost t: Tree, ghost r: seq<Token>,
        ghost skipRight: bool, val: int64) returns (ghost t': Tree, ghost r': seq<Token>)
      requires LoopLevel(k) && k > 0 && |ts| > |r| >= 2 && Continues(k, r[0]) && Parse(k, ts) == ParseLoop(k, t, r)
      requires mark != Str && !IsStep(mark) && Stands(Follow(k + 1, r))
      requires Combined(t, r, before, Follow(k + 1, r), skipRight, val)
      requires !Fires(Bin(r[0].kind, t, Follow(k + 1, r).tree), env, before, |stack|, noeval > 0)
      modifies `lasttok
      ensures RoundDone(k, ts, before, |r|, |stack|, noeval > 0, true, val, t', r')
    {
      hide Lookup, Eval, Lex, Stream, Run, Parse, Follow, ParseLoop, Combine, IsGrammar, Fires, Stands;
      ghost var p := Follow(k + 1, r);
      Standing(p);
      SetLast(mark, p);
      t', r' := Bin(r[0].kind, t, p.tree), if p.Parsed? then p.rest else r;
      Extend(k, ts, before, t, r, skipRight, val);
    }

    /** The operands on both sides of r[0] have been evaluated and combined to v. */
    ghost predicate Combined(t: Tree, r: seq<Token>, before: Store, p: Parsed, skipRight: bool, v: int64)
      reads this
      requires |r| > 0 && r[0].Sym?
    {
      && |stack| <= MAX_EXPR_RECURSION_LEVEL
      && var op := r[0].kind;
         var o1 := Run(env, t, before, |stack|, noeval > 0);
         o1.Ok? && skipRight == (noeval > 0 || SkipsRight(op, o1.value)) &&
         var o2 := Run(env, p.tree, o1.vars, |stack|, skipRight);
         o2.Ok? && vars == o2.vars &&
         (noeval == 0 ==>
           Ok(v, vars) ==
             if skipRight then Ok(Truth(o1.value != 0), o1.vars) else Combine(op, o1.value, o2.value, o2.vars))
    }

    lemma CombinedRan(t: Tree, r: seq<Token>, before: Store, p: Parsed, skipRight: bool, v: int64)
      requires |r| > 0 && r[0].Sym? && Combined(t, r, before, p, skipRight, v)
      ensures Ran(Bin(r[0].kind, t, p.tree), before, v)
    {
      hide Run, SkipsRight, Combine, Truth;
      BinRun(r[0].kind, t, p.tree, env, before, |stack|, noeval > 0, skipRight);
      if noeval > 0 {
        SkippedRun(t, before);
        SkippedRun(p.tree, before);
      }
    }

    /** One round of a loop: the loop stands behind the larger tree, whose value is v. */
    lemma Extend(k: nat, ts: seq<Token>, before: Store, t: Tree, r: seq<Token>, skipRight: bool, v: int64)
      requires LoopLevel(k) && |ts| > |r| > 0 && Continues(k, r[0]) && Parse(k, ts) == ParseLoop(k, t, r)
      requires Stands(Follow(k + 1, r)) && Combined(t, r, before, Follow(k + 1, r), skipRight, v)
      requires k >= CONDITIONAL && Follow(k + 1, r).Parsed? ==>
                 Marked(Bin(r[0].kind, t, Follow(k + 1, r).tree), before)
                 || (lasttok != Str
                     && !Fires(Bin(r[0].kind, t, Follow(k + 1, r).tree), env, before, |stack|, noeval > 0))
      ensures var p := Follow(k + 1, r);
              RoundDone(k, ts, before, |r|, |stack|, noeval > 0, true, v, Bin(r[0].kind, t, p.tree),
                  if p.Parsed? then p.rest else r)
    {
      hide Run, Parse, Follow, ParseLoop, Fires, Stands, Combined;
      var p := Follow(k + 1, r);
      var u := Bin(r[0].kind, t, p.tree);
      LoopGoesOn(k, t, r);
      CombinedRan(t, r, before, p, skipRight, v);
      Standing(p);
      assert Stands(WithTree(p, u));
    }

    /** Where a round starts: the current token is the operator r[0]. */
    lemma LoopHead(k: nat, ts: seq<Token>, before: Store, t: Tree, r: seq<Token>, v: int64)
      requires LoopLevel(k) && |ts| > 0 && OpLevel(curtok) == k && Looping(k, ts, before, t, r, v)
      ensures Reads(r) && |ts| > |r| >= 2 && r[0] == Sym(curtok) && Continues(k, r[0])
      ensures Parse(k, ts) == ParseLoop(k, t, r) && |stack| <= MAX_EXPR_RECURSION_LEVEL
      ensures var o := Run(env, t, before, |stack|, noeval > 0);
              o.Ok? && vars == o.vars && (noeval == 0 ==> v == o.value)
    {
      hide Lookup, Eval, Lex, Stream, Parse, ParseLoop, IsGrammar, Run, Marked, Reads;
      FirstOf(r);
    }

    /** The right operand has been read and evaluated, where noeval has been lowered again. */
    lemma RightIs(k: nat, r: seq<Token>, mid: Store, skip: bool, raise: bool, v: int64)
      requires k <= PRIMARY && |r| > 0 && |stack| <= MAX_EXPR_RECURSION_LEVEL
      requires BranchRead(k, r, mid, |stack|, skip, raise, true, v)
      ensures Stands(Follow(k, r))
      ensures var o := Run(env, Follow(k, r).tree, mid, |stack|, skip);
              o.Ok? && vars == o.vars && (!skip ==> v == o.value)
    {
      hide Run, Follow, Stands, Named;
    }

    lemma LogicalOperator(op: Kind, a: int64)
      requires OpLevel(op) == 3 || OpLevel(op) == 4
      ensures op == LOr || op == LAnd
      ensures SkipsRight(op, a) <==> if op == LOr then a != 0 else a == 0
    {
    }

    lemma SkippedRun(t: Tree, mid: Store)
      requires |stack| <= MAX_EXPR_RECURSION_LEVEL && Run(env, t, mid, |stack|, true).Ok?
      ensures Run(env, t, mid, |stack|, true) == Ok(0, mid)
    {
    }

    lemma LogicalResult(op: Kind, a: int64, b: int64, vars: Store)
      requires OpLevel(op) == 3 || OpLevel(op) == 4
      ensures var v := Truth(if op == LOr then a != 0 || b != 0 else a != 0 && b != 0);
              if SkipsRight(op, a) then v == Truth(a != 0) else Combine(op, a, b, vars) == Ok(v, vars)
    {
    }

    lemma BinaryOperator(op: Kind, a: int64)
      requires 5 <= OpLevel(op) <= 11
      ensures !SkipsRight(op, a) && op != Mod
    {
    }

    lemma BinaryResult(op: Kind, a: int64, b: int64, vars: Store)
      requires 5 <= OpLevel(op) <= 11
      ensures Apply(op, a, b).Some? && Combine(op, a, b, vars) == Ok(Apply(op, a, b).value, vars)
    {
    }

    /** "|", "^", "&", comparisons, shifts, "+" and "-". */
    method RoundBinary(k: nat, ghost ts: seq<Token>, ghost before: Store, ghost t: Tree, ghost r: seq<Token>,
        val1: int64)
      returns (ok: bool, val: int64, ghost t': Tree, ghost r': seq<Token>)
      requires 5 <= k <= 11 && |ts| > 0 && OpLevel(curtok) == k && Looping(k, ts, before, t, r, val1)
      modifies this
      decreases MAX_EXPR_RECURSION_LEVEL - |stack|, |r| + 1, 20 - k, 0
      ensures ok ==> stack == old(stack) && expression == old(expression) && noeval == old(noeval)
      ensures RoundDone(k, ts, before, |r|, |old(stack)|, old(noeval) > 0, ok, val, t', r')
    {
      hide Lookup, Eval, Lex, Stream, Parse, Follow, ParseLoop, IsGrammar, Run, Reads, Live, Looping, Lost, BranchRead;
      hide Apply, Combine, SkipsRight, OpLevel, Stands;
      t', r', val := t, r, 0;
      var op := curtok;
      LoopHead(k, ts, before, t, r, val1);
      BinaryOperator(op, val1);
      ghost var mid := vars;
      var val2;
      ok, val2 := RightOperand(k, ts, before, t, r, false);
      if ok {
        RightIs(k + 1, r, mid, noeval > 0, false, val2);
        BinaryResult(op, val1, val2, vars);
        val := Apply(op, val1, val2).value;
        t', r' := EndRound(k, Num, ts, before, t, r, noeval > 0, val);
      }
    }

    /** ",": the left value is dropped. */
    method RoundComma(ghost ts: seq<Token>, ghost before: Store, ghost t: Tree, ghost r: seq<Token>)
      returns (ok: bool, val: int64, ghost t': Tree, ghost r': seq<Token>)
      requires |ts| > 0 && curtok == Comma && exists v :: Looping(0, ts, before, t, r, v)
      modifies this
      decreases MAX_EXPR_RECURSION_LEVEL - |stack|, |r| + 1, 20, 0
      ensures ok ==> stack == old(stack) && expression == old(expression) && noeval == old(noeval)
      ensures RoundDone(0, ts, before, |r|, |old(stack)|, old(noeval) > 0, ok, val, t', r')
    {
      hide Lookup, Eval, Lex, Stream, Parse, Follow, ParseLoop, IsGrammar, Run, Reads, Live, Looping, Lost, BranchRead;
      hide Stands;
      t', r' := t, r;
      ghost var v :| Looping(0, ts, before, t, r, v);
      LoopHead(0, ts, before, t, r, v);
      ghost var mid := vars;
      ok, val := RightOperand(0, ts, before, t, r, false);
      if ok {
        RightIs(1, r, mid, noeval > 0, false, val);
        ghost var p := Follow(1, r);
        Extend(0, ts, before, t, r, noeval > 0, val);
        t', r' := Bin(Comma, t, p.tree), if p.Parsed? then p.rest else r;
      }
    }

    /** "||" and "&&": noeval is raised while a right operand is skipped. */
    method RoundLogical(k: nat, ghost ts: seq<Token>, ghost before: Store, ghost t: Tree, ghost r: seq<Token>,
        val1: int64)
      returns (ok: bool, val: int64, ghost t': Tree, ghost r': seq<Token>)
      requires (k == 3 || k == 4) && |ts| > 0 && OpLevel(curtok) == k && Looping(k, ts, before, t, r, val1)
      modifies this
      decreases MAX_EXPR_RECURSION_LEVEL - |stack|, |r| + 1, 20 - k, 0
      ensures ok ==> stack == old(stack) && expression == old(expression) && noeval == old(noeval)
      ensures RoundDone(k, ts, before, |r|, |old(stack)|, old(noeval) > 0, ok, val, t', r')
    {
      hide Lookup, Eval, Lex, Stream, Parse, Follow, ParseLoop, IsGrammar, Run, Reads, Live, Looping, Lost, BranchRead;
      hide Combine, SkipsRight, OpLevel, Truth, Stands;
      t', r', val := t, r, 0;
      var op := curtok;
      LoopHead(k, ts, before, t, r, val1);
      LogicalOperator(op, val1);
      var setNoeval := if op == LOr then val1 != 0 else val1 == 0;
      ghost var mid := vars;
      var val2;
      ok, val2 := RightOperand(k, ts, before, t, r, setNoeval);
      if ok {
        RightIs(k + 1, r, mid, noeval > 0 || setNoeval, setNoeval, val2);
        if noeval == 0 { LogicalResult(op, val1, val2, vars); }
        if setNoeval { SkippedRun(Follow(k + 1, r).tree, mid); }
        val := Truth(if op == LOr then val1 != 0 || val2 != 0 else val1 != 0 && val2 != 0);
        t', r' := EndRound(k, op, ts, before, t, r, noeval > 0 || setNoeval, val);
      }
    }

    /** "*", "/" and "%". After INTMAX_MIN % -1 the source goes on without setting lasttok. */
    method RoundMulDiv(ghost ts: seq<Token>, ghost before: Store, ghost t: Tree, ghost r: seq<Token>, val1: int64)
      returns (ok: bool, val: int64, ghost t': Tree, ghost r': seq<Token>)
      requires |ts| > 0 && OpLevel(curtok) == 12 && Looping(12, ts, before, t, r, val1)
      modifies this
      decreases MAX_EXPR_RECURSION_LEVEL - |stack|, |r| + 1, 8, 0
      ensures ok ==> stack == old(stack) && expression == old(expression) && noeval == old(noeval)
      ensures RoundDone(12, ts, before, |r|, |old(stack)|, old(noeval) > 0, ok, val, t', r')
    {
      hide Lookup, Eval, Lex, Stream, Parse, Follow, ParseLoop, IsGrammar, Run, Reads, Live, Looping, Lost;
      hide Stands;
      t', r', val := t, r, 0;
      var op := curtok;
      LoopHead(12, ts, before, t, r, val1);
      ghost var mid := vars;
      var val2;
      ok, val2 := RightOperand(12, ts, before, t, r, false);
      if ok {
        RightIs(13, r, mid, noeval > 0, false, val2);
        ok, val, t', r' := EndMulDiv(op, ts, before, t, r, val1, val2);
      }
    }

    /** The end of a round of expmuldiv. */
    method EndMulDiv(op: Kind, ghost ts: seq<Token>, ghost before: Store, ghost t: Tree, ghost r: seq<Token>,
        val1: int64, val2: int64) returns (ok: bool, val: int64, ghost t': Tree, ghost r': seq<Token>)
      requires |ts| > |r| >= 2 && r[0] == Sym(op) && OpLevel(op) == 12 && Parse(12, ts) == ParseLoop(12, t, r)
      requires |stack| <= MAX_EXPR_RECURSION_LEVEL && Stands(Follow(13, r))
      requires var o1 := Run(env, t, before, |stack|, noeval > 0);
               o1.Ok? && (noeval == 0 ==> val1 == o1.value) &&
               Ran(Follow(13, r).tree, o1.vars, val2) && Named(13, Follow(13, r), o1.vars, val2)
      modifies `lasttok
      ensures RoundDone(12, ts, before, |r|, |stack|, noeval > 0, ok, val, t', r')
    {
      hide Lookup, Eval, Lex, Stream, Parse, Follow, ParseLoop, IsGrammar, Run, Apply, Live, Reads, Stands, Named, Lost;
      hide Looping, Fires, SkipsRight;
      t', r' := t, r;
      ghost var p := Follow(13, r);
      var done;
      ok, done, val := ApplyMulDiv(op, val1, val2);
      MulDivResult(op, val1, val2, vars);
      if !ok {
        OperatorFails(12, t, r, env, before, |stack|);
      } else if done {
        MinModMarked(before, t, r, val1, val2);
        Extend(12, ts, before, t, r, noeval > 0, val);
        t', r' := Bin(op, t, p.tree), if p.Parsed? then p.rest else r;
      } else {
        NotFired(t, r, before, val1, val2);
        t', r' := EndRound(12, Num, ts, before, t, r, noeval > 0, val);
      }
    }

    lemma MulDivResult(op: Kind, a: int64, b: int64, vars: Store)
      requires OpLevel(op) == 12
      ensures (op == Mul || op == Div || op == Mod) && !SkipsRight(op, a)
      ensures var c := Apply(op, a, b); Combine(op, a, b, vars) == if c.Some? then Ok(c.value, vars) else Error(vars)
    {
      hide Apply;
    }

    /** INTMAX_MIN % -1: lasttok is what the right operand has left. */
    lemma MinModMarked(before: Store, t: Tree, r: seq<Token>, val1: int64, val2: int64)
      requires |r| >= 2 && |stack| <= MAX_EXPR_RECURSION_LEVEL
      requires var o1 := Run(env, t, before, |stack|, noeval > 0);
               o1.Ok? && (noeval == 0 ==> o1.value == val1) &&
               Ran(Follow(13, r).tree, o1.vars, val2) && Named(13, Follow(13, r), o1.vars, val2)
      requires val1 == INTMAX_MIN && val2 == -1
      ensures Follow(13, r).Parsed? ==> Marked(Bin(Mod, t, Follow(13, r).tree), before)
    {
      hide Lookup, Lex, Stream, Eval, Parse, Follow, WellFormed, Yield, Level;
      FollowSound(13, r);
      var p, mid := Follow(13, r), Run(env, t, before, |stack|, noeval > 0).vars;
      if p.Parsed? {
        assert !Fires(p.tree, env, mid, |stack|, noeval > 0) by { TightLevel(p.tree); }
        if p.tree.Target? && noeval == 0 { NameRun(p.tree.name, Sym(Eq), env, mid, |stack|, false); }
      }
    }

    lemma TightLevel(t: Tree)
      requires Level(t) >= 13
      ensures !(t.Bin? && t.op == Mod)
    {
    }

    lemma NotFired(t: Tree, r: seq<Token>, before: Store, val1: int64, val2: int64)
      requires |r| > 0 && r[0].Sym? && |stack| <= MAX_EXPR_RECURSION_LEVEL
      requires var o1 := Run(env, t, before, |stack|, noeval > 0);
               o1.Ok? && (noeval == 0 ==> o1.value == val1) && Ran(Follow(13, r).tree, o1.vars, val2)
      requires !(r[0].kind == Mod && val1 == INTMAX_MIN && val2 == -1)
      ensures !Fires(Bin(r[0].kind, t, Follow(13, r).tree), env, before, |stack|, noeval > 0)
    {
      hide Lookup, Lex, Stream, Eval, Parse, Follow;
    }

    /** The arithmetic of expmuldiv; done marks the `continue` after INTMAX_MIN % -1. */
    method ApplyMulDiv(op: Kind, val1: int64, val2: int64) returns (ok: bool, done: bool, val: int64)
      requires op == Mul || op == Div || op == Mod
      ensures ok && done <==> op == Mod && val1 == INTMAX_MIN && val2 == -1
      ensures ok && done ==> val == 0
      ensures noeval == 0 ==> var c := Apply(op, val1, val2); ok == c.Some? && (ok ==> val == c.value)
      ensures noeval > 0 ==> ok
    {
      var divisor := val2;
      ok, done, val := true, false, 0;
      if (op == Div || op == Mod) && divisor == 0 {
        if noeval == 0 {
          return false, false, 0;
        }
        divisor := 1;
      } else if op == Mod && val1 == INTMAX_MIN && divisor == -1 {
        ApplyAssignable(Mod, val1, val2);
        return true, true, 0;
      } else if op == Div && val1 == INTMAX_MIN && divisor == -1 {
        ApplyAssignable(Div, val1, val2);
        divisor := 1;
      }
      if op == Mul {
        val := Int64.Mul(val1, divisor);
      } else if op == Div {
        val := Wrap(TruncDiv(val1, divisor));
      } else {
        val := Wrap(TruncMod(val1, divisor));
      }
    }

    /** "**" associates to the right. */
    method ExpPower(ghost ts: seq<Token>, ghost before: Store) returns (ok: bool, val1: int64)
      requires Ready(ts, before)
      modifies this
      decreases MAX_EXPR_RECURSION_LEVEL - |stack|, |ts| + 1, 7, 0
      ensures ok ==> stack == old(stack) && expression == old(expression) && noeval == old(noeval)
      ensures Done(POWER, ts, before, |old(stack)|, old(noeval) > 0, ok, val1)
    {
      hide Lookup, Eval, Lex, Stream, Parse, Run, IsGrammar, Reads, Live, Done, Ran, Stands, Named;
      FirstToken(ts, before);
      ok, val1 := ExpUnary(ts, before);
      if !ok {
        LevelDone(POWER, ts, before, |old(stack)|, old(noeval) > 0, val1);
        return;
      }
      ghost var first := Parse(UNARY, ts);
      PowerHead(ts, before, val1);
      while curtok == Power
        invariant stack == old(stack) && expression == old(expression) && noeval == old(noeval)
        invariant
          if curtok == Power then
            first.Parsed? && IsSym(first.rest[0], Power) && Stands(first) && Ran(first.tree, before, val1)
          else Done(POWER, ts, before, |stack|, noeval > 0, true, val1)
        decreases curtok == Power
      {
        ok, val1 := RoundPower(ts, before, val1);
        if !ok {
          return;
        }
      }
    }

    lemma PowerHead(ts: seq<Token>, before: Store, v: int64)
      requires |ts| > 0 && |stack| <= MAX_EXPR_RECURSION_LEVEL && Done(UNARY, ts, before, |stack|, noeval > 0, true, v)
      ensures var p := Parse(UNARY, ts);
              if curtok == Power then p.Parsed? && IsSym(p.rest[0], Power) && Stands(p) && Ran(p.tree, before, v)
              else Done(POWER, ts, before, |stack|, noeval > 0, true, v)
    {
      hide Run, Parse, Stands, Ran, Marked;
      var p := Parse(UNARY, ts);
      Standing(p);
      if p.Parsed? { FirstOf(p.rest); }
      if curtok != Power {
        PlainLevel(POWER, ts);
        SameDone(POWER, ts, before, |stack|, noeval > 0, true, v);
      }
    }

    method RoundPower(ghost ts: seq<Token>, ghost before: Store, val1: int64) returns (ok: bool, val: int64)
      requires |ts| > 0 && Parse(UNARY, ts).Parsed? && IsSym(Parse(UNARY, ts).rest[0], Power)
      requires Stands(Parse(UNARY, ts)) && Ran(Parse(UNARY, ts).tree, before, val1)
      modifies this
      decreases MAX_EXPR_RECURSION_LEVEL - |stack|, |ts|, 21, 0
      ensures ok ==> stack == old(stack) && expression == old(expression) && noeval == old(noeval)
      ensures Done(POWER, ts, before, |old(stack)|, old(noeval) > 0, ok, val)
      ensures ok ==> curtok != Power
    {
      hide Lookup, Eval, Lex, Stream, Parse, Follow, Run, IsGrammar, Reads, Live, Done, Stands, OperandRead, Apply;
      ghost var first := Parse(UNARY, ts);
      Standing(first);
      FirstOf(first.rest);
      ghost var mid := vars;
      var val2;
      ok, val2 := Operand(POWER, first.rest);
      val := 0;
      if !ok {
        PowerFailed(ts, before, mid, |old(stack)|, old(noeval) > 0, val2);
        return;
      }
      OperandIs(POWER, first.rest, mid, val2);
      SetLast(Num, Follow(POWER, first.rest));
      ok, val := ApplyPower(val1, val2);
      PowerDone(ts, before, mid, val1, val2, ok, val);
    }

    lemma PowerFailed(ts: seq<Token>, before: Store, mid: Store, depth: nat, skip: bool, v: int64)
      requires |ts| > 0 && Parse(UNARY, ts).Parsed? && IsSym(Parse(UNARY, ts).rest[0], Power)
      requires depth <= MAX_EXPR_RECURSION_LEVEL
      requires var o := Run(env, Parse(UNARY, ts).tree, before, depth, skip); o.Ok? && mid == o.vars
      requires OperandRead(POWER, Parse(UNARY, ts).rest, mid, depth, skip, false, v)
      ensures Done(POWER, ts, before, depth, skip, false, 0)
    {
      hide Run, Parse, Follow, Stands, Ran, Named;
      var p := Parse(UNARY, ts);
      PowerParse(ts, p.tree, p.rest);
      BinRun(Power, p.tree, Follow(POWER, p.rest).tree, env, before, depth, skip, skip);
    }

    /** What an operand that has been read amounts to. */
    lemma OperandIs(k: nat, ts: seq<Token>, before: Store, v: int64)
      requires k <= PRIMARY && |ts| > 0 && |stack| <= MAX_EXPR_RECURSION_LEVEL
      requires OperandRead(k, ts, before, |stack|, noeval > 0, true, v)
      ensures Stands(Follow(k, ts)) && Ran(Follow(k, ts).tree, before, v) && Live() && !IsStep(lasttok)
    {
      hide Run, Follow, Stands, Ran, Named;
      Standing(Follow(k, ts));
    }

    /** The arithmetic of exppower. */
    method ApplyPower(val1: int64, val2: int64) returns (ok: bool, val: int64)
      ensures noeval == 0 ==> var c := Apply(Power, val1, val2); ok == c.Some? && (ok ==> val == c.value)
      ensures noeval > 0 ==> ok
    {
      if noeval == 0 {
        if val2 == 0 {
          return true, 1;
        }
        if val2 < 0 {
          return false, 0;
        }
        val := Ipow(val1, val2);
      } else {
        val := 1;
      }
      ok := true;
    }

    /** Both operands of "**" have been read. */
    lemma PowerDone(ts: seq<Token>, before: Store, mid: Store, val1: int64, val2: int64, ok: bool, val: int64)
      requires |ts| > 0 && Parse(UNARY, ts).Parsed? && IsSym(Parse(UNARY, ts).rest[0], Power)
      requires |stack| <= MAX_EXPR_RECURSION_LEVEL && lasttok != Str
      requires var o := Run(env, Parse(UNARY, ts).tree, before, |stack|, noeval > 0);
               o.Ok? && mid == o.vars && (noeval == 0 ==> val1 == o.value)
      requires var q := Follow(POWER, Parse(UNARY, ts).rest); Stands(q) && Ran(q.tree, mid, val2)
      requires if noeval > 0 then ok else var c := Apply(Power, val1, val2); ok == c.Some? && (ok ==> val == c.value)
      ensures Done(POWER, ts, before, |stack|, noeval > 0, ok, val) && curtok != Power
    {
      hide Run, Parse, Follow, Stands, Apply, Combine, Done, Finished;
      var p := Parse(UNARY, ts);
      var q := Follow(POWER, p.rest);
      PowerParse(ts, p.tree, p.rest);
      BinRun(Power, p.tree, q.tree, env, before, |stack|, noeval > 0, noeval > 0);
      PowerResult(val1, val2, vars);
      if noeval > 0 {
        SkippedRun(p.tree, before);
        SkippedRun(q.tree, before);
      }
      Standing(q);
      PowerFollows(p.rest);
      if q.Parsed? { FirstOf(q.rest); }
      if ok {
        Completed(POWER, ts, before, q, Bin(Power, p.tree, q.tree), val);
      } else {
        FailedDone(POWER, ts, before, |stack|, noeval > 0, val);
      }
    }

    method ExpUnary(ghost ts: seq<Token>, ghost before: Store) returns (ok: bool, val: int64)
      requires Ready(ts, before)
      modifies this
      decreases MAX_EXPR_RECURSION_LEVEL - |stack|, |ts| + 1, 6, 0
      ensures ok ==> stack == old(stack) && expression == old(expression) && noeval == old(noeval)
      ensures Done(UNARY, ts, before, |old(stack)|, old(noeval) > 0, ok, val)
    {
      hide Lookup, Eval, Lex, Stream, Parse, Follow, Run, IsGrammar, Reads, Live, Ready, Done, Stands, OperandRead;
      FirstToken(ts, before);
      FirstOf(ts);
      UnaryParse(ts);
      if !IsUnary(curtok) {
        ok, val := Exp0(ts, before);
        SameDone(UNARY, ts, before, |old(stack)|, old(noeval) > 0, ok, val);
        return;
      }
      var op := curtok;
      ok, val := Operand(UNARY, ts);
      if !ok {
        UnaryFailed(ts, before, |old(stack)|, old(noeval) > 0, val);
        return;
      }
      var v := val;
      val := ApplyUnary(op, val);
      OperandIs(UNARY, ts, before, v);
      SetLast(Num, Follow(UNARY, ts));
      UnaryDone(ts, before, op, v, val);
    }

    lemma PowerResult(a: int64, b: int64, vars: Store)
      ensures !SkipsRight(Power, a)
      ensures var c := Apply(Power, a, b);
              Combine(Power, a, b, vars) == if c.Some? then Ok(c.value, vars) else Error(vars)
    {
      hide Apply;
    }

    /** A phrase has been completed to u, which is not a name. */
    lemma Completed(k: nat, ts: seq<Token>, before: Store, p: Parsed, u: Tree, v: int64)
      requires k <= PRIMARY && |ts| > 0 && Parse(k, ts) == WithTree(p, u) && Stands(p) && Ran(u, before, v)
      requires !IsName(u) && !(u.Bin? && u.op == Mod) && (k >= CONDITIONAL ==> lasttok != Str)
      ensures Done(k, ts, before, |stack|, noeval > 0, true, v)
    {
      hide Run, Parse, Stands;
      Standing(p);
    }

    lemma UnaryFailed(ts: seq<Token>, before: Store, depth: nat, skip: bool, v: int64)
      requires |ts| > 0 && ts[0].Sym? && IsUnary(ts[0].kind) && depth <= MAX_EXPR_RECURSION_LEVEL
      requires OperandRead(UNARY, ts, before, depth, skip, false, v)
      ensures Done(UNARY, ts, before, depth, skip, false, v)
    {
      hide Run, Parse, Follow, Stands, Ran, Named;
      UnaryParse(ts);
      UnaryRun(ts[0].kind, Follow(UNARY, ts).tree, env, before, depth, skip);
    }

    lemma UnaryDone(ts: seq<Token>, before: Store, op: Kind, v: int64, val: int64)
      requires |ts| > 0 && ts[0] == Sym(op) && IsUnary(op) && lasttok != Str && val == ApplyUnary(op, v)
      requires Stands(Follow(UNARY, ts)) && Ran(Follow(UNARY, ts).tree, before, v)
      ensures Done(UNARY, ts, before, |stack|, noeval > 0, true, val)
    {
      hide Run, Parse, Follow, Stands, ApplyUnary, Done, Finished;
      UnaryParse(ts);
      var q := Follow(UNARY, ts);
      UnaryRun(op, q.tree, env, before, |stack|, noeval > 0);
      if noeval > 0 { SkippedRun(q.tree, before); }
      Completed(UNARY, ts, before, q, Unary(op, q.tree), val);
    }

    method ExpAssign(ghost ts: seq<Token>, ghost before: Store) returns (ok: bool, value: int64)
      requires Ready(ts, before)
      modifies this
      decreases MAX_EXPR_RECURSION_LEVEL - |stack|, |ts| + 1, 19, 0
      ensures ok ==> stack == old(stack) && expression == old(expression) && noeval == old(noeval)
      ensures Done(ASSIGNMENT, ts, before, |old(stack)|, old(noeval) > 0, ok, value)
    {
      hide Lookup, Eval, Lex, Stream, Parse, Run, IsGrammar, Reads, Live, Holds, Ready, Done, Stands;
      FirstToken(ts, before);
      ok, value := Phrase(CONDITIONAL, ts, before);
      if !ok {
        LevelDone(ASSIGNMENT, ts, before, |old(stack)|, old(noeval) > 0, value);
        return;
      }
      ghost var p := Parse(CONDITIONAL, ts);
      AssignHead(ts, before, value);
      if curtok == Eq || curtok == OpAssign {
        ok, value := Assignment(ts, before, p.tree, p.rest, value);
      }
    }

    lemma AssignHead(ts: seq<Token>, before: Store, v: int64)
      requires |ts| > 0 && |stack| <= MAX_EXPR_RECURSION_LEVEL
      requires Done(CONDITIONAL, ts, before, |stack|, noeval > 0, true, v)
      ensures var p := Parse(CONDITIONAL, ts);
              if curtok == Eq || curtok == OpAssign then
                && p.Parsed? && |p.rest| >= 2 && (IsSym(p.rest[0], Eq) || p.rest[0].AssignOp?)
                && Stands(p) && Ran(p.tree, before, v) && Marked(p.tree, before)
              else Done(ASSIGNMENT, ts, before, |stack|, noeval > 0, true, v)
    {
      hide Run, Parse, Stands, Ran, Marked;
      var p := Parse(CONDITIONAL, ts);
      Standing(p);
      if p.Parsed? { FirstOf(p.rest); }
      if curtok != Eq && curtok != OpAssign {
        PlainLevel(ASSIGNMENT, ts);
        SameDone(ASSIGNMENT, ts, before, |stack|, noeval > 0, true, v);
      }
    }

    /** "=" or an operator such as "+=" behind the left side t. */
    method Assignment(ghost ts: seq<Token>, ghost before: Store, ghost t: Tree, ghost r: seq<Token>, lvalue: int64)
      returns (ok: bool, value: int64)
      requires |ts| > 0 && |r| >= 2 && Parse(CONDITIONAL, ts) == Parsed(t, r) && (IsSym(r[0], Eq) || r[0].AssignOp?)
      requires Stands(Parsed(t, r)) && Ran(t, before, lvalue) && Marked(t, before)
      modifies this
      decreases MAX_EXPR_RECURSION_LEVEL - |stack|, |r| + 1, 21, 1
      ensures ok ==> stack == old(stack) && expression == old(expression) && noeval == old(noeval)
      ensures Done(ASSIGNMENT, ts, before, |old(stack)|, old(noeval) > 0, ok, value)
    {
      hide Lookup, Eval, Lex, Stream, Parse, Follow, Fires, Conclude, IsGrammar, Run, Marked, IsLeftSide, IsAssignable;
      hide Reads, Live, Stands, Done, OperandRead;
      Standing(Parsed(t, r));
      FirstOf(r);
      value := 0;
      if lasttok != Str {
        Unmarked(t, before);
        NotAssignable(ts, t, r, env, before, |stack|, noeval > 0);
        FailedDone(ASSIGNMENT, ts, before, |stack|, noeval > 0, 0);
        return false, 0;
      }
      LeftSide(t, r, before);
      var special := curtok == OpAssign;
      var op := assigntok;
      var lhs := tokstr.value;
      ghost var mid := vars;
      ok, value := Operand(ASSIGNMENT, r);
      if !ok {
        AssignFailed(ts, before, t, r, mid, |old(stack)|, old(noeval) > 0, value);
        return;
      }
      OperandIs(ASSIGNMENT, r, mid, value);
      var rhs := value;
      ghost var end := vars;
      ok, value := StoreAway(r[0], Follow(ASSIGNMENT, r), special, op, lhs, lvalue, rhs);
      AssignDone(ts, before, t, r, mid, end, lvalue, rhs, ok, value);
    }

    lemma Unmarked(t: Tree, before: Store)
      requires |stack| <= MAX_EXPR_RECURSION_LEVEL && Marked(t, before) && lasttok != Str
      ensures !IsName(t) && !Fires(t, env, before, |stack|, noeval > 0)
    {
      hide Fires;
    }

    /** What may be assigned to, and what tells so. */
    lemma LeftSide(t: Tree, r: seq<Token>, before: Store)
      requires |stack| <= MAX_EXPR_RECURSION_LEVEL && Marked(t, before) && lasttok == Str && |r| > 0
      requires curtok == KindOf(r[0]) && (IsSym(r[0], Eq) || r[0].AssignOp?)
      ensures (curtok == OpAssign <==> r[0].AssignOp?) && (IsName(t) || Fires(t, env, before, |stack|, noeval > 0))
      ensures IsLeftSide(t, r[0]) && (t.Target? <==> !r[0].AssignOp?) && tokstr == Some(NameOf(t))
    {
      hide Lookup, Eval, Lex, Stream, Fires, IsGrammar, Run;
      if !IsName(t) {
        FiresShape(t, env, before, |stack|, noeval > 0);
      }
    }

    /** The right side of an assignment fails. */
    lemma AssignFailed(ts: seq<Token>, before: Store, t: Tree, r: seq<Token>, mid: Store, depth: nat, skip: bool,
        v: int64)
      requires |ts| > 0 && |r| > 0 && Parse(CONDITIONAL, ts) == Parsed(t, r) && (IsSym(r[0], Eq) || r[0].AssignOp?)
      requires depth <= MAX_EXPR_RECURSION_LEVEL
      requires var o := Run(env, t, before, depth, skip); o.Ok? && mid == o.vars
      requires IsName(t) || Fires(t, env, before, depth, skip)
      requires IsLeftSide(t, r[0]) && (t.Target? <==> !r[0].AssignOp?)
      requires OperandRead(ASSIGNMENT, r, mid, depth, skip, false, v)
      ensures Done(ASSIGNMENT, ts, before, depth, skip, false, v)
    {
      hide Run, Parse, Follow, Stands, Ran, Named, Fires, IsLeftSide, MakeAssign;
      AssignParse(ts, t, r);
      AssignRun(t, r[0], Follow(ASSIGNMENT, r).tree, env, before, depth, skip);
    }

    /** Both sides of an assignment have been read, and the result stored. */
    lemma AssignDone(ts: seq<Token>, before: Store, t: Tree, r: seq<Token>, mid: Store, end: Store, lvalue: int64,
        rhs: int64, ok: bool, value: int64)
      requires |ts| > 0 && |r| > 0 && Parse(CONDITIONAL, ts) == Parsed(t, r) && (IsSym(r[0], Eq) || r[0].AssignOp?)
      requires |stack| <= MAX_EXPR_RECURSION_LEVEL && Stands(Follow(ASSIGNMENT, r))
      requires var o := Run(env, t, before, |stack|, noeval > 0);
               o.Ok? && mid == o.vars && (noeval == 0 ==> lvalue == o.value)
      requires IsName(t) || Fires(t, env, before, |stack|, noeval > 0)
      requires IsLeftSide(t, r[0]) && (t.Target? <==> !r[0].AssignOp?)
      requires var o := Run(env, Follow(ASSIGNMENT, r).tree, mid, |stack|, noeval > 0);
               o.Ok? && end == o.vars && (noeval == 0 ==> rhs == o.value)
      requires noeval > 0 ==> ok && vars == end
      requires noeval == 0 ==>
                 var o := Conclude(env, NameOf(t), r[0], lvalue, rhs, end);
                 if o.Error? then !ok && vars == o.vars else ok && o == Ok(value, vars)
      ensures Done(ASSIGNMENT, ts, before, |stack|, noeval > 0, ok, value)
    {
      hide Run, Parse, Follow, Stands, Fires, Conclude, IsLeftSide, MakeAssign;
      AssignParse(ts, t, r);
      var q := Follow(ASSIGNMENT, r);
      AssignRun(t, r[0], q.tree, env, before, |stack|, noeval > 0);
      if noeval > 0 { SkippedRun(t, before); SkippedRun(q.tree, before); }
      Standing(q);
      if q.Parsed? { AssignUnnamed(t, r[0], q.tree); }
    }

    lemma AssignUnnamed(t: Tree, op: Token, e: Tree)
      requires IsLeftSide(t, op)
      ensures !IsName(MakeAssign(t, op, e))
    {
    }

    /** The end of expassign: apply the operator, and bind the variable. */
    method Store(ghost tok: Token, special: bool, op: Kind, lhs: string, lvalue: int64, rhs: int64)
      returns (ok: bool, value: int64)
      requires special == tok.AssignOp? && (special ==> op == tok.op && IsAssignable(op))
      modifies `vars
      ensures noeval > 0 ==> ok && vars == old(vars)
      ensures noeval == 0 ==>
                var o := Conclude(env, lhs, tok, lvalue, rhs, old(vars));
                if o.Error? then !ok && vars == o.vars else ok && o == Ok(value, vars)
    {
      hide Apply;
      value := rhs;
      if special {
        if rhs != 0 || (op != Div && op != Mod) { ApplyAssignable(op, lvalue, rhs); }
        ApplyAssignable(op, lvalue, 1);
        ApplyZero(op, lvalue);
        if (op == Div || op == Mod) && value == 0 {
          if noeval == 0 {
            return false, 0;
          }
          value := 1;
        }
        value := if (op == Div || op == Mod) && lvalue == INTMAX_MIN && value == -1
                 then (if op == Div then INTMAX_MIN else 0)
                 else Apply(op, lvalue, value).value;
      }
      ok := true;
      if noeval == 0 {
        ok := BindVariable(lhs, Itos(value));
      }
    }

    /** Store, and forget the name. What will be read does not change. */
    method StoreAway(ghost tok: Token, ghost p: Parsed, special: bool, op: Kind, lhs: string, lvalue: int64,
        rhs: int64) returns (ok: bool, value: int64)
      requires special == tok.AssignOp? && (special ==> op == tok.op && IsAssignable(op)) && Stands(p)
      modifies `vars, `tokstr
      ensures Stands(p)
      ensures noeval > 0 ==> ok && vars == old(vars)
      ensures noeval == 0 ==>
                var o := Conclude(env, lhs, tok, lvalue, rhs, old(vars));
                if o.Error? then !ok && vars == o.vars else ok && o == Ok(value, vars)
    {
      hide Conclude, Stream, IsGrammar, IsAssignable;
      ok, value := Store(tok, special, op, lhs, lvalue, rhs);
      tokstr := None;
    }

    method ExpCond(ghost ts: seq<Token>, ghost before: Store) returns (ok: bool, rval: int64)
      requires Ready(ts, before)
      modifies this
      decreases MAX_EXPR_RECURSION_LEVEL - |stack|, |ts| + 1, 18, 0
      ensures ok ==> stack == old(stack) && expression == old(expression) && noeval == old(noeval)
      ensures Done(CONDITIONAL, ts, before, |old(stack)|, old(noeval) > 0, ok, rval)
    {
      hide Lookup, Eval, Lex, Stream, Parse, Run, IsGrammar, Reads, Live, Holds, Ready, Done, Stands;
      FirstToken(ts, before);
      ok, rval := Phrase(CONDITIONAL + 1, ts, before);
      if !ok {
        LevelDone(CONDITIONAL, ts, before, |old(stack)|, old(noeval) > 0, rval);
        return;
      }
      ghost var p := Parse(CONDITIONAL + 1, ts);
      CondHead(ts, before, rval);
      if curtok == Ques {
        ok, rval := CondBranches(ts, before, p.tree, p.rest, rval);
      }
    }

    lemma CondHead(ts: seq<Token>, before: Store, v: int64)
      requires |ts| > 0 && |stack| <= MAX_EXPR_RECURSION_LEVEL
      requires Done(CONDITIONAL + 1, ts, before, |stack|, noeval > 0, true, v)
      ensures var p := Parse(CONDITIONAL + 1, ts);
              if curtok == Ques then
                p.Parsed? && |p.rest| >= 2 && IsSym(p.rest[0], Ques) && Stands(p) && Ran(p.tree, before, v)
              else Done(CONDITIONAL, ts, before, |stack|, noeval > 0, true, v)
    {
      hide Run, Parse, Stands, Ran, Marked;
      var p := Parse(CONDITIONAL + 1, ts);
      Standing(p);
      if p.Parsed? { FirstOf(p.rest); }
      if curtok != Ques {
        PlainLevel(CONDITIONAL, ts);
        SameDone(CONDITIONAL, ts, before, |stack|, noeval > 0, true, v);
      }
    }

    /** "? a : b" behind the condition c. */
    method CondBranches(ghost ts: seq<Token>, ghost before: Store, ghost c: Tree, ghost r: seq<Token>, cval: int64)
      returns (ok: bool, rval: int64)
      requires |ts| > 0 && |r| >= 2 && Parse(CONDITIONAL + 1, ts) == Parsed(c, r) && IsSym(r[0], Ques)
      requires Stands(Parsed(c, r)) && Ran(c, before, cval)
      modifies this
      decreases MAX_EXPR_RECURSION_LEVEL - |stack|, |r| + 1, 21, 1
      ensures ok ==> stack == old(stack) && expression == old(expression) && noeval == old(noeval)
      ensures Done(CONDITIONAL, ts, before, |old(stack)|, old(noeval) > 0, ok, rval)
    {
      hide Lookup, Eval, Lex, Stream, Parse, Follow, Run, IsGrammar, Reads, Live, Done, Stands, BranchRead;
      rval := 0;
      Standing(Parsed(c, r));
      FirstOf(r);
      ghost var mid := vars;
      var val1;
      ok, val1 := Branch(0, r, cval == 0);
      CondFirst(ts, before, c, r, mid, |old(stack)|, old(noeval) > 0, cval, ok, val1);
      if !ok {
        return;
      }
      if curtok != Col {
        return false, 0;
      }
      ok, rval := CondElse(ts, before, c, r, mid, cval, val1);
    }

    /** The first branch has been read: whether ":" follows. */
    lemma CondFirst(ts: seq<Token>, before: Store, c: Tree, r: seq<Token>, mid: Store, depth: nat, skip: bool,
        cval: int64, ok: bool, v: int64)
      requires |ts| > 0 && |r| >= 2 && Parse(CONDITIONAL + 1, ts) == Parsed(c, r) && IsSym(r[0], Ques)
      requires depth <= MAX_EXPR_RECURSION_LEVEL
      requires var o := Run(env, c, before, depth, skip); o.Ok? && mid == o.vars && (!skip ==> cval == o.value)
      requires BranchRead(0, r, mid, depth, skip || cval == 0, cval == 0, ok, v)
      ensures !ok || curtok != Col ==>
                Done(CONDITIONAL, ts, before, depth, skip, false, 0)
      ensures ok && curtok == Col ==>
                var a := Follow(0, r);
                a.Parsed? && Stands(a) && IsSym(a.rest[0], Col) && |a.rest| >= 2 &&
                var o := Run(env, a.tree, mid, depth, skip || cval == 0);
                o.Ok? && vars == o.vars && (!skip && cval != 0 ==> v == o.value)
    {
      hide Run, Parse, Follow, Stands, Named;
      CondParse(ts, c, r);
      var a := Follow(0, r);
      if ok {
        Standing(a);
        if a.Parsed? { FirstOf(a.rest); }
      }
      if !ok || curtok != Col {
        CondUnfinished(c, a, before, depth, skip);
      }
    }

    lemma CondUnfinished(c: Tree, a: Parsed, before: Store, depth: nat, skip: bool)
      requires depth <= MAX_EXPR_RECURSION_LEVEL && Run(env, c, before, depth, skip).Ok?
      ensures var o1 := Run(env, c, before, depth, skip);
              var o2 := Run(env, a.tree, o1.vars, depth, skip || o1.value == 0);
              && (a.Fail? && o2.Ok? ==> Run(env, Cond(c, CutOff(a), Stuck), before, depth, skip) == Error(o2.vars))
              && (!a.Fail? ==> Run(env, Cond(c, CutOff(a), Stuck), before, depth, skip) == Error(o2.vars))
              && (o2.Error? ==>
                   && Run(env, Cond(c, CutOff(a), Stuck), before, depth, skip) == o2
                   && forall b :: Run(env, Cond(c, a.tree, b), before, depth, skip) == o2)
    {
      hide Run;
      var o1 := Run(env, c, before, depth, skip);
      CondRun(c, CutOff(a), Stuck, env, before, depth, skip);
      CutRun(a.tree, env, o1.vars, depth, skip || o1.value == 0);
      var o2 := Run(env, a.tree, o1.vars, depth, skip || o1.value == 0);
      if o2.Ok? { StuckRun(env, o2.vars, depth, skip || o1.value != 0); }
      forall b ensures o2.Error? ==> Run(env, Cond(c, a.tree, b), before, depth, skip) == o2 {
        CondRun(c, a.tree, b, env, before, depth, skip);
      }
    }

    /** ": b" behind the first branch. */
    method CondElse(ghost ts: seq<Token>, ghost before: Store, ghost c: Tree, ghost r: seq<Token>, ghost mid: Store,
        cval: int64, val1: int64)
      returns (ok: bool, rval: int64)
      requires |ts| > 0 && |r| >= 2 && Parse(CONDITIONAL + 1, ts) == Parsed(c, r) && IsSym(r[0], Ques)
      requires |stack| <= MAX_EXPR_RECURSION_LEVEL && Follow(0, r).Parsed? && IsSym(Follow(0, r).rest[0], Col)
      requires Stands(Follow(0, r)) && |Follow(0, r).rest| >= 2 && curtok == Col
      requires var o := Run(env, c, before, |stack|, noeval > 0);
               o.Ok? && mid == o.vars && (noeval == 0 ==> cval == o.value)
      requires var o := Run(env, Follow(0, r).tree, mid, |stack|, noeval > 0 || cval == 0);
               o.Ok? && vars == o.vars && (noeval == 0 && cval != 0 ==> val1 == o.value)
      modifies this
      decreases MAX_EXPR_RECURSION_LEVEL - |stack|, |r| + 1, 21, 0
      ensures ok ==> stack == old(stack) && expression == old(expression) && noeval == old(noeval)
      ensures Done(CONDITIONAL, ts, before, |old(stack)|, old(noeval) > 0, ok, rval)
    {
      hide Lookup, Eval, Lex, Stream, Parse, Follow, Run, IsGrammar, Reads, Live, Done, Stands, BranchRead;
      ghost var a, mid2 := Follow(0, r), vars;
      var val2;
      rval := 0;
      Standing(a);
      FirstOf(a.rest);
      ok, val2 := Branch(CONDITIONAL, a.rest, cval != 0);
      if !ok {
        CondSecond(ts, before, c, r, mid, mid2, |old(stack)|, old(noeval) > 0, cval, val2);
        return;
      }
      rval := if cval != 0 then val1 else val2;
      RightIs(CONDITIONAL, a.rest, mid2, noeval > 0 || cval != 0, cval != 0, val2);
      Standing(Follow(CONDITIONAL, a.rest));
      SetLast(CondMark, Follow(CONDITIONAL, a.rest));
      CondDone(ts, before, c, r, mid, mid2, cval, rval);
    }

    /** The second branch fails. */
    lemma CondSecond(ts: seq<Token>, before: Store, c: Tree, r: seq<Token>, mid: Store, mid2: Store, depth: nat,
        skip: bool, cval: int64, v: int64)
      requires |ts| > 0 && |r| > 0 && Parse(CONDITIONAL + 1, ts) == Parsed(c, r) && IsSym(r[0], Ques)
      requires depth <= MAX_EXPR_RECURSION_LEVEL && Follow(0, r).Parsed? && IsSym(Follow(0, r).rest[0], Col)
      requires var o := Run(env, c, before, depth, skip); o.Ok? && mid == o.vars && (!skip ==> cval == o.value)
      requires var o := Run(env, Follow(0, r).tree, mid, depth, skip || cval == 0); o.Ok? && mid2 == o.vars
      requires BranchRead(CONDITIONAL, Follow(0, r).rest, mid2, depth, skip || cval != 0, cval != 0, false, v)
      ensures Done(CONDITIONAL, ts, before, depth, skip, false, 0)
    {
      hide Run, Parse, Follow, Stands, Named;
      CondParse(ts, c, r);
      var a := Follow(0, r);
      CondRun(c, a.tree, Follow(CONDITIONAL, a.rest).tree, env, before, depth, skip);
    }

    /** The condition and both branches have been read. */
    lemma CondDone(ts: seq<Token>, before: Store, c: Tree, r: seq<Token>, mid: Store, mid2: Store, cval: int64,
        v: int64)
      requires |ts| > 0 && |r| > 0 && Parse(CONDITIONAL + 1, ts) == Parsed(c, r) && IsSym(r[0], Ques)
      requires |stack| <= MAX_EXPR_RECURSION_LEVEL && lasttok == CondMark
      requires Follow(0, r).Parsed? && IsSym(Follow(0, r).rest[0], Col)
      requires var o := Run(env, c, before, |stack|, noeval > 0);
               o.Ok? && mid == o.vars && (noeval == 0 ==> cval == o.value)
      requires var o := Run(env, Follow(0, r).tree, mid, |stack|, noeval > 0 || cval == 0);
               o.Ok? && mid2 == o.vars && (noeval == 0 && cval != 0 ==> v == o.value)
      requires var q := Follow(CONDITIONAL, Follow(0, r).rest);
               Stands(q) &&
               var o := Run(env, q.tree, mid2, |stack|, noeval > 0 || cval != 0);
               o.Ok? && vars == o.vars && (noeval == 0 && cval == 0 ==> v == o.value)
      ensures Done(CONDITIONAL, ts, before, |stack|, noeval > 0, true, v)
    {
      hide Run, Parse, Follow, Stands, Done, Finished;
      CondParse(ts, c, r);
      var a := Follow(0, r);
      var q := Follow(CONDITIONAL, a.rest);
      CondRun(c, a.tree, q.tree, env, before, |stack|, noeval > 0);
      Completed(CONDITIONAL, ts, before, q, Cond(c, a.tree, q.tree), v);
    }

    /** An operand behind the operator r[0], with noeval raised while it is only stepped over: the
        right side of "&&" and "||", and the branches of "?:", where a missing operand is noticed
        before descending. */
    method Branch(k: nat, ghost r: seq<Token>, raise: bool) returns (ok: bool, val: int64)
      requires k <= POWER && Reads(r) && |r| >= 2 && !IsStep(curtok) && curtok != End
      modifies this
      decreases MAX_EXPR_RECURSION_LEVEL - |stack|, |r| + 1, 0, 1
      ensures ok ==> stack == old(stack) && expression == old(expression) && noeval == old(noeval)
      ensures BranchRead(k, r, old(vars), |old(stack)|, old(noeval) > 0 || raise, raise, ok, val)
    {
      hide Lookup, Eval, Lex, Stream, Parse, Follow, Run, IsGrammar, Reads, OperandRead, BranchRead;
      FirstOf(r);
      if raise {
        RaiseNoeval(r);
      }
      ghost var skip := noeval > 0;
      ok, val := WantedOperand(k, r);
      BranchDone(k, r, old(vars), |old(stack)|, skip, raise, ok, val);
      if ok && raise {
        LowerNoeval(k, r, old(vars), |old(stack)|, skip, val);
      }
    }

    /** An operand, with the checks for a missing one. */
    method WantedOperand(k: nat, ghost r: seq<Token>) returns (ok: bool, val: int64)
      requires k <= POWER && Reads(r) && |r| >= 2 && !IsStep(curtok) && curtok != End
      modifies this
      decreases MAX_EXPR_RECURSION_LEVEL - |stack|, |r| + 1, 0, 0
      ensures ok ==> stack == old(stack) && expression == old(expression) && noeval == old(noeval)
      ensures OperandRead(k, r, old(vars), |old(stack)|, old(noeval) > 0, ok, val)
    {
      hide Lookup, Eval, Lex, Stream, Parse, Run, IsGrammar, Reads, Ready, Done, OperandRead;
      Following(r);
      val := 0;
      ok := ReadOperand(k, r);
      if !ok {
        FailedDone(k, r[1..], old(vars), |old(stack)|, old(noeval) > 0, val);
        OperandDone(k, r, old(vars), |old(stack)|, old(noeval) > 0, false, val);
        return;
      }
      FirstToken(r[1..], old(vars));
      FirstOf(r[1..]);
      if (k == 0 && (curtok == End || curtok == Col)) || (k == CONDITIONAL && curtok == End) {
        NoOperand(r[1..]);
        StuckFails(k, r[1..], env, old(vars), |stack|, noeval > 0);
        FailedDone(k, r[1..], old(vars), |old(stack)|, old(noeval) > 0, val);
        OperandDone(k, r, old(vars), |old(stack)|, old(noeval) > 0, false, val);
        return false, 0;
      }
      ok, val := Phrase(k, r[1..], old(vars));
      OperandDone(k, r, old(vars), |old(stack)|, old(noeval) > 0, ok, val);
    }

    method RaiseNoeval(ghost r: seq<Token>)
      requires Reads(r)
      modifies `noeval
      ensures Reads(r) && noeval == old(noeval) + 1
    {
      hide Stream, IsGrammar;
      noeval := noeval + 1;
    }

    /** The result of Branch: as that of Operand, but noeval may have been lowered again. */
    ghost predicate BranchRead(k: nat, r: seq<Token>, mid: Store, depth: nat, skip: bool, raise: bool, ok: bool,
        v: int64)
      reads this
      requires k <= PRIMARY && |r| > 0 && depth <= MAX_EXPR_RECURSION_LEVEL
    {
      var p := Follow(k, r);
      var o := Run(env, p.tree, mid, depth, skip);
      if o.Error? then !ok && vars == o.vars
      else
        && ok && depth == |stack| && Stands(p) && vars == o.vars && (!skip ==> v == o.value)
        && (!raise ==> skip == (noeval > 0) && Named(k, p, mid, v))
    }

    lemma BranchDone(k: nat, r: seq<Token>, mid: Store, depth: nat, skip: bool, raise: bool, ok: bool, v: int64)
      requires k <= PRIMARY && |r| > 0 && depth <= MAX_EXPR_RECURSION_LEVEL
      requires OperandRead(k, r, mid, depth, skip, ok, v)
      ensures BranchRead(k, r, mid, depth, skip, raise, ok, v)
    {
      hide Follow, Run, Stands, Named;
    }

    /** What will be read does not change. */
    method LowerNoeval(ghost k: nat, ghost r: seq<Token>, ghost mid: Store, ghost depth: nat, ghost skip: bool,
        ghost v: int64)
      requires noeval > 0 && k <= PRIMARY && |r| > 0 && depth <= MAX_EXPR_RECURSION_LEVEL
      requires BranchRead(k, r, mid, depth, skip, true, true, v)
      modifies `noeval
      ensures noeval == old(noeval) - 1
      ensures BranchRead(k, r, mid, depth, skip, true, true, v)
    {
      hide Follow, Run, Stream, IsGrammar;
      noeval := noeval - 1;
    }

    method Exp0(ghost ts: seq<Token>, ghost before: Store) returns (ok: bool, val: int64)
      requires Ready(ts, before)
      modifies this
      decreases MAX_EXPR_RECURSION_LEVEL - |stack|, |ts| + 1, 5, 1
      ensures ok ==> stack == old(stack) && expression == old(expression) && noeval == old(noeval)
      ensures Done(PRIMARY, ts, before, |old(stack)|, old(noeval) > 0, ok, val)
    {
      hide Lookup, Eval, Lex, Stream, Parse, Run, IsGrammar, Reads, Ready, Done;
      FirstToken(ts, before);
      FirstOf(ts);
      if curtok == PreInc || curtok == PreDec {
        ok, val := Exp0Step(ts, before);
      } else if curtok == LPar {
        ok, val := Exp0Paren(ts, before);
      } else if curtok == Num {
        val := tokval;
        ok := Exp0Number(ts, before, val);
      } else if curtok == Str {
        ok, val := Exp0Name(ts, before);
      } else {
        NoOperand(ts);
        StuckRun(env, before, |stack|, noeval > 0);
        FailedDone(PRIMARY, ts, before, |stack|, noeval > 0, 0);
        return false, 0;
      }
    }

    /** readtok behind the operand e, which has been evaluated to v. */
    method ReadBehind(ghost e: Tree, ghost ts: seq<Token>, ghost before: Store, ghost v: int64) returns (ok: bool)
      requires Live() && |ts| >= 2 && !IsStep(curtok) && Ran(e, before, v)
      requires ts[1..] == Stream(expression, tp, IsStep(curtok), ContextOf(curtok, lasttok))
      modifies this
      decreases MAX_EXPR_RECURSION_LEVEL - |stack|, 1, |expression| - tp, 3
      ensures ok ==> stack == old(stack) && expression == old(expression) && noeval == old(noeval)
      ensures ok ==> lasttok == old(curtok)
      ensures Finished(Behind(e, ts, IsStep(old(lasttok))), before, |old(stack)|, old(noeval) > 0, ok, v)
      ensures !ReadFails(ts[1..]) && !ts[1].Id? ==> ok && tokstr == old(tokstr)
    {
      hide Lookup, Eval, Lex, Stream, Run, IsGrammar, ReadFails, Holds, Reads, LookAhead, Behind, Finished;
      ghost var forced := IsStep(lasttok);
      ghost var mid := vars;
      ok := ReadToken(ts);
      if ReadFails(ts[1..]) {
        NothingRead(e, ts, forced, before, |old(stack)|, old(noeval) > 0, v);
      } else if !ts[1].Id? {
        NextReads(ts);
        NextRead(e, ts, forced, before, v);
      } else {
        StrayName(e, ts, before, mid, forced, |old(stack)|, old(noeval) > 0, ok, v);
      }
    }

    /** Behind e nothing can be read. */
    lemma NothingRead(e: Tree, ts: seq<Token>, forced: bool, before: Store, depth: nat, skip: bool, v: int64)
      requires |ts| >= 2 && ReadFails(ts[1..]) && depth <= MAX_EXPR_RECURSION_LEVEL
      requires var o := Run(env, e, before, depth, skip); o.Ok? && vars == o.vars
      ensures Finished(Behind(e, ts, forced), before, depth, skip, false, v)
    {
      hide Run, ReadFails, Stands, Ran;
      CutRun(e, env, before, depth, skip);
    }

    /** Behind e a token that is no name has been read. */
    lemma NextRead(e: Tree, ts: seq<Token>, forced: bool, before: Store, v: int64)
      requires |ts| >= 2 && !ReadFails(ts[1..]) && !ts[1].Id? && Reads(ts[1..]) && Ran(e, before, v)
      ensures Finished(Behind(e, ts, forced), before, |stack|, noeval > 0, true, v)
    {
      hide Run, ReadFails, Reads;
      assert ts[1..][0] == ts[1];
    }

    lemma NextReads(ts: seq<Token>)
      requires Live() && |ts| >= 2 && Holds(ts[1]) && !ts[1].Id? && !IsStep(lasttok)
      requires curtok != End ==> |ts| >= 3 && ts[2..] == Stream(expression, tp, IsStep(curtok), Plain)
      requires IsStep(curtok) ==> NameStart(At(expression, SkipSpace(expression, tp)))
      ensures Reads(ts[1..]) && |ts[1..]| > 0 && ts[1..][0] == ts[1]
    {
      hide Lex, Stream, IsGrammar;
      assert |ts| >= 3 ==> ts[1..][1..] == ts[2..];
    }

    /** A stray name has been read behind e. */
    lemma StrayName(e: Tree, ts: seq<Token>, before: Store, mid: Store, forced: bool, depth: nat, skip: bool, ok: bool,
        v: int64)
      requires |ts| >= 3 && !ReadFails(ts[1..]) && ts[1].Id? && depth <= MAX_EXPR_RECURSION_LEVEL
      requires var o := Run(env, e, before, depth, skip); o.Ok? && mid == o.vars && (!skip ==> v == o.value)
      requires var o := LookAhead(env, ts[1].name, mid, depth, skip, forced, ts[2]);
               if ok then o.Ok? && o.vars == vars && depth == |stack| && skip == (noeval > 0) && Live()
                   && curtok == Str && !IsStep(lasttok)
               else o == Error(vars)
      ensures Finished(Behind(e, ts, forced), before, depth, skip, ok, v)
    {
      hide Lookup, Eval, Run, IsGrammar, ReadFails;
      StrayRun(e, ts[1].name, env, before, depth, skip);
    }

    /** A constant. */
    method Exp0Number(ghost ts: seq<Token>, ghost before: Store, val: int64) returns (ok: bool)
      requires Ready(ts, before) && curtok == Num && val == tokval
      modifies this
      decreases MAX_EXPR_RECURSION_LEVEL - |stack|, |ts| + 1, 5, 0
      ensures ok ==> stack == old(stack) && expression == old(expression) && noeval == old(noeval)
      ensures Done(PRIMARY, ts, before, |old(stack)|, old(noeval) > 0, ok, val)
    {
      hide Lookup, Eval, Lex, Stream, Parse, Run, IsGrammar, Behind, Finished;
      FirstOf(ts);
      Following(ts);
      NumberParse(ts);
      ConstRun(val, env, before, |stack|, noeval > 0);
      ok := ReadBehind(Const(val), ts, before, val);
      PrimaryDone(ts, before, Const(val), ts, false, |old(stack)|, old(noeval) > 0, ok, val);
    }

    /** "(": a whole expression, up to the matching parenthesis. */
    method Exp0Paren(ghost ts: seq<Token>, ghost before: Store) returns (ok: bool, val: int64)
      requires Ready(ts, before) && curtok == LPar
      modifies this
      decreases MAX_EXPR_RECURSION_LEVEL - |stack|, |ts| + 1, 5, 0
      ensures ok ==> stack == old(stack) && expression == old(expression) && noeval == old(noeval)
      ensures Done(PRIMARY, ts, before, |old(stack)|, old(noeval) > 0, ok, val)
    {
      hide Lookup, Eval, Lex, Stream, Parse, Follow, Run, IsGrammar, Reads, Live, Ready, Done, Stands, OperandRead;
      hide Behind, Finished;
      FirstToken(ts, before);
      FirstOf(ts);
      ok, val := Operand(0, ts);
      ParenInner(ts, before, |old(stack)|, old(noeval) > 0, ok, val);
      if !ok || curtok != RPar {
        return false, 0;
      }
      ghost var q := Follow(0, ts);
      FirstOf(q.rest);
      Following(q.rest);
      ok := ReadBehind(Paren(q.tree), q.rest, before, val);
      PrimaryDone(ts, before, Paren(q.tree), q.rest, false, |old(stack)|, old(noeval) > 0, ok, val);
    }

    /** What stands between the parentheses has been read: whether ")" follows. */
    lemma ParenInner(ts: seq<Token>, before: Store, depth: nat, skip: bool, ok: bool, v: int64)
      requires |ts| > 0 && ts[0] == Sym(LPar) && depth <= MAX_EXPR_RECURSION_LEVEL
      requires OperandRead(0, ts, before, depth, skip, ok, v)
      ensures !ok || curtok != RPar ==> Done(PRIMARY, ts, before, depth, skip, false, 0)
      ensures ok && curtok == RPar ==>
                var q := Follow(0, ts);
                && q.Parsed? && IsSym(q.rest[0], RPar) && Reads(q.rest) && Ran(Paren(q.tree), before, v)
                && Parse(PRIMARY, ts) == Behind(Paren(q.tree), q.rest, false)
    {
      hide Run, Parse, Follow, Stands, Named, Behind, Reads;
      ParenParse(ts);
      var q := Follow(0, ts);
      ParenRun(q.tree, env, before, depth, skip);
      ParenRun(CutOff(q), env, before, depth, skip);
      CutRun(q.tree, env, before, depth, skip);
      if !ok && q.Parsed? { BehindFails(Paren(q.tree), q.rest, false, env, before, depth, skip); }
      if ok {
        Standing(q);
        if q.Parsed? { FirstOf(q.rest); }
      }
    }

    /** "++" or "--" in front of a name. */
    method Exp0Step(ghost ts: seq<Token>, ghost before: Store) returns (ok: bool, val: int64)
      requires Ready(ts, before) && IsStep(curtok)
      modifies this
      decreases MAX_EXPR_RECURSION_LEVEL - |stack|, |ts| + 1, 5, 0
      ensures ok ==> stack == old(stack) && expression == old(expression) && noeval == old(noeval)
      ensures Done(PRIMARY, ts, before, |old(stack)|, old(noeval) > 0, ok, val)
    {
      hide Lookup, Eval, Lex, Parse, Run, LookAhead, Done, IsGrammar, PeekFails, StrLong;
      val := 0;
      FirstOf(ts);
      StepFirst(ts);
      var stok := curtok;
      lasttok := curtok;
      ok := ReadToken(ts);
      if !ok {
        StepFailed(ts, before, |old(stack)|, old(noeval) > 0);
        return;
      }
      // readtok recognises "++" and "--" only in front of a name
      ok, val := PreStepped(ts, before, stok);
    }

    lemma StepFirst(ts: seq<Token>)
      requires Reads(ts) && IsStep(curtok)
      ensures |ts| >= 2 && ts[1].Id? && ts[1..] == Stream(expression, tp, true, Plain)
    {
      hide StrLong, IsGrammar;
      assert ts[1] == ts[1..][0];
    }

    lemma StepFailed(ts: seq<Token>, before: Store, depth: nat, skip: bool)
      requires |ts| >= 2 && ts[0].Sym? && IsStep(ts[0].kind) && ts[1].Id? && depth <= MAX_EXPR_RECURSION_LEVEL
      requires if ReadFails(ts[1..]) then vars == before
               else |ts| >= 3 && LookAhead(env, ts[1].name, before, depth, skip, true, ts[2]) == Error(vars)
      ensures Done(PRIMARY, ts, before, depth, skip, false, 0)
    {
      hide Run, Parse, LookAhead, PeekFails, Behind;
      PreParse(ts);
      assert ts[1..][1..] == ts[2..];
      if ReadFails(ts[1..]) {
        StuckRun(env, before, depth, skip);
      } else {
        PreRun(ts[1].name, ts[0].kind, ts[2], env, before, depth, skip);
        BehindFails(PreStep(ts[0].kind, ts[1].name), ts[1..], true, env, before, depth, skip);
      }
    }

    /** The name behind "++" or "--" has been read and looked up. */
    method PreStepped(ghost ts: seq<Token>, ghost before: Store, stok: Kind) returns (ok: bool, val: int64)
      requires |ts| >= 3 && ts[0] == Sym(stok) && IsStep(stok) && lasttok == stok && curtok == Str && Live()
      requires ts[1].Id? && tokstr == Some(ts[1].name) && ts[2..] == Stream(expression, tp, false, AfterStepped)
      requires !PeekFails(ts[2..])
      requires LookAhead(env, ts[1].name, before, |stack|, noeval > 0, true, ts[2]) == Ok(tokval, vars)
      modifies this
      decreases MAX_EXPR_RECURSION_LEVEL - |stack|, |ts|, 5, 0
      ensures ok ==> stack == old(stack) && expression == old(expression) && noeval == old(noeval)
      ensures Done(PRIMARY, ts, before, |old(stack)|, old(noeval) > 0, ok, val)
    {
      hide Lookup, Eval, Lex, Stream, Parse, Run, LookAhead, IsGrammar, Reads, Done, Stepped, PeekFails, Behind;
      hide Finished;
      PreParse(ts);
      PreRun(ts[1].name, stok, ts[2], env, before, |stack|, noeval > 0);
      LookSkipped(ts[1].name, true, ts[2], before, tokval);
      assert ts[1..][1..] == ts[2..];
      val := Stepped(stok, tokval);
      ok := BindStepped(PreStep(stok, ts[1].name), ts[1..], before, val, val);
      PrimaryDone(ts, before, PreStep(stok, ts[1].name), ts[1..], true, |old(stack)|, old(noeval) > 0, ok, val);
    }

    lemma LookSkipped(x: string, forced: bool, next: Token, before: Store, v: int64)
      requires |stack| <= MAX_EXPR_RECURSION_LEVEL
      requires LookAhead(env, x, before, |stack|, noeval > 0, forced, next) == Ok(v, vars)
      ensures noeval > 0 ==> vars == before && v == 0
    {
    }

    /** The end of "++" and "--": store the new value v, and read on behind the operand e, whose value
        is val. */
    method BindStepped(ghost e: Tree, ghost r: seq<Token>, ghost before: Store, v: int64, ghost val: int64)
      returns (ok: bool)
      requires Live() && |r| >= 2 && tokstr.Some? && curtok != End
      requires r[1..] == Stream(expression, tp, false, ContextOf(Num, lasttok))
      requires Run(env, e, before, |stack|, noeval > 0) ==
                 if noeval > 0 then Ok(0, vars) else Bind(env, vars, tokstr.value, v, val)
      modifies this
      decreases MAX_EXPR_RECURSION_LEVEL - |stack|, 1, |expression| - tp, 4
      ensures ok ==> stack == old(stack) && expression == old(expression) && noeval == old(noeval)
      ensures ok ==> lasttok == Num
      ensures Finished(Behind(e, r, IsStep(old(lasttok))), before, |old(stack)|, old(noeval) > 0, ok, val)
    {
      hide Lookup, Eval, Lex, Stream, Run, IsGrammar, Behind;
      ghost var forced := IsStep(lasttok);
      if noeval == 0 {
        ok := BindVariable(tokstr.value, Itos(v));
        if !ok {
          BehindFails(e, r, forced, env, before, |stack|, false);
          return;
        }
      }
      curtok := Num;
      ok := ReadBehind(e, r, before, val);
    }

    /** Is there a "++" or "--" behind the name? If not, everything is put back. */
    method PeekStep(ghost ts: seq<Token>) returns (stok: Kind)
      requires Reads(ts) && curtok == Str && |ts| >= 2 && !PeekFails(ts[1..])
      modifies this
      decreases MAX_EXPR_RECURSION_LEVEL - |stack|, |ts|, 5, 0
      ensures stack == old(stack) && expression == old(expression) && noeval == old(noeval) && vars == old(vars)
      ensures IsPost(stok) <==> ts[1].Sym? && IsPost(ts[1].kind)
      ensures IsPost(stok) ==> Reads(ts[1..]) && curtok == stok && ts[1] == Sym(stok) && tokstr == old(tokstr)
      ensures !IsPost(stok) ==> Save() == old(Save())
    {
      hide Lookup, Eval, Lex, Stream, LookAhead, IsGrammar, Reads, PeekFails, ReadFails;
      Following(ts);
      NoBad(ts);
      var ec := Save();
      tokstr := None;
      noeval := 1;
      var ok := PeekOn(ts);
      stok := curtok;
      if IsPost(stok) {
        PutBack(ec, ts[1..]);
      } else {
        Restore(ec);
      }
    }

    /** The token behind a name, read without evaluation. */
    method PeekOn(ghost ts: seq<Token>) returns (ok: bool)
      requires Live() && |ts| >= 2 && curtok == Str && !IsStep(lasttok) && noeval > 0 && !ReadFails(ts[1..])
      requires ts[1..] == Stream(expression, tp, false, AfterName)
      modifies this
      decreases MAX_EXPR_RECURSION_LEVEL - |stack|, 1, |expression| - tp, 3
      ensures ok && stack == old(stack) && expression == old(expression) && noeval == old(noeval) && vars == old(vars)
      ensures !ts[1].Id? ==> Reads(ts[1..])
      ensures curtok == KindOf(ts[1]) && (ts[1].Sym? ==> IsSymbol(ts[1].kind))
    {
      hide Lookup, Eval, Lex, Stream, IsGrammar, PeekFails, ReadFails;
      ok := ReadToken(ts);
    }

    lemma NoBad(ts: seq<Token>)
      requires Reads(ts) && curtok == Str && |ts| >= 2 && !PeekFails(ts[1..])
      ensures !ReadFails(ts[1..])
    {
      hide Lex, Stream, PeekFails, ReadFails, IsGrammar;
      PeekSame(expression, tp);
    }

    /** The name and noeval are put back. What will be read does not change. */
    method PutBack(ec: Frame, ghost rest: seq<Token>)
      modifies `tokstr, `noeval
      ensures tokstr == ec.tokstr && noeval == ec.noeval
      ensures |rest| > 0 && !rest[0].Id? && old(Reads(rest)) ==> Reads(rest)
    {
      hide Stream, IsGrammar;
      tokstr := ec.tokstr;
      noeval := ec.noeval;
    }

    /** A name, perhaps with "++" or "--" behind it. */
    method Exp0Name(ghost ts: seq<Token>, ghost before: Store) returns (ok: bool, val: int64)
      requires Ready(ts, before) && curtok == Str
      modifies this
      decreases MAX_EXPR_RECURSION_LEVEL - |stack|, |ts| + 1, 5, 0
      ensures ok ==> stack == old(stack) && expression == old(expression) && noeval == old(noeval)
      ensures Done(PRIMARY, ts, before, |old(stack)|, old(noeval) > 0, ok, val)
    {
      hide Lookup, Eval, Lex, Parse, Stream, LookAhead, IsGrammar, Done, PeekFails;
      FirstOf(ts);
      val := tokval;
      var stok := PeekStep(ts);
      if IsPost(stok) {
        ok, val := PostStepped(ts, before, stok, val);
      } else {
        ok := PlainName(ts, before, val);
      }
    }

    /** The operand e and the token behind it, at the start of r, have been read. */
    lemma PrimaryDone(ts: seq<Token>, before: Store, e: Tree, r: seq<Token>, forced: bool, depth: nat, skip: bool,
        ok: bool, v: int64)
      requires |ts| > 0 && |r| > 0 && depth <= MAX_EXPR_RECURSION_LEVEL && !IsName(e) && !e.Bin?
      requires Parse(PRIMARY, ts) == Behind(e, r, forced)
      requires Finished(Behind(e, r, forced), before, depth, skip, ok, v) && (ok ==> lasttok != Str)
      ensures Done(PRIMARY, ts, before, depth, skip, ok, v)
    {
      hide Run, Parse, Stands, Ran, ReadFails;
    }

    /** No "++" or "--" follows the name: its token is read again, now for good. */
    method PlainName(ghost ts: seq<Token>, ghost before: Store, ghost v: int64) returns (ok: bool)
      requires Ready(ts, before) && curtok == Str && v == tokval && |ts| >= 2
      requires !(ts[1].Sym? && IsPost(ts[1].kind))
      modifies this
      decreases MAX_EXPR_RECURSION_LEVEL - |stack|, |ts|, 5, 0
      ensures ok ==> stack == old(stack) && expression == old(expression) && noeval == old(noeval)
      ensures Done(PRIMARY, ts, before, |old(stack)|, old(noeval) > 0, ok, v)
    {
      hide Lookup, Eval, Lex, Stream, Parse, Run, LookAhead, IsGrammar, PeekFails, Behind, Finished, Done;
      ghost var x, next := ts[0].name, ts[1];
      ghost var e := if next == Sym(Eq) then Target(x) else Var(x);
      FirstOf(ts);
      Following(ts);
      NoBad(ts);
      NameRun(x, next, env, before, |stack|, noeval > 0);
      LookSkipped(x, false, next, before, v);
      ok := ReadBehind(e, ts, before, v);
      NameDone(ts, before, |old(stack)|, old(noeval) > 0, ok, v);
    }

    lemma NameDone(ts: seq<Token>, before: Store, depth: nat, skip: bool, ok: bool, v: int64)
      requires |ts| >= 2 && ts[0].Id? && !PeekFails(ts[1..]) && !ReadFails(ts[1..])
      requires !(ts[1].Sym? && IsPost(ts[1].kind)) && depth <= MAX_EXPR_RECURSION_LEVEL
      requires var e := if ts[1] == Sym(Eq) then Target(ts[0].name) else Var(ts[0].name);
               Finished(Behind(e, ts, false), before, depth, skip, ok, v)
      requires ok ==> lasttok == Str && (skip ==> v == 0) && (!ts[1].Id? ==> tokstr == Some(ts[0].name))
      ensures Done(PRIMARY, ts, before, depth, skip, ok, v)
    {
      hide Run, Parse, Stands, Ran, PeekFails;
      NameParse(ts);
      if ok && !ts[1].Id? {
        Standing(Parsed(if ts[1] == Sym(Eq) then Target(ts[0].name) else Var(ts[0].name), ts[1..]));
      }
    }

    lemma BehindName(ts: seq<Token>)
      requires |ts| >= 2 && Reads(ts[1..]) && IsPost(curtok)
      ensures |ts| >= 3 && ts[1] == Sym(curtok) && Live()
      ensures ts[1..][1..] == Stream(expression, tp, false, ContextOf(Num, Str))
    {
      hide Lex, Stream, IsGrammar;
    }

    /** The "++" or "--" behind a name has been read. */
    method PostStepped(ghost ts: seq<Token>, ghost before: Store, stok: Kind, v: int64) returns (ok: bool, val: int64)
      requires |ts| >= 2 && ts[0].Id? && Reads(ts[1..]) && IsPost(curtok) && stok == curtok
              && tokstr == Some(ts[0].name) && !PeekFails(ts[1..])
      requires LookAhead(env, ts[0].name, before, |stack|, noeval > 0, false, ts[1]) == Ok(v, vars)
      modifies this
      decreases MAX_EXPR_RECURSION_LEVEL - |stack|, |ts|, 5, 0
      ensures ok ==> stack == old(stack) && expression == old(expression) && noeval == old(noeval)
      ensures Done(PRIMARY, ts, before, |old(stack)|, old(noeval) > 0, ok, val)
    {
      hide Lookup, Eval, Lex, Stream, Parse, Run, LookAhead, IsGrammar, Reads, Done, Stepped, Holds, PeekFails, Behind;
      hide Finished;
      BehindName(ts);
      NameParse(ts);
      StepRun(ts[0].name, stok, ts[1], env, before, |stack|, noeval > 0);
      LookSkipped(ts[0].name, false, ts[1], before, v);
      val := v;
      lasttok := Str;
      ok := BindStepped(PostStep(ts[0].name, stok), ts[1..], before, Stepped(stok, val), val);
      PrimaryDone(ts, before, PostStep(ts[0].name, stok), ts[1..], false, |old(stack)|, old(noeval) > 0, ok, val);
    }

    // ---- the entry point ----

    /** evalexp: the value of expr, or valid == false; the store is what the evaluation has come to,
        and an error empties the context stack. */
    method EvalExp(expr: string) returns (val: int64, valid: bool)
      requires stack == [] && env == ShellEnv(env.readonly)
      modifies this
      ensures stack == []
      ensures var o := EvalText(env, expr, old(vars), 0);
              if o.Error? then !valid && val == 0 && vars == o.vars else valid && o == Ok(val, vars)
    {
      hide EvalText, IsGrammar, Eval, Lookup, TextTree;
      noeval := 0;
      valid, val := SubExpr(expr);
      if !valid {
        tokstr, expression := None, "";
        stack, noeval := [], 0;
        val := 0;
      }
    }
  }
}
