/** The precedence table of bash/expr.c:25-48, row by row: how two operators next to each other group. */
module ExprTable {
  import opened CStrings
  import opened ExprLex
  import opened ExprGrammar
  import opened ExprUnambiguous

  /** The rows of binary operators, from the weakest to the strongest. */
  predicate InRow(i: nat, op: Kind) {
    match i
    case 0 => op == Comma
    case 1 => op == LOr
    case 2 => op == LAnd
    case 3 => op == BOr
    case 4 => op == BXor
    case 5 => op == BAnd
    case 6 => op == EqEq || op == Neq
    case 7 => op == Leq || op == Geq || op == Lt || op == Gt
    case 8 => op == LSh || op == RSh
    case 9 => op == Plus || op == Minus
    case 10 => op == Mul || op == Div || op == Mod
    case 11 => op == Power
    case _ => false
  }

  lemma RowLevel(i: nat, op: Kind)
    requires InRow(i, op)
    ensures OpLevel(op) == (if i == 0 then 0 else i + 2) && OpLevel(op) <= POWER && (i == 11 <==> op == Power)
    ensures i == 0 <==> op == Comma
  {
  }

  /** x op y */
  function Pair(x: string, op: Kind, y: string): Tree { Bin(op, Var(x), Var(y)) }

  lemma PairYield(x: string, op: Kind, y: string)
    ensures Yield(Pair(x, op, y)) == [Id(x), Sym(op), Id(y)]
  {
  }

  lemma PairFormed(x: string, i: nat, op: Kind, y: string)
    requires InRow(i, op)
    ensures var t := Pair(x, op, y); WellFormed(t) && Level(t) == OpLevel(op)
  {
    hide OpLevel, InRow;
    RowLevel(i, op);
  }

  /** Two binary operators: the one of the stronger row binds first; within a row they group to the left,
      but powers to the right. */
  lemma TwoBinary(i: nat, p: Kind, j: nat, q: Kind, x: string, y: string, z: string)
    requires InRow(i, p) && InRow(j, q)
    ensures ParseAll([Id(x), Sym(p), Id(y), Sym(q), Id(z), Sym(End)]) ==
              Some(if i < j || (p == Power && q == Power) then Bin(p, Var(x), Bin(q, Var(y), Var(z)))
                   else Bin(q, Bin(p, Var(x), Var(y)), Var(z)))
  {
    RowLevel(i, p);
    RowLevel(j, q);
    var ts := [Id(x), Sym(p), Id(y), Sym(q), Id(z), Sym(End)];
    hide OpLevel, InRow, ParseAll, Yield;
    if i < j || (p == Power && q == Power) {
      var t := Bin(p, Var(x), Pair(y, q, z));
      PairFormed(y, j, q, z);
      PairYield(y, q, z);
      BinYield(p, Var(x), Pair(y, q, z));
      assert [Id(x)] + [Sym(p)] + [Id(y), Sym(q), Id(z)] + [Sym(End)] == ts;
      YieldIsParsed(t);
    } else {
      var t := Bin(q, Pair(x, p, y), Var(z));
      PairFormed(x, i, p, y);
      PairYield(x, p, y);
      BinYield(q, Pair(x, p, y), Var(z));
      assert [Id(x), Sym(p), Id(y)] + [Sym(q)] + [Id(z)] + [Sym(End)] == ts;
      YieldIsParsed(t);
    }
  }

  lemma BinYield(op: Kind, l: Tree, r: Tree)
    ensures Yield(Bin(op, l, r)) == Yield(l) + [Sym(op)] + Yield(r)
    ensures l.Var? ==> Yield(l) == [Id(l.name)]
    ensures r.Var? ==> Yield(r) == [Id(r.name)]
  {
  }

  /** Prefix operators bind more strongly than every binary operator, on either side of it. */
  lemma UnaryAndBinary(u: Kind, i: nat, p: Kind, x: string, y: string)
    requires InRow(i, p) && (u == Minus || u == Plus || u == Not || u == BNot)
    ensures ParseAll([Sym(u), Id(x), Sym(p), Id(y), Sym(End)]) == Some(Bin(p, Unary(u, Var(x)), Var(y)))
    ensures ParseAll([Id(x), Sym(p), Sym(u), Id(y), Sym(End)]) == Some(Bin(p, Var(x), Unary(u, Var(y))))
  {
    RowLevel(i, p);
    hide OpLevel, InRow, ParseAll;
    var t, t' := Bin(p, Unary(u, Var(x)), Var(y)), Bin(p, Var(x), Unary(u, Var(y)));
    assert Yield(Unary(u, Var(x))) == [Sym(u), Id(x)] && Yield(Unary(u, Var(y))) == [Sym(u), Id(y)];
    assert Yield(t) + [Sym(End)] == [Sym(u), Id(x), Sym(p), Id(y), Sym(End)];
    assert Yield(t') + [Sym(End)] == [Id(x), Sym(p), Sym(u), Id(y), Sym(End)];
    YieldIsParsed(t);
    YieldIsParsed(t');
  }

  /** Assignments reach to the next comma, and group to the right. */
  lemma AssignAndBinary(i: nat, p: Kind, x: string, y: string, z: string)
    requires InRow(i, p)
    ensures ParseAll([Id(x), Sym(Eq), Id(y), Sym(p), Id(z), Sym(End)]) ==
              Some(if p == Comma then Bin(Comma, Assign(x, Var(y)), Var(z)) else Assign(x, Pair(y, p, z)))
    ensures ParseAll([Id(x), Sym(Eq), Id(y), Sym(Eq), Id(z), Sym(End)]) == Some(Assign(x, Assign(y, Var(z))))
  {
    RowLevel(i, p);
    PairFormed(y, i, p, z);
    hide OpLevel, InRow, ParseAll;
    if p == Comma {
      var t := Bin(Comma, Assign(x, Var(y)), Var(z));
      assert Yield(Assign(x, Var(y))) == [Id(x), Sym(Eq), Id(y)];
      assert OpLevel(Comma) == 0;
      assert Yield(t) + [Sym(End)] == [Id(x), Sym(Eq), Id(y), Sym(p), Id(z), Sym(End)];
      YieldIsParsed(t);
    } else {
      var t := Assign(x, Pair(y, p, z));
      PairYield(y, p, z);
      assert Yield(t) + [Sym(End)] == [Id(x), Sym(Eq), Id(y), Sym(p), Id(z), Sym(End)];
      YieldIsParsed(t);
    }
    var t' := Assign(x, Assign(y, Var(z)));
    assert Yield(Assign(y, Var(z))) == [Id(y), Sym(Eq), Id(z)];
    assert Yield(t') + [Sym(End)] == [Id(x), Sym(Eq), Id(y), Sym(Eq), Id(z), Sym(End)];
    YieldIsParsed(t');
  }

  /** The same for op=. */
  lemma UpdateAndBinary(op: Kind, i: nat, p: Kind, x: string, y: string, z: string)
    requires InRow(i, p)
    ensures ParseAll([Id(x), AssignOp(op), Id(y), Sym(p), Id(z), Sym(End)]) ==
              Some(if p == Comma then Bin(Comma, Update(x, op, Var(y)), Var(z)) else Update(x, op, Pair(y, p, z)))
  {
    RowLevel(i, p);
    PairFormed(y, i, p, z);
    hide OpLevel, InRow, ParseAll;
    if p == Comma {
      var t := Bin(Comma, Update(x, op, Var(y)), Var(z));
      assert Yield(Update(x, op, Var(y))) == [Id(x), AssignOp(op), Id(y)];
      assert OpLevel(Comma) == 0;
      assert Yield(t) + [Sym(End)] == [Id(x), AssignOp(op), Id(y), Sym(p), Id(z), Sym(End)];
      YieldIsParsed(t);
    } else {
      var t := Update(x, op, Pair(y, p, z));
      PairYield(y, p, z);
      assert Yield(t) + [Sym(End)] == [Id(x), AssignOp(op), Id(y), Sym(p), Id(z), Sym(End)];
      YieldIsParsed(t);
    }
  }

  /** Conditionals bind more weakly than every binary operator but the comma, and group to the right. */
  lemma CondAndBinary(i: nat, p: Kind, x: string, y: string, z: string, w: string)
    requires InRow(i, p)
    ensures ParseAll([Id(x), Sym(p), Id(y), Sym(Ques), Id(z), Sym(Col), Id(w), Sym(End)]) ==
              Some(if p == Comma then Bin(Comma, Var(x), Cond(Var(y), Var(z), Var(w)))
                   else Cond(Pair(x, p, y), Var(z), Var(w)))
    ensures ParseAll([Id(x), Sym(Ques), Id(y), Sym(p), Id(z), Sym(Col), Id(w), Sym(End)]) ==
              Some(Cond(Var(x), Pair(y, p, z), Var(w)))
    ensures ParseAll([Id(x), Sym(Ques), Id(y), Sym(Col), Id(z), Sym(p), Id(w), Sym(End)]) ==
              Some(if p == Comma then Bin(Comma, Cond(Var(x), Var(y), Var(z)), Var(w))
                   else Cond(Var(x), Var(y), Pair(z, p, w)))
  {
    CondLeft(i, p, x, y, z, w);
    CondMiddle(i, p, x, y, z, w);
    CondRight(i, p, x, y, z, w);
  }

  lemma CondYield(x: string, y: string, z: string)
    ensures Yield(Cond(Var(x), Var(y), Var(z))) == [Id(x), Sym(Ques), Id(y), Sym(Col), Id(z)]
  {
  }

  lemma CondLeft(i: nat, p: Kind, x: string, y: string, z: string, w: string)
    requires InRow(i, p)
    ensures ParseAll([Id(x), Sym(p), Id(y), Sym(Ques), Id(z), Sym(Col), Id(w), Sym(End)]) ==
              Some(if p == Comma then Bin(Comma, Var(x), Cond(Var(y), Var(z), Var(w)))
                   else Cond(Pair(x, p, y), Var(z), Var(w)))
  {
    RowLevel(i, p);
    PairFormed(x, i, p, y);
    hide OpLevel, InRow, ParseAll;
    var t := if p == Comma then Bin(Comma, Var(x), Cond(Var(y), Var(z), Var(w)))
             else Cond(Pair(x, p, y), Var(z), Var(w));
    PairYield(x, p, y);
    CondYield(y, z, w);
    assert Yield(t) + [Sym(End)] == [Id(x), Sym(p), Id(y), Sym(Ques), Id(z), Sym(Col), Id(w), Sym(End)];
    YieldIsParsed(t);
  }

  lemma CondMiddle(i: nat, p: Kind, x: string, y: string, z: string, w: string)
    requires InRow(i, p)
    ensures ParseAll([Id(x), Sym(Ques), Id(y), Sym(p), Id(z), Sym(Col), Id(w), Sym(End)]) ==
              Some(Cond(Var(x), Pair(y, p, z), Var(w)))
  {
    RowLevel(i, p);
    PairFormed(y, i, p, z);
    hide OpLevel, InRow, ParseAll;
    var t := Cond(Var(x), Pair(y, p, z), Var(w));
    PairYield(y, p, z);
    assert Yield(t) + [Sym(End)] == [Id(x), Sym(Ques), Id(y), Sym(p), Id(z), Sym(Col), Id(w), Sym(End)];
    YieldIsParsed(t);
  }

  lemma CondRight(i: nat, p: Kind, x: string, y: string, z: string, w: string)
    requires InRow(i, p)
    ensures ParseAll([Id(x), Sym(Ques), Id(y), Sym(Col), Id(z), Sym(p), Id(w), Sym(End)]) ==
              Some(if p == Comma then Bin(Comma, Cond(Var(x), Var(y), Var(z)), Var(w))
                   else Cond(Var(x), Var(y), Pair(z, p, w)))
  {
    RowLevel(i, p);
    PairFormed(z, i, p, w);
    hide OpLevel, InRow, ParseAll;
    var t := if p == Comma then Bin(Comma, Cond(Var(x), Var(y), Var(z)), Var(w))
             else Cond(Var(x), Var(y), Pair(z, p, w));
    PairYield(z, p, w);
    CondYield(x, y, z);
    assert Yield(t) + [Sym(End)] == [Id(x), Sym(Ques), Id(y), Sym(Col), Id(z), Sym(p), Id(w), Sym(End)];
    YieldIsParsed(t);
  }
}
