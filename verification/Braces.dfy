/** Brace expansion, bash/braces.c:103-365 and 860-930: the recursive expander, and the
    denotation it computes. */
module Braces {
  import opened CStrings
  import opened BraceScan
  import opened BraceSequence

  // ---- products of lists of strings ----

  /** Every string of b behind every string of a, in the order of a. */
  function Product(a: seq<string>, b: seq<string>): (r: seq<string>)
    ensures |r| == |a| * |b|
  {
    if a == [] then []
    else Prefixed(a[0], b) + Product(a[1..], b)
  }

  function Prefixed(s: string, b: seq<string>): (r: seq<string>)
    ensures |r| == |b| && forall k :: 0 <= k < |b| ==> r[k] == s + b[k]
  {
    seq(|b|, k requires 0 <= k < |b| => s + b[k])
  }

  lemma {:induction false} ProductAt(a: seq<string>, b: seq<string>, i: nat, j: nat)
    requires i < |a| && j < |b|
    ensures i * |b| + j < |Product(a, b)| && Product(a, b)[i * |b| + j] == a[i] + b[j]
  {
    if i == 0 {
      assert a[0] + b[j] == Prefixed(a[0], b)[j];
    } else {
      ProductAt(a[1..], b, i - 1, j);
      assert i * |b| + j == |b| + ((i - 1) * |b| + j);
    }
  }

  /** The list of the empty string is the unit of the product on both sides. */
  lemma {:induction false} ProductUnit(a: seq<string>)
    ensures Product([""], a) == a && Product(a, [""]) == a
  {
    assert Prefixed("", a) == a by {
      forall k | 0 <= k < |a| ensures "" + a[k] == a[k] { }
    }
    assert [""][1..] == [];
    if a != [] {
      ProductUnit(a[1..]);
      assert Prefixed(a[0], [""]) == [a[0]] by { assert a[0] + "" == a[0]; }
    }
  }

  lemma {:induction false} ProductSplit(a1: seq<string>, a2: seq<string>, b: seq<string>)
    ensures Product(a1 + a2, b) == Product(a1, b) + Product(a2, b)
  {
    if a1 == [] {
      assert a1 + a2 == a2;
    } else {
      assert (a1 + a2)[1..] == a1[1..] + a2;
      ProductSplit(a1[1..], a2, b);
    }
  }

  lemma {:induction false} PrefixedProduct(s: string, b: seq<string>, c: seq<string>)
    ensures Product(Prefixed(s, b), c) == Prefixed(s, Product(b, c))
  {
    if b == [] {
      assert Prefixed(s, b) == [] && Prefixed(s, Product(b, c)) == [];
    } else {
      assert Prefixed(s, b)[1..] == Prefixed(s, b[1..]);
      PrefixedProduct(s, b[1..], c);
      assert Prefixed(s + b[0], c) == Prefixed(s, Prefixed(b[0], c)) by {
        forall k | 0 <= k < |c| ensures (s + b[0]) + c[k] == s + (b[0] + c[k]) { }
      }
      assert Prefixed(s, Prefixed(b[0], c) + Product(b[1..], c)) ==
             Prefixed(s, Prefixed(b[0], c)) + Prefixed(s, Product(b[1..], c));
    }
  }

  lemma {:induction false} ProductAssoc(a: seq<string>, b: seq<string>, c: seq<string>)
    ensures Product(Product(a, b), c) == Product(a, Product(b, c))
  {
    if a != [] {
      ProductSplit(Prefixed(a[0], b), Product(a[1..], b), c);
      PrefixedProduct(a[0], b, c);
      ProductAssoc(a[1..], b, c);
    }
  }

  /** array_concat: its shortcuts agree with the full product. */
  method ArrayConcat(arr1: seq<string>, arr2: seq<string>) returns (result: seq<string>)
    ensures result == Product(arr1, arr2)
  {
    ProductUnit(arr1);
    ProductUnit(arr2);
    if |arr1| == 1 && arr1[0] == "" {
      assert arr1 == [""];
      return arr2;
    }
    if |arr2| == 1 && arr2[0] == "" {
      assert arr2 == [""];
      return arr1;
    }
    result := [];
    for i := 0 to |arr1|
      invariant result == Product(arr1[..i], arr2)
    {
      result := AppendRow(result, arr1[i], arr2);
      assert arr1[..i + 1] == arr1[..i] + [arr1[i]];
      ProductSplit(arr1[..i], [arr1[i]], arr2);
      ProductRow(arr1[i], arr2);
    }
    assert arr1[..|arr1|] == arr1;
  }

  lemma ProductRow(s: string, b: seq<string>)
    ensures Product([s], b) == Prefixed(s, b)
  {
    assert [s][1..] == [];
  }

  /** The inner loop of array_concat. */
  method AppendRow(arr: seq<string>, s: string, arr2: seq<string>) returns (result: seq<string>)
    ensures result == arr + Prefixed(s, arr2)
  {
    result := arr;
    for j := 0 to |arr2|
      invariant result == arr + Prefixed(s, arr2)[..j]
    {
      result := result + [s + arr2[j]];
    }
  }

  // ---- expansion ----

  /** The first open brace that begins a brace expression, its close brace, and its kind. */
  datatype Expression = Expression(open: nat, close: nat, kind: Kind)

  predicate IsExpression(sub: Substitution, text: string, open: nat)
    requires open < |text|
  {
    var h := Gobble(sub, text, open + 1, '}');
    h.hit && (h.kind == Sequence ==> ValidSeqterm(text, open + 1, h.at))
  }

  function FindExpression(sub: Substitution, text: string, i: nat): (r: Option<Expression>)
    requires i <= |text|
    ensures r.Some? ==> i <= r.value.open < r.value.close < |text|
    ensures r.Some? ==> text[r.value.open] == '{' && text[r.value.close] == '}'
    ensures r.Some? ==> Gobble(sub, text, r.value.open + 1, '}') == Found(r.value.close, true, r.value.kind)
    decreases |text| - i
  {
    var g := Gobble(sub, text, i, '{');
    if !g.hit then None
    else if IsExpression(sub, text, g.at) then
      var h := Gobble(sub, text, g.at + 1, '}');
      Some(Expression(g.at, h.at, h.kind))
    else FindExpression(sub, text, g.at + 1)
  }

  predicate Within(pieces: seq<string>, size: nat) {
    forall k :: 0 <= k < |pieces| ==> |pieces[k]| <= size
  }

  /** The pieces of an amble between its top-level commas, from position start on. */
  function Pieces(sub: Substitution, text: string, start: nat): (r: seq<string>)
    requires start <= |text|
    ensures |r| > 0 && Within(r, |text|)
    decreases |text| - start
  {
    var g := Gobble(sub, text, start, ',');
    if g.hit then [text[start..g.at]] + Pieces(sub, text, g.at + 1) else [text[start..]]
  }

  /** Whether a sequence expression that cannot be expanded leaves the whole text as it is. */
  predicate Unexpanded(text: string, e: Expression)
    requires e.open < e.close < |text|
  {
    e.kind == Sequence && SeqTerm(text[e.open + 1..e.close]).None? && e.close + 1 == |text|
  }

  /** What a text expands to: the preamble, the amble and the postamble, multiplied. */
  function Expand(sub: Substitution, text: string): (r: seq<string>)
    decreases |text|, 1
  {
    match FindExpression(sub, text, 0)
    case None => [text]
    case Some(e) =>
      if Unexpanded(text, e) then [text]
      else Product(Product([text[..e.open]], ExpandInside(sub, text, e)), Expand(sub, text[e.close + 1..]))
  }

  /** What is between the braces. */
  function ExpandInside(sub: Substitution, text: string, e: Expression): seq<string>
    requires e.open < e.close < |text|
    decreases |text|, 0
  {
    var amble := text[e.open + 1..e.close];
    if e.kind == Sequence then
      match SeqTerm(amble)
      case Some(terms) => terms
      case None => [text[e.open..e.close + 1]]
    else ExpandAll(sub, Pieces(sub, amble, 0), |amble|)
  }

  /** The expansions of the pieces, one after the other. */
  function ExpandAll(sub: Substitution, pieces: seq<string>, size: nat): (r: seq<string>)
    requires Within(pieces, size)
    decreases size, 2, |pieces|
  {
    if pieces == [] then [] else Expand(sub, pieces[0]) + ExpandAll(sub, pieces[1..], size)
  }

  lemma {:induction false} ExpandAllSplit(sub: Substitution, p: seq<string>, q: seq<string>, size: nat)
    requires Within(p, size) && Within(q, size)
    ensures Within(p + q, size)
    ensures ExpandAll(sub, p + q, size) == ExpandAll(sub, p, size) + ExpandAll(sub, q, size)
  {
    hide Expand;
    if p == [] {
      assert p + q == q;
    } else {
      assert (p + q)[1..] == p[1..] + q;
      ExpandAllSplit(sub, p[1..], q, size);
    }
  }

  /** The empty text expands to itself. */
  lemma ExpandEmpty(sub: Substitution)
    ensures Expand(sub, "") == [""]
  {
  }

  // ---- quoted braces ----

  /** Every open brace from position i on is quoted, escaped, or behind a "$"; quoted is the open
      quote. Command and function substitutions are excluded. */
  predicate AllQuoted(text: string, i: nat, quoted: char)
    requires i <= |text|
    decreases |text| - i
  {
    if i == |text| then true
    else
      var c := text[i];
      if Escapes(c, quoted) || (c == '$' && At(text, i + 1) == '{' && quoted != '\'') then
        (c == '$' ==> !FunsubChar(At(text, i + 2))) && (i + 1 == |text| || AllQuoted(text, i + 2, quoted))
      else if StartsComsub(text, i, quoted) then false
      else if quoted != UNQUOTED then AllQuoted(text, i + 1, if c == quoted then UNQUOTED else quoted)
      else c != '{' && AllQuoted(text, i + 1, if c == '"' || c == '\'' || c == '`' then c else UNQUOTED)
  }

  lemma {:induction false} QuotedScan(sub: Substitution, text: string, i: nat, st: State)
    requires i <= |text| && !st.passNext && AllQuoted(text, i, st.quoted)
    ensures !Scan(sub, text, i, '{', st).hit
    decreases |text| - i
  {
    if i < |text| {
      var t := Step(sub, text, i, '{', st);
      if t.st.passNext {
        if i + 1 < |text| {
          assert Step(sub, text, i + 1, '{', t.st) == Go(i + 2, t.st.(passNext := false));
          QuotedScan(sub, text, i + 2, t.st.(passNext := false));
        }
      } else {
        QuotedScan(sub, text, i + 1, t.st);
      }
    }
  }

  /** A text whose open braces are all quoted expands to itself. */
  lemma QuotedExpand(sub: Substitution, text: string)
    requires AllQuoted(text, 0, UNQUOTED)
    ensures Expand(sub, text) == [text]
  {
    QuotedScan(sub, text, 0, Initial('{'));
  }

  // ---- the expander ----

  /** How an expression is expanded. */
  lemma ExpandSome(sub: Substitution, text: string)
    ensures match FindExpression(sub, text, 0)
            case None => Expand(sub, text) == [text]
            case Some(e) =>
              var amble := text[e.open + 1..e.close];
              var inside := if e.kind != Sequence then ExpandAll(sub, Pieces(sub, amble, 0), |amble|)
                            else if SeqTerm(amble).Some? then SeqTerm(amble).value
                            else [text[e.open..e.close + 1]];
              Expand(sub, text) == if Unexpanded(text, e) then [text]
                                   else Product(Product([text[..e.open]], inside), Expand(sub, text[e.close + 1..]))
  {
    hide FindExpression, Gobble, SeqTerm, Pieces, Product, ExpandAll;
  }

  lemma ExpandCommas(sub: Substitution, text: string, e: Expression)
    requires FindExpression(sub, text, 0) == Some(e) && e.kind == Commas
    ensures var amble := text[e.open + 1..e.close];
            Expand(sub, text) ==
              Product(Product([text[..e.open]], ExpandAll(sub, Pieces(sub, amble, 0), |amble|)),
                  Expand(sub, text[e.close + 1..]))
  {
    hide FindExpression, Gobble, SeqTerm, Pieces, Product, ExpandAll, Expand;
    ExpandSome(sub, text);
  }

  /** brace_expand. */
  method BraceExpand(sub: Substitution, text: string) returns (result: seq<string>)
    ensures result == Expand(sub, text)
    decreases |text|, 2
  {
    hide Expand, ExpandAll, FindExpression, Pieces, Gobble, Product, SeqTerm;
    ExpandSome(sub, text);
    var tlen := |text|;
    var i, c, etype := FirstExpression(sub, text);
    var preamble := text[..i];
    result := [preamble];
    // If no brace expression was found, the preamble is all of the text.
    if c != '{' {
      assert text[..i] == text;
      return;
    }
    var start := i + 1;
    c, i, etype := BraceGobbler(sub, text, tlen, start, '}');
    if c == '\0' {
      assert false;  // the expression has already been found complete
    }
    var amble := text[start..i];
    var tack;
    if etype == Sequence {
      var terms := ExpandSeqterm(amble);
      if terms.Some? {
        tack := terms.value;
      } else if i + 1 < tlen {
        // leave the term as it is, but go on behind it
        tack := [text[start - 1..i + 1]];
      } else {
        return [text];
      }
    } else {
      tack := ExpandAmble(sub, amble);
    }
    result := ArrayConcat(result, tack);
    ghost var before := result;
    var postamble := text[i + 1..];
    if postamble != "" {
      tack := BraceExpand(sub, postamble);
      result := ArrayConcat(result, tack);
    } else {
      ExpandEmpty(sub);
      ProductUnit(before);
    }
  }

  /** The loop of brace_expand: skip open braces that begin no brace expression. */
  method FirstExpression(sub: Substitution, text: string) returns (i: nat, c: char, etype: Kind)
    ensures i <= |text|
    ensures match FindExpression(sub, text, 0)
            case None => c != '{' && i == |text|
            case Some(e) => c == '{' && i == e.open
  {
    hide Gobble, ValidSeqterm;
    var tlen := |text|;
    i, c, etype := 0, '{', Neither;
    while c != '\0'
      invariant i <= tlen && c == '{' && FindExpression(sub, text, i) == FindExpression(sub, text, 0)
      decreases tlen - i
    {
      var g;
      c, g, etype := BraceGobbler(sub, text, tlen, i, '{');
      if g >= tlen {
        i := g;
        break;
      }
      var c1 := c;
      var start := g + 1;
      var j;
      c, j, etype := BraceGobbler(sub, text, tlen, start, '}');
      if etype == Sequence && !ValidSeqterm(text, start, j) {
        c := '\0';
      }
      if c == '\0' {
        i := g + 1;
        c := c1;
        continue;
      }
      i := g;
      c := c1;
      break;
    }
  }

  lemma PieceStep(sub: Substitution, text: string, start: nat)
    requires start <= |text|
    ensures var g := Gobble(sub, text, start, ',');
            ExpandAll(sub, Pieces(sub, text, start), |text|) ==
              Expand(sub, text[start..g.at]) + if g.hit then ExpandAll(sub, Pieces(sub, text, g.at + 1), |text|) else []
  {
    hide Expand;
    var g := Gobble(sub, text, start, ',');
    if g.hit {
      assert Pieces(sub, text, start)[1..] == Pieces(sub, text, g.at + 1);
    } else {
      assert Pieces(sub, text, start)[1..] == [] && text[start..g.at] == text[start..];
    }
  }

  /** expand_amble. */
  method ExpandAmble(sub: Substitution, text: string) returns (result: seq<string>)
    ensures result == ExpandAll(sub, Pieces(sub, text, 0), |text|)
    decreases |text|, 3
  {
    hide Expand, ExpandAll, Pieces, Gobble;
    var tlen := |text|;
    result := [];
    var start, i, c := 0, 0, ',';
    while c != '\0'
      invariant c != '\0' ==> start == i <= tlen
      invariant ExpandAll(sub, Pieces(sub, text, 0), tlen) ==
                  result + if c != '\0' then ExpandAll(sub, Pieces(sub, text, start), tlen) else []
      decreases c != '\0', tlen - i
    {
      var kind;
      PieceStep(sub, text, start);
      c, i, kind := BraceGobbler(sub, text, tlen, i, ',');
      var tem := text[start..i];
      var partial := BraceExpand(sub, tem);
      result := result + partial;
      i := i + 1;
      start := i;
    }
  }
}
