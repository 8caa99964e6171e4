/** Sequence expressions in braces, from their text to the list of their members: {1..9}, {09..-1},
    {a..z}, each with or without an increment behind it. */
module BraceRanges {
  import opened CStrings
  import opened Int64
  import opened Literals
  import opened BraceScan
  import opened BraceSequence
  import opened Braces

  // ---- the ends of a sequence ----

  function SignLength(t: string): nat { if IsSign(At(t, 0)) then 1 else 0 }

  /** Decimal digits behind an optional sign. */
  predicate Numeral(t: string) {
    SignLength(t) < |t| && forall k :: SignLength(t) <= k < |t| ==> IsDigit(t[k])
  }

  /** The number that a numeral denotes, which may be too large for an int64. */
  function Value(t: string): int
    requires Numeral(t)
  {
    var v := Positional(t[SignLength(t)..], 10);
    if t[0] == '-' then -v else v
  }

  predicate Fits(n: int) { INTMAX_MIN <= n <= INTMAX_MAX }

  predicate IsLetter(t: string) { |t| == 1 && IsAlpha(t[0]) }

  predicate IsEnd(t: string) { Numeral(t) || IsLetter(t) }

  predicate IsIncrement(z: string) { z == "" || Numeral(z) }

  /** Without an increment, and with the increment 0, the terms are one apart. */
  function Increment(z: string): int
    requires IsIncrement(z)
  {
    if z == "" || Value(z) == 0 then 1 else Value(z)
  }

  /** The text of a sequence; z is "" where there is no increment. */
  function SequenceText(x: string, y: string, z: string): string {
    x + ".." + y + Tail(z)
  }

  function Tail(z: string): string { if z == "" then "" else ".." + z }

  predicate ZeroPadded(x: string, y: string) { LeadingZero(x, |x|) || LeadingZero(y, |y|) }

  /** The longer end, if an end has a leading zero. */
  function Width(x: string, y: string): nat {
    if !ZeroPadded(x, y) then 0 else if |x| < |y| then |y| else |x|
  }

  /** The members of a sequence; None where there are none: ends of different kinds, numbers that do
      not fit into an int64, and distances that do not. */
  function Members(x: string, y: string, z: string): Option<seq<string>>
    requires IsEnd(x) && IsEnd(y) && IsIncrement(z)
  {
    if z != "" && !Fits(Value(z)) then None
    else if Numeral(x) && Numeral(y) then
      if Fits(Value(x)) && Fits(Value(y)) && Representable(Value(x), Value(y), Increment(z)) then
        Some(Terms(Value(x), Value(y), Increment(z), if ZeroPadded(x, y) then Padded else Number, Width(x, y)))
      else None
    else if IsLetter(x) && IsLetter(y) && Representable(x[0] as int, y[0] as int, Increment(z)) then
      Some(Terms(x[0] as int, y[0] as int, Increment(z), Letter, 1))
    else None
  }

  // ---- reading numbers ----

  lemma {:induction false} DigitsStop(s: string, i: nat, e: nat)
    requires i <= e <= |s| && !IsDigit(At(s, e)) && forall k :: i <= k < e ==> IsDigit(s[k])
    ensures DigitsEnd(s, i) == e
    decreases e - i
  {
    if i < e { DigitsStop(s, i + 1, e); }
  }

  /** strtoimax reads a numeral as its value, up to what follows it. */
  lemma NumeralRead(t: string, rest: string)
    requires Numeral(t) && !IsDigit(At(rest, 0))
    ensures var r := Strtoimax(t + rest);
            r.end == |t| && r.overflow == !Fits(Value(t)) && (Fits(Value(t)) ==> r.value == Value(t))
  {
    hide Positional, DigitsEnd;
    var s, q := t + rest, SignLength(t);
    assert s[0] == t[0] && IsDigit(t[q]) && SpaceEnd(s, 0) == 0;
    assert At(s, |t|) == At(rest, 0);
    DigitsStop(s, q, |t|);
    assert s[q..|t|] == t[q..];
  }

  lemma NumeralValid(t: string)
    requires Numeral(t)
    ensures ValidNumber(t) == if Fits(Value(t)) then Some(Value(t)) else None
  {
    hide Strtoimax, Value;
    NumeralRead(t, "");
    assert t + "" == t;
  }

  lemma LetterInvalid(t: string)
    requires IsLetter(t)
    ensures ValidNumber(t) == None
  {
  }

  /** The decimal text of n is a numeral for n. */
  lemma ItosNumeral(n: int)
    ensures Numeral(Itos(n)) && Value(Itos(n)) == n && !LeadingZero(Itos(n), |Itos(n)|)
  {
    hide Print, Positional;
    var p := Print(Abs(n), 10);
    PositionalPrint(Abs(n), 10);
    assert forall i :: 0 <= i < |p| ==> p[i] in p;
    if n < 0 { assert ("-" + p)[1..] == p && p[0] != '0'; } else { assert p[0..] == p; }
  }

  /** strtoimax reads what itos prints. */
  lemma ReadsBack(n: int64)
    ensures Strtoimax(Itos(n)) == Scanned(n, |Itos(n)|, false) && ValidNumber(Itos(n)) == Some(n)
  {
    hide Itos, Strtoimax, Value, Numeral;
    ItosNumeral(n);
    NumeralRead(Itos(n), "");
    NumeralValid(Itos(n));
    assert Itos(n) + "" == Itos(n);
  }

  // ---- parsing ----

  lemma {:induction false} DotsAt(s: string, i: nat, k: nat)
    requires i <= k && k + 2 <= |s| && s[k] == '.' && s[k + 1] == '.'
    requires forall j :: i <= j < k ==> s[j] != '.'
    ensures FindDots(s, i) == Some(k)
    decreases k - i
  {
    if i < k { DotsAt(s, i + 1, k); }
  }

  lemma FirstDots(x: string, rest: string)
    requires IsEnd(x)
    ensures var t := x + ".." + rest;
            FindDots(t, 0) == Some(|x|) && t[..|x|] == x && t[|x| + 2..] == rest
  {
    DotsAt(x + ".." + rest, 0, |x|);
  }

  lemma RightParses(y: string, z: string)
    requires IsEnd(y) && IsIncrement(z)
    ensures var r := ParseRightEnd(y + Tail(z));
            if z != "" && !Fits(Value(z)) then r.kind == Bad
            else if IsLetter(y) then r == RightEnd(Letter, y[0] as int, 1, RawIncrement(z))
            else if Fits(Value(y)) then r == RightEnd(Number, Value(y), |y|, RawIncrement(z))
            else r.kind == Bad
  {
    hide Strtoimax, Value;
    var rhs := y + Tail(z);
    assert rhs[0] == y[0] && (|y| > 1 ==> rhs[1] == y[1]);
    assert IsLetter(y) ==> At(rhs, 1) == At(Tail(z), 0);
    if Numeral(y) { NumeralRead(y, Tail(z)); }
    IncrementParses(y, z);
  }

  /** The increment as it is written. */
  function RawIncrement(z: string): int
    requires IsIncrement(z)
  {
    if z == "" then 1 else Value(z)
  }

  lemma IncrementParses(y: string, z: string)
    requires IsIncrement(z)
    ensures forall kind, value :: WithIncrement(y + Tail(z), kind, value, |y|) ==
              if Fits(RawIncrement(z)) then RightEnd(kind, value, |y|, RawIncrement(z)) else RightEnd(Bad, 0, 0, 1)
  {
    hide Strtoimax, Value;
    var rhs := y + Tail(z);
    if z != "" {
      NumeralRead(z, "");
      assert z + "" == z && rhs[|y| + 2..] == z;
    }
  }

  lemma SequenceParses(x: string, y: string, z: string)
    requires IsEnd(x) && IsEnd(y) && IsIncrement(z)
    ensures SeqTerm(SequenceText(x, y, z)) == Members(x, y, z)
  {
    hide Strtoimax, Value, ParseRightEnd, Terms, ValidNumber, LeadingZero, Representable, FindDots;
    var text, rhs := SequenceText(x, y, z), y + Tail(z);
    assert text == x + ".." + rhs;
    FirstDots(x, rhs);
    RightParses(y, z);
    if Numeral(x) { NumeralValid(x); } else { LetterInvalid(x); }
    LeadingZeroAhead(y, Tail(z));
  }

  lemma LeadingZeroAhead(y: string, rest: string)
    ensures LeadingZero(y + rest, |y|) == LeadingZero(y, |y|)
  {
    var s := y + rest;
    assert (|y| > 0 ==> s[0] == y[0]) && (|y| > 1 ==> s[1] == y[1]);
  }

  // ---- scanning ----

  /** Letters, digits, signs and dots: nothing that the scanner looks for, except for "..". */
  predicate Tame(c: char) { IsAlnum(c) || IsSign(c) || c == '.' }

  predicate AllTame(s: string) { forall k :: 0 <= k < |s| ==> Tame(s[k]) }

  /** The scan passes over tame characters, once it has seen ".." or does not look for it. */
  lemma {:induction false} ScanTame(sub: Substitution, text: string, i: nat, j: nat, satisfy: char, st: State)
    requires i <= j <= |text| && st.quoted == UNQUOTED && !st.passNext
    requires forall k :: i <= k < j ==> Tame(text[k]) && text[k] != satisfy
    requires satisfy == '{' || st.kind == Sequence || forall k :: i <= k < j ==> text[k] != '.'
    ensures BraceScan.Scan(sub, text, i, satisfy, st) == BraceScan.Scan(sub, text, j, satisfy, st)
    decreases j - i
  {
    if i < j {
      assert Step(sub, text, i, satisfy, st) == Go(i + 1, st);
      ScanTame(sub, text, i + 1, j, satisfy, st);
    }
  }

  lemma ScanDots(sub: Substitution, text: string, k: nat)
    requires k + 2 < |text| && text[k] == text[k + 1] == '.' && text[k + 2] != '}'
    ensures BraceScan.Scan(sub, text, k, '}', Initial('}'))
            == BraceScan.Scan(sub, text, k + 2, '}', State(0, UNQUOTED, false, 1, Sequence))
  {
    var st := State(0, UNQUOTED, false, 1, Sequence);
    assert Step(sub, text, k, '}', Initial('}')) == Go(k + 1, st);
    assert Step(sub, text, k + 1, '}', st) == Go(k + 2, st);
  }

  lemma ScanClose(sub: Substitution, text: string, e: nat)
    requires e < |text| && text[e] == '}'
    ensures BraceScan.Scan(sub, text, e, '}', State(0, UNQUOTED, false, 1, Sequence)) == Found(e, true, Sequence)
  {
    assert Step(sub, text, e, '}', State(0, UNQUOTED, false, 1, Sequence)) == Stop(Found(e, true, Sequence));
  }

  function Braced(x: string, y: string, z: string): string { "{" + SequenceText(x, y, z) + "}" }

  lemma EndTame(x: string)
    requires IsEnd(x)
    ensures x != "" && AllTame(x) && forall k :: 0 <= k < |x| ==> x[k] != '.'
  {
  }

  /** Where the parts of the text are. */
  lemma BracedParts(x: string, y: string, z: string)
    requires IsEnd(x) && IsEnd(y) && IsIncrement(z)
    ensures var text, range := Braced(x, y, z), SequenceText(x, y, z);
            && |text| == |range| + 2 && text[0] == '{' && text[|range| + 1] == '}' && text[1..|range| + 1] == range
            && AllTame(range) && |x| + 2 < |range|
            && (forall k :: 0 <= k < |x| ==> range[k] != '.')
            && range[|x|] == range[|x| + 1] == '.' && range[|x| + 2] != '.'
  {
    EndTame(x);
    EndTame(y);
    TailTame(z);
    var head, rest := x + "..", y + Tail(z);
    assert SequenceText(x, y, z) == head + rest;
    assert head[|x|] == head[|x| + 1] == '.' && AllTame(head) && AllTame(rest);
    assert rest[0] == y[0] != '.';
  }

  lemma TailTame(z: string)
    requires IsIncrement(z)
    ensures AllTame(Tail(z))
  {
    if z != "" { EndTame(z); }
  }

  /** s stands at position i of the text. */
  predicate Occurs(text: string, i: nat, s: string) {
    i + |s| <= |text| && text[i..i + |s|] == s
  }

  lemma OccursText(text: string, i: nat, s: string)
    requires Occurs(text, i, s)
    ensures i + |s| <= |text| && text[i..i + |s|] == s && forall j :: 0 <= j < |s| ==> text[i + j] == s[j]
  {
    forall j | 0 <= j < |s| ensures text[i + j] == s[j] {
      assert text[i..i + |s|][j] == text[i + j];
    }
  }

  /** Wherever the sequence stands, the scan finds its closing brace, and the kind of the expression. */
  lemma CloseFound(sub: Substitution, text: string, i: nat, x: string, y: string, z: string)
    requires IsEnd(x) && IsEnd(y) && IsIncrement(z) && Occurs(text, i, Braced(x, y, z))
    ensures var e := i + 1 + |SequenceText(x, y, z)|;
            i < |text| && Gobble(sub, text, i + 1, '}') == Found(e, true, Sequence)
  {
    hide BraceScan.Scan, Step, IsEnd, IsIncrement, Braced, SequenceText, Occurs;
    var range, k := SequenceText(x, y, z), i + 1 + |x|;
    SequenceInside(text, i, x, y, z);
    ScanTame(sub, text, i + 1, k, '}', Initial('}'));
    ScanDots(sub, text, k);
    ScanTame(sub, text, k + 2, i + 1 + |range|, '}', State(0, UNQUOTED, false, 1, Sequence));
    ScanClose(sub, text, i + 1 + |range|);
  }

  lemma SequenceInside(text: string, i: nat, x: string, y: string, z: string)
    requires IsEnd(x) && IsEnd(y) && IsIncrement(z) && Occurs(text, i, Braced(x, y, z))
    ensures var range := SequenceText(x, y, z);
            && i + |range| + 2 <= |text| && text[i] == '{' && text[i + 1 + |range|] == '}'
            && text[i + 1..i + 1 + |range|] == range && |x| + 2 < |range| && |Braced(x, y, z)| == |range| + 2
            && (forall k :: i + 1 <= k <= i + |range| ==> Tame(text[k]) && text[k] != '}' && text[k] != '{')
            && (forall k :: i + 1 <= k <= i + |x| ==> text[k] != '.')
            && text[i + 1 + |x|] == text[i + 2 + |x|] == '.' && text[i + 3 + |x|] != '}'
  {
    hide IsEnd, IsIncrement, Braced, SequenceText, Occurs;
    BracedParts(x, y, z);
    OccursText(text, i, Braced(x, y, z));
    var b, range := Braced(x, y, z), SequenceText(x, y, z);
    TameInside(b, range);
    forall k | i + 1 <= k <= i + |range| ensures text[k] == range[k - i - 1] && text[k] == b[k - i] {
      assert text[i + (k - i)] == b[k - i];
    }
    assert text[i + 0] == b[0];
    assert text[i + 1..i + 1 + |range|] == range;
  }

  lemma TameInside(text: string, range: string)
    requires |text| == |range| + 2 && text[1..|range| + 1] == range && AllTame(range)
    ensures forall k :: 1 <= k <= |range| ==>
              text[k] == range[k - 1] && Tame(text[k]) && text[k] != '}' && text[k] != '{'
  {
    forall k | 1 <= k <= |range| ensures text[k] == range[k - 1] {
      assert text[k] == text[1..|range| + 1][k - 1];
    }
  }

  /** The rough check accepts the sequence exactly if its ends are of one kind. */
  lemma SequenceValid(text: string, i: nat, x: string, y: string, z: string)
    requires IsEnd(x) && IsEnd(y) && IsIncrement(z) && Occurs(text, i, Braced(x, y, z))
    ensures var e := i + 1 + |SequenceText(x, y, z)|;
            e <= |text| && ValidSeqterm(text, i + 1, e) == (Numeral(x) == Numeral(y))
  {
    hide Braced, IsEnd, IsIncrement, FindDots, StartsNumber, Numeral, Occurs;
    SequenceInside(text, i, x, y, z);
    assert SequenceText(x, y, z) == x + ".." + (y + Tail(z));
    FirstDots(x, y + Tail(z));
    var post := SequenceSuffixes(text, i, x, y, z);
    EndAhead(x, ".." + (y + (Tail(z) + ("}" + post))));
    EndAhead(y, Tail(z) + ("}" + post));
  }

  /** What stands behind the opening brace and behind the dots. */
  lemma SequenceSuffixes(text: string, i: nat, x: string, y: string, z: string) returns (post: string)
    requires Occurs(text, i, Braced(x, y, z))
    ensures i + |x| + 3 <= |text| && text[i + 1..] == x + (".." + (y + (Tail(z) + ("}" + post))))
    ensures text[i + |x| + 3..] == y + (Tail(z) + ("}" + post))
  {
    hide Tail;
    var tail, b := Tail(z), Braced(x, y, z);
    post := text[i + |b|..];
    var inner := x + (".." + (y + (tail + ("}" + post))));
    assert b + post == "{" + inner;
    assert text[i..] == b + post;
    assert text[i + 1..] == text[i..][1..] == inner;
    assert text[i + |x| + 3..] == text[i + 1..][|x|..][2..];
    assert inner[|x|..] == ".." + (y + (tail + ("}" + post)));
  }

  lemma EndAhead(x: string, rest: string)
    requires IsEnd(x) && rest != "" && (rest[0] == '.' || rest[0] == '}')
    ensures var s := x + rest;
            && StartsNumber(s) == Numeral(x) && At(s, 0) != '.' && At(s, 0) != '}'
            && (!Numeral(x) ==> IsAlpha(At(s, 0)) && At(s, 1) == rest[0])
  {
    var s := x + rest;
    assert s[0] == x[0] && (|x| > 1 ==> s[1] == x[1]);
  }

  lemma SequenceFound(sub: Substitution, x: string, y: string, z: string)
    requires IsEnd(x) && IsEnd(y) && IsIncrement(z)
    ensures FindExpression(sub, Braced(x, y, z), 0) ==
              if Numeral(x) == Numeral(y) then Some(Expression(0, 1 + |SequenceText(x, y, z)|, Sequence)) else None
  {
    hide Braced, BraceScan.Scan, Step, ValidSeqterm, SequenceText, IsEnd, IsIncrement;
    var text, range := Braced(x, y, z), SequenceText(x, y, z);
    BracedParts(x, y, z);
    TameInside(text, range);
    OpenFound(sub, text, 0);
    CloseFound(sub, text, 0, x, y, z);
    SequenceValid(text, 0, x, y, z);
    NoOpenBehind(sub, text);
  }

  lemma OpenFound(sub: Substitution, text: string, i: nat)
    requires i + 1 < |text| && text[i] == '{' && Tame(text[i + 1])
    ensures Gobble(sub, text, i, '{') == Found(i, true, Neither)
  {
    assert Step(sub, text, i, '{', Initial('{')) == Stop(Found(i, true, Neither));
  }

  lemma NoOpenBehind(sub: Substitution, text: string)
    requires |text| > 1 && text[|text| - 1] == '}'
    requires forall k :: 1 <= k < |text| - 1 ==> Tame(text[k]) && text[k] != '{'
    ensures !Gobble(sub, text, 1, '{').hit
  {
    ScanTame(sub, text, 1, |text| - 1, '{', Initial('{'));
    assert Step(sub, text, |text| - 1, '{', Initial('{')) == Go(|text|, Initial('{'));
  }

  // ---- expanding ----

  /** Main result: a sequence in braces expands to its members; where it has none, the text stays as
      it is. */
  lemma SequenceExpands(sub: Substitution, x: string, y: string, z: string)
    requires IsEnd(x) && IsEnd(y) && IsIncrement(z)
    ensures Expand(sub, Braced(x, y, z)) ==
              match Members(x, y, z)
              case Some(terms) => terms
              case None => [Braced(x, y, z)]
  {
    hide FindExpression, Product, SeqTerm, SequenceText, Braced, Expand, Members, IsEnd, IsIncrement;
    var text, e := Braced(x, y, z), 1 + |SequenceText(x, y, z)|;
    BracedParts(x, y, z);
    SequenceFound(sub, x, y, z);
    ExpandSome(sub, text);
    if Numeral(x) != Numeral(y) {
      MixedEnds(x, y, z);
    } else {
      SequenceParses(x, y, z);
      assert text[1..e] == SequenceText(x, y, z);
      if Members(x, y, z).Some? {
        ExpandEmpty(sub);
        assert text[..0] == "" && text[e + 1..] == "";
        ProductUnit(Members(x, y, z).value);
      }
    }
  }

  lemma MixedEnds(x: string, y: string, z: string)
    requires IsEnd(x) && IsEnd(y) && IsIncrement(z) && Numeral(x) != Numeral(y)
    ensures Members(x, y, z) == None
  {
  }

  // ---- what the members are ----

  /** The i-th number from a toward b in steps of the size of c. */
  function Nth(a: int, b: int, c: int, i: nat): int {
    if a < b then a + i * Abs(c) else a - i * Abs(c)
  }

  /** The members of a sequence of numbers denote the numbers from a to b in steps of c; they have no
      leading zeros if the ends have none, and the width of the longer end at least if one has. */
  lemma NumberMembers(x: string, y: string, z: string)
    requires Numeral(x) && Numeral(y) && IsIncrement(z) && Members(x, y, z).Some?
    ensures var a, b, c, r := Value(x), Value(y), Increment(z), Members(x, y, z).value;
            && |r| == Abs(b - a) / Abs(c) + 1
            && forall i :: 0 <= i < |r| ==>
                 && Numeral(r[i]) && Value(r[i]) == Nth(a, b, c, i)
                 && if ZeroPadded(x, y) then |r[i]| >= |x| && |r[i]| >= |y| else r[i] == Itos(Nth(a, b, c, i))
  {
    hide Value, Terms, Numeral, Itos, LeadingZero, Pad;
    var a, b, c, r := Value(x), Value(y), Increment(z), Members(x, y, z).value;
    assert r == Terms(a, b, c, if ZeroPadded(x, y) then Padded else BraceSequence.Number, Width(x, y));
    forall i | 0 <= i < |r|
      ensures Numeral(r[i]) && Value(r[i]) == Nth(a, b, c, i)
      ensures if ZeroPadded(x, y) then |r[i]| >= |x| && |r[i]| >= |y| else r[i] == Itos(Nth(a, b, c, i))
    {
      StepsFit(a, b, c, i);
      ItosNumeral(Nth(a, b, c, i));
      PadNumeral(Nth(a, b, c, i), Width(x, y));
    }
  }

  lemma PadNumeral(n: int, width: nat)
    ensures Numeral(Pad(n, width)) && Value(Pad(n, width)) == n && |Pad(n, width)| >= width
  {
    hide Positional, Pad;
    PaddedTerm(n, width);
    var t := Pad(n, width);
    PadShape(n, width);
    var digits := if n < 0 then t[1..] else t;
    assert forall k :: 0 <= k < |digits| ==> IsDigit(digits[k]);
    if n >= 0 { assert t[0..] == t; }
  }

  lemma PadShape(n: int, width: nat)
    ensures |Pad(n, width)| > if n < 0 then 1 else 0
  {
  }

  /** The members of a sequence of letters are the characters from one to the other. */
  lemma LetterMembers(x: string, y: string, z: string)
    requires IsLetter(x) && IsLetter(y) && IsIncrement(z) && Members(x, y, z).Some?
    ensures var a, b, c, r := x[0] as int, y[0] as int, Increment(z), Members(x, y, z).value;
            && |r| == Abs(b - a) / Abs(c) + 1
            && forall i :: 0 <= i < |r| ==> InCharRange(Nth(a, b, c, i)) && r[i] == [Nth(a, b, c, i) as char]
  {
    hide Value, Terms;
    var a, b, c, r := x[0] as int, y[0] as int, Increment(z), Members(x, y, z).value;
    forall i | 0 <= i < |r| ensures InCharRange(Nth(a, b, c, i)) && r[i] == [Nth(a, b, c, i) as char] {
      StepsFit(a, b, c, i);
    }
  }

  /** {a..b} is the list of all integers from a to b, in steps of 1 toward b. */
  lemma IntegerRange(sub: Substitution, a: int64, b: int64)
    requires Representable(a, b, 1)
    ensures var r := Expand(sub, "{" + Itos(a) + ".." + Itos(b) + "}");
            |r| == Abs(b - a) + 1 && forall i :: 0 <= i < |r| ==> r[i] == Itos(if a < b then a + i else a - i)
  {
    hide Expand, Itos, Value, Numeral, LeadingZero;
    ItosNumeral(a);
    ItosNumeral(b);
    SequenceExpands(sub, Itos(a), Itos(b), "");
    assert Braced(Itos(a), Itos(b), "") == "{" + Itos(a) + ".." + Itos(b) + "}";
    NumberMembers(Itos(a), Itos(b), "");
    forall i: nat ensures Nth(a, b, 1, i) == if a < b then a + i else a - i { }
  }
}
