/** The members of sequence expressions once more, in the characters of the text. */
module BraceMembers {
  import opened CStrings
  import opened Int64
  import opened Literals
  import opened BraceScan
  import opened BraceSequence
  import opened Braces
  import opened BraceRanges

  const LIMIT := 0x8000_0000_0000_0000

  predicate Sign(s: string) { s == "" || s == "+" || s == "-" }

  predicate Decimals(d: string) { d != "" && forall c <- d :: '0' <= c <= '9' }

  lemma DecimalsDigits(d: string)
    ensures Decimals(d) || d == "" ==> Digits(d, 10)
  {
    if Decimals(d) { assert forall i :: 0 <= i < |d| ==> d[i] in d; }
  }

  function Signed(s: string, d: string): int
    requires Decimals(d) || d == ""
  {
    DecimalsDigits(d);
    if s == "-" then -Positional(d, 10) else Positional(d, 10)
  }

  /** A leading zero counts behind no sign and behind a minus sign. */
  predicate Zero(s: string, d: string) { |d| > 1 && d[0] == '0' && s != "+" }

  function Size(n: int): nat { if n < 0 then -n else n }

  /** How far the members are apart, and how many there are. */
  function Apart(c: int): (k: nat)
    ensures k > 0
  {
    if c == 0 then 1 else Size(c)
  }

  function Count(a: int, b: int, c: int): nat { Size(b - a) / Apart(c) + 1 }

  function Max(m: nat, n: nat): nat { if m < n then n else m }

  lemma SignedNumeral(s: string, d: string)
    requires Sign(s) && Decimals(d)
    ensures Numeral(s + d) && Value(s + d) == Signed(s, d) && LeadingZero(s + d, |s + d|) == Zero(s, d)
  {
    hide Positional;
    var t := s + d;
    assert t[|s|..] == d && t[|s|] == d[0] && (s != "" ==> t[0] == s[0]);
    assert d[0] in d && SignLength(t) == |s|;
    forall k | |s| <= k < |t| ensures IsDigit(t[k]) { assert t[k] == d[k - |s|] && d[k - |s|] in d; }
  }

  /** Numerals from a toward b, in steps of c; shorter ones are filled up to the width. */
  ghost predicate Progression(r: seq<string>, a: int, b: int, c: int, width: nat) {
    && |r| == Count(a, b, c)
    && forall i :: 0 <= i < |r| ==>
         && Numeral(r[i]) && Value(r[i]) == (if a < b then a + i * Apart(c) else a - i * Apart(c))
         && r[i][0] != '+' && |r[i]| == Max(width, |Itos(Value(r[i]))|) && (width == 0 ==> r[i] == Itos(Value(r[i])))
  }

  /** {x..y} and {x..y..z} for numerals: if the numbers fit, numerals from x to y, with the width of the
      longer end if an end has a leading zero; if not, the text. */
  lemma NumberSequence(sub: Substitution, s: string, d: string, s2: string, d2: string, s3: string, d3: string)
    requires Sign(s) && Decimals(d) && Sign(s2) && Decimals(d2) && Sign(s3) && (Decimals(d3) || s3 + d3 == "")
    ensures var text := "{" + (s + d + ".." + (s2 + d2) + (if d3 == "" then "" else ".." + (s3 + d3))) + "}";
            var a, b, c := Signed(s, d), Signed(s2, d2), Signed(s3, d3);
            if -LIMIT <= a < LIMIT && -LIMIT <= b < LIMIT && Size(b - a) < LIMIT && Size(c) < LIMIT
            then Progression(Expand(sub, text), a, b, c,
                     if Zero(s, d) || Zero(s2, d2) then Max(|s + d|, |s2 + d2|) else 0)
            else Expand(sub, text) == [text]
  {
    hide Expand, Value, Numeral, Positional, Terms, Digits, LeadingZero, Itos, Pad, Progression, Signed;
    var x, y, z := s + d, s2 + d2, s3 + d3;
    SignedNumeral(s, d);
    SignedNumeral(s2, d2);
    if z != "" { SignedNumeral(s3, d3); }
    NothingSigned();
    SequenceExpands(sub, x, y, z);
    assert Braced(x, y, z) == "{" + (x + ".." + y + (if d3 == "" then "" else ".." + z)) + "}";
    if Members(x, y, z).Some? { NumbersProgress(x, y, z); }
  }

  lemma NothingSigned()
    ensures Signed("", "") == 0
  {
  }

  lemma NumbersProgress(x: string, y: string, z: string)
    requires Numeral(x) && Numeral(y) && IsIncrement(z) && Members(x, y, z).Some?
    ensures Progression(Members(x, y, z).value, Value(x), Value(y), if z == "" then 0 else Value(z), Width(x, y))
  {
    hide Value, Terms, Numeral, Itos, LeadingZero, Pad;
    var a, b, c, r := Value(x), Value(y), Increment(z), Members(x, y, z).value;
    assert r == Terms(a, b, c, if ZeroPadded(x, y) then Padded else BraceSequence.Number, Width(x, y));
    NumberMembers(x, y, z);
    EndTame(x);
    assert Abs(c) == Apart(if z == "" then 0 else Value(z));
    forall i | 0 <= i < |r|
      ensures r[i][0] != '+' && |r[i]| == Max(Width(x, y), |Itos(Value(r[i]))|)
      ensures Width(x, y) == 0 ==> r[i] == Itos(Value(r[i]))
    {
      StepsFit(a, b, c, i);
      PadLength(Nth(a, b, c, i), Width(x, y));
    }
  }

  lemma PadLength(n: int, width: nat)
    ensures |Pad(n, width)| == Max(width, |Itos(n)|) && Pad(n, width)[0] != '+'
    ensures width == 0 ==> Pad(n, width) == Itos(n)
  {
    hide Itos, Zeros;
    PaddedTerm(n, width);
  }

  /** The same for letters: single characters, a from one to the other. */
  lemma LetterSequence(sub: Substitution, x: char, y: char, s3: string, d3: string)
    requires 'a' <= x <= 'z' || 'A' <= x <= 'Z'
    requires 'a' <= y <= 'z' || 'A' <= y <= 'Z'
    requires Sign(s3) && (Decimals(d3) || s3 + d3 == "")
    ensures var text := "{" + ([x] + ".." + [y] + (if d3 == "" then "" else ".." + (s3 + d3))) + "}";
            var r, c := Expand(sub, text), Signed(s3, d3);
            if Size(c) < LIMIT then
              && |r| == Count(x as int, y as int, c)
              && forall i :: 0 <= i < |r| ==>
                   |r[i]| == 1 && r[i][0] as int == if x < y then x as int + i * Apart(c) else x as int - i * Apart(c)
            else r == [text]
  {
    hide Expand, Value, Numeral, Positional, Terms, Digits, Signed;
    var z := s3 + d3;
    if z != "" { SignedNumeral(s3, d3); }
    NothingSigned();
    LetterNoNumeral(x);
    LetterNoNumeral(y);
    SequenceExpands(sub, [x], [y], z);
    assert Braced([x], [y], z) == "{" + ([x] + ".." + [y] + (if d3 == "" then "" else ".." + z)) + "}";
    if Members([x], [y], z).Some? {
      LetterMembers([x], [y], z);
      assert Abs(Increment(z)) == Apart(Signed(s3, d3));
    }
  }

  lemma LetterNoNumeral(x: char)
    requires 'a' <= x <= 'z' || 'A' <= x <= 'Z'
    ensures IsLetter([x]) && !Numeral([x])
  {
  }

  /** Ends of different kinds leave the text as it is. */
  lemma MixedSequence(sub: Substitution, x: char, s: string, d: string)
    requires 'a' <= x <= 'z' || 'A' <= x <= 'Z'
    requires Sign(s) && Decimals(d)
    ensures var text := "{" + ([x] + ".." + (s + d)) + "}"; Expand(sub, text) == [text]
    ensures var text := "{" + (s + d + ".." + [x]) + "}"; Expand(sub, text) == [text]
  {
    hide Expand, Value, Numeral, Positional, Terms, Digits;
    SignedNumeral(s, d);
    LetterNoNumeral(x);
    SequenceExpands(sub, [x], s + d, "");
    SequenceExpands(sub, s + d, [x], "");
    MixedEnds([x], s + d, "");
    MixedEnds(s + d, [x], "");
    assert Braced([x], s + d, "") == "{" + ([x] + ".." + (s + d)) + "}";
    assert Braced(s + d, [x], "") == "{" + (s + d + ".." + [x]) + "}";
  }

  /** White space in front of a number is skipped. */
  lemma SpacesSkipped(g: string, t: string, rest: string)
    requires forall c <- g :: c == ' ' || c == '\t' || c == '\n' || c == '\U{b}' || c == '\U{c}' || c == '\r'
    requires Numeral(t) && !IsDigit(At(rest, 0))
    ensures var r := Strtoimax(g + (t + rest));
            && r.end == |g| + |t|
            && r.overflow == !(-LIMIT <= Value(t) < LIMIT) && (!r.overflow ==> r.value == Value(t))
  {
    hide Positional, DigitsEnd;
    var s, q := g + (t + rest), |g| + SignLength(t);
    assert s[|g|] == t[0] && IsDigit(t[SignLength(t)]) && s[q] == t[SignLength(t)];
    forall j | 0 <= j < |g| ensures IsSpace(s[j]) { assert s[j] == g[j] && g[j] in g; }
    SpacesEnd(s, 0, |g|);
    assert At(s, |g| + |t|) == At(rest, 0);
    DigitsStop(s, q, |g| + |t|);
    assert s[q..|g| + |t|] == t[SignLength(t)..];
  }

  lemma {:induction false} SpacesEnd(s: string, i: nat, k: nat)
    requires i <= k < |s| && !IsSpace(s[k]) && forall j :: i <= j < k ==> IsSpace(s[j])
    ensures SpaceEnd(s, i) == k
    decreases k - i
  {
    if i < k { SpacesEnd(s, i + 1, k); }
  }

  // ---- what is taken for a sequence ----

  predicate Letters(c: char) { 'a' <= c <= 'z' || 'A' <= c <= 'Z' }

  /** A digit, or a sign and a digit, and then anything. */
  predicate LikeNumber(x: string) {
    x != "" && ('0' <= x[0] <= '9' || ((x[0] == '+' || x[0] == '-') && |x| > 1 && '0' <= x[1] <= '9'))
  }

  /** The rough check of x..y in braces: both ends begin like numbers, or both are letters. */
  lemma RoughCheck(x: string, y: string, rest: string)
    requires '.' !in x && '.' !in y && '}' !in y
    ensures var text := x + ".." + y + "}" + rest;
            ValidSeqterm(text, 0, |x| + 2 + |y|) <==>
              (LikeNumber(x) && LikeNumber(y)) || (|x| == 1 && Letters(x[0]) && |y| == 1 && Letters(y[0]))
  {
    var text, tail := x + ".." + y + "}" + rest, y + "}" + rest;
    assert text == x + (".." + tail) && text[..|x| + 2 + |y|] == x + ".." + y;
    assert text[0..] == text && text[|x| + 2..] == tail;
    forall j | 0 <= j < |x| ensures x[j] != '.' { assert x[j] in x; }
    forall j | 0 <= j < |y| ensures y[j] != '.' && y[j] != '}' { assert y[j] in y; }
    DotsAt(text[0..|x| + 2 + |y|], 0, |x|);
    assert At(tail, 0) == At(y + "}", 0) && (|y| > 0 ==> At(tail, 1) == At(y + "}", 1));
    assert At(text, 0) == At(x + ".", 0) && (|x| > 0 ==> At(text, 1) == At(x + ".", 1));
  }
}
