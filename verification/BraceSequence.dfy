/** Sequence expressions such as {1..10..2} and {a..e}: mkseq, valid_seqterm and expand_seqterm,
    bash/braces.c:372-635. */
module BraceSequence {
  import opened CStrings
  import opened Int64
  import opened Literals

  /** ST_BAD, ST_INT, ST_CHAR, ST_ZINT. */
  datatype TermKind = Bad | Number | Letter | Padded

  function Abs(n: int): (r: int)
    ensures r >= 0
  {
    if n < 0 then -n else n
  }

  // ---- mkseq ----

  /** The increment, with the sign that leads from start to end. */
  function Toward(start: int, end: int, incr: int): int
    requires incr != 0
  {
    if start < end then Abs(incr) else -Abs(incr)
  }

  /** How many terms there are. */
  function TermCount(start: int, end: int, incr: int): (n: nat)
    requires incr != 0
    ensures n >= 1
  {
    Abs(end - start) / Abs(incr) + 1
  }

  /** mkseq declines when the increment or the distance cannot be represented. */
  predicate Representable(start: int, end: int, incr: int) {
    incr != INTMAX_MIN && Abs(end - start) <= INTMAX_MAX
  }

  function Zeros(n: nat): (s: string)
    ensures |s| == n && forall c <- s :: c == '0'
  {
    seq(n, _ => '0')
  }

  /** Zeros are put behind a minus sign, in front of the digits. */
  function Pad(n: int, width: nat): string {
    var t := Itos(n);
    if |t| >= width then t
    else if n < 0 then "-" + Zeros(width - |t|) + t[1..]
    else Zeros(width - |t|) + t
  }

  predicate InCharRange(n: int) { 0 <= n < 256 }

  function Term(n: int, kind: TermKind, width: nat): string
    requires kind == Letter ==> InCharRange(n)
  {
    match kind
    case Padded => Pad(n, width)
    case Letter => [n as char]
    case _ => Itos(n)
  }

  /** The i-th term is start plus i steps. */
  function Terms(start: int, end: int, incr: int, kind: TermKind, width: nat): (r: seq<string>)
    requires incr != 0 && (kind == Letter ==> InCharRange(start) && InCharRange(end))
    ensures |r| == TermCount(start, end, incr)
    ensures forall i :: 0 <= i < |r| ==>
              (kind == Letter ==> InCharRange(start + i * Toward(start, end, incr))) &&
              r[i] == Term(start + i * Toward(start, end, incr), kind, width)
  {
    var step := Toward(start, end, incr);
    StaysBetween(start, end, incr);
    seq(TermCount(start, end, incr),
      i requires 0 <= i < TermCount(start, end, incr) => Term(start + i * step, kind, width))
  }

  lemma StepsFit(start: int, end: int, incr: int, i: nat)
    requires incr != 0 && i < TermCount(start, end, incr)
    ensures i * Abs(incr) <= Abs(end - start)
    ensures start + i * Toward(start, end, incr) == if start < end then start + i * Abs(incr) else start - i * Abs(incr)
  {
    var q := Abs(end - start) / Abs(incr);
    assert i * Abs(incr) <= q * Abs(incr) by { MulMono(i, q, Abs(incr)); }
    assert q * Abs(incr) <= Abs(end - start);
    assert i * -Abs(incr) == -(i * Abs(incr));
  }

  lemma MulMono(i: nat, q: nat, a: nat)
    requires i <= q
    ensures i * a <= q * a
  {
  }

  /** All terms lie between start and end. */
  lemma StaysBetween(start: int, end: int, incr: int)
    requires incr != 0
    ensures forall i :: 0 <= i < TermCount(start, end, incr) ==>
              var n := start + i * Toward(start, end, incr);
              if start < end then start <= n <= end else end <= n <= start
  {
    forall i | 0 <= i < TermCount(start, end, incr)
      ensures var n := start + i * Toward(start, end, incr);
              if start < end then start <= n <= end else end <= n <= start
    {
      StepsFit(start, end, incr, i);
    }
  }

  /** The sequence is as long as it can be: one more step would pass the end. */
  lemma NoFurtherTerm(start: int, end: int, incr: int)
    requires incr != 0
    ensures var n := start + TermCount(start, end, incr) * Toward(start, end, incr);
            if start < end then n > end else n < end
  {
    var d, a := Abs(end - start), Abs(incr);
    var q := d / a;
    assert d < (q + 1) * a;
    assert (q + 1) * -a == -((q + 1) * a);
  }

  /** mkseq: no addition in the loop overflows, and no term is lost or added. */
  method Mkseq(start: int64, end: int64, incr0: int64, kind: TermKind, width: nat)
    returns (result: Option<seq<string>>)
    requires kind == Letter ==> InCharRange(start) && InCharRange(end)
    ensures var incr := if incr0 == 0 then 1 else incr0;
            result == if Representable(start, end, incr) then Some(Terms(start, end, incr, kind, width)) else None
  {
    var incr: int := if incr0 == 0 then 1 else incr0;
    ghost var given := incr;
    var absIncr := incr;
    if incr < 0 {
      absIncr := 0 - incr;
      if absIncr > INTMAX_MAX {
        return None;
      }
    }
    if (start < end) == (incr < 0) {
      incr := 0 - incr;
      if incr > INTMAX_MAX {
        return None;
      }
    }
    var prevn: int := if start < end then (end as int) - start else (start as int) - end;
    if prevn > INTMAX_MAX {
      return None;
    }
    var nelem := prevn / absIncr + 2;
    var r := FillTerms(start, end, given, incr, nelem, kind, width);
    result := Some(r);
  }

  /** The loop of mkseq, which runs at least once. */
  method FillTerms(start: int64, end: int64, ghost given: int, incr: int, nelem: int, kind: TermKind, width: nat)
    returns (r: seq<string>)
    requires given != 0 && incr == Toward(start, end, given) && nelem - 1 == TermCount(start, end, given)
    requires kind == Letter ==> InCharRange(start) && InCharRange(end)
    ensures r == Terms(start, end, given, kind, width)
  {
    hide Terms, Term, Toward, TermCount;
    StaysBetween(start, end, given);
    ghost var terms := Terms(start, end, given, kind, width);
    r := [];
    var n: int64 := start;
    assert start + 0 * incr == start;
    while true
      invariant |r| < nelem - 1 && n == start + |r| * incr
      invariant r == terms[..|r|]
      decreases nelem - |r|
    {
      assert terms[|r|] == Term(start + |r| * incr, kind, width);
      r := r + [Term(n, kind, width)];
      if |r| >= nelem - 1 {
        break;
      }
      assert start + |r| * incr == n + incr;
      n := n + incr;
    }
  }

  // ---- zero padding ----

  /** Leading zeros do not change the value. */
  lemma {:induction false} PositionalZeros(k: nat, s: string)
    requires Digits(s, 10)
    ensures Digits(Zeros(k) + s, 10) && Positional(Zeros(k) + s, 10) == Positional(s, 10)
    decreases |s|, k
  {
    var t := Zeros(k) + s;
    assert Digits(t, 10);
    if s == "" {
      if k > 0 {
        assert t[..|t| - 1] == Zeros(k - 1) + "";
        PositionalZeros(k - 1, "");
      }
    } else {
      assert t[..|t| - 1] == Zeros(k) + s[..|s| - 1];
      PositionalZeros(k, s[..|s| - 1]);
    }
  }

  /** A padded term has at least the asked width, and still denotes the same number. */
  lemma PaddedTerm(n: int, width: nat)
    ensures |Pad(n, width)| >= width
    ensures n < 0 ==> Pad(n, width)[0] == '-'
    ensures var digits := if n < 0 then Pad(n, width)[1..] else Pad(n, width);
            Digits(digits, 10) && Positional(digits, 10) == Abs(n)
  {
    hide Print, Positional, Zeros;
    var digits := Print(Abs(n), 10);
    PositionalPrint(Abs(n), 10);
    var k := if |Itos(n)| < width then width - |Itos(n)| else 0;
    PositionalZeros(k, digits);
    assert Zeros(0) + digits == digits;
    if n < 0 {
      assert ("-" + digits)[1..] == digits;
      assert "-" + Zeros(k) + digits == "-" + (Zeros(k) + digits);
      assert ("-" + (Zeros(k) + digits))[1..] == Zeros(k) + digits;
    }
  }

  // ---- reading sequence expressions ----

  predicate IsSpace(c: char) { c == ' ' || '\t' <= c <= '\r' }

  function SpaceEnd(s: string, i: nat): (j: nat)
    requires i <= |s|
    ensures i <= j <= |s|
    decreases |s| - i
  {
    if IsSpace(At(s, i)) then SpaceEnd(s, i + 1) else i
  }

  function DigitsEnd(s: string, i: nat): (j: nat)
    requires i <= |s|
    ensures i <= j <= |s| && forall k :: i <= k < j ==> IsDigit(s[k])
    decreases |s| - i
  {
    if IsDigit(At(s, i)) then DigitsEnd(s, i + 1) else i
  }

  predicate IsSign(c: char) { c == '+' || c == '-' }

  /** What strtoimax returns: the value, where it stopped, and whether errno was set. */
  datatype Scanned = Scanned(value: int64, end: nat, overflow: bool)

  function Strtoimax(s: string): (r: Scanned)
    ensures r.end <= |s|
  {
    var p := SpaceEnd(s, 0);
    var q := if IsSign(At(s, p)) then p + 1 else p;
    var e := DigitsEnd(s, q);
    if e == q then Scanned(0, 0, false)
    else
      var v := Positional(s[q..e], 10);
      var n := if At(s, p) == '-' then -v else v;
      if n > INTMAX_MAX then Scanned(INTMAX_MAX, e, true)
      else if n < INTMAX_MIN then Scanned(INTMAX_MIN, e, true)
      else Scanned(n, e, false)
  }

  /** valid_number, general.c:248-282. */
  function ValidNumber(s: string): Option<int64> {
    var r := Strtoimax(s);
    if r.overflow || r.end == 0 || SpaceEnd(s, r.end) < |s| then None else Some(r.value)
  }

  /** strstr for "..". */
  function FindDots(s: string, i: nat): (r: Option<nat>)
    requires i <= |s|
    ensures r.Some? ==> i <= r.value && r.value + 2 <= |s| && s[r.value] == s[r.value + 1] == '.'
    ensures r.Some? ==> forall k :: i <= k < r.value ==> !(s[k] == '.' && s[k + 1] == '.')
    ensures r.None? ==> forall k :: i <= k < |s| - 1 ==> !(s[k] == '.' && s[k + 1] == '.')
    decreases |s| - i
  {
    if |s| < i + 2 then None
    else if s[i] == '.' && s[i + 1] == '.' then Some(i)
    else FindDots(s, i + 1)
  }

  predicate StartsNumber(s: string) {
    IsDigit(At(s, 0)) || (IsSign(At(s, 0)) && IsDigit(At(s, 1)))
  }

  /** valid_seqterm: a rough check of text[start..end], which a "}" follows. */
  predicate ValidSeqterm(text: string, start: nat, end: nat)
    requires start <= end <= |text|
  {
    match FindDots(text[start..end], 0)
    case None => false
    case Some(t) =>
      var lhs, rhs := text[start..], text[start + t + 2..];
      var lhsKind := if StartsNumber(lhs) then Number else if IsAlpha(At(lhs, 0)) && At(lhs, 1) == '.' then Letter
          else Bad;
      var rhsKind := if StartsNumber(rhs) then Number
                     else if IsAlpha(At(rhs, 0)) && (At(rhs, 1) == '}' || At(rhs, 1) == '.') then Letter
                     else Bad;
      At(lhs, 0) != '.' && At(rhs, 0) != '}' && lhsKind == rhsKind && lhsKind != Bad
  }

  /** The right end of a sequence with its increment; len is the length of the end alone. */
  datatype RightEnd = RightEnd(kind: TermKind, value: int64, len: nat, incr: int64)

  function ParseRightEnd(rhs: string): (r: RightEnd)
    ensures r.kind == Letter ==> InCharRange(r.value)
  {
    var t := Strtoimax(rhs);
    if StartsNumber(rhs) then
      if t.overflow || (t.end < |rhs| && rhs[t.end] != '.') then RightEnd(Bad, 0, 0, 1)
      else WithIncrement(rhs, Number, t.value, t.end)
    else if IsAlpha(At(rhs, 0)) && (|rhs| == 1 || At(rhs, 1) == '.') then
      WithIncrement(rhs, Letter, rhs[0] as int, 1)
    else RightEnd(Bad, 0, 0, 1)
  }

  function WithIncrement(rhs: string, kind: TermKind, value: int64, ep: nat): (r: RightEnd)
    requires ep <= |rhs|
    ensures r.kind == Bad || (r.kind == kind && r.value == value)
  {
    if At(rhs, ep) == '.' && At(rhs, ep + 1) == '.' && ep + 2 < |rhs| then
      var t := Strtoimax(rhs[ep + 2..]);
      if ep + 2 + t.end != |rhs| || t.overflow then RightEnd(Bad, 0, 0, 1)
      else RightEnd(kind, value, ep, t.value)
    else if ep < |rhs| then RightEnd(Bad, 0, 0, 1)
    else RightEnd(kind, value, ep, 1)
  }

  predicate LeadingZero(s: string, len: nat) {
    (len > 1 && At(s, 0) == '0') || (len > 2 && At(s, 0) == '-' && At(s, 1) == '0')
  }

  /** A valid sequence expression. */
  datatype Spec = Spec(start: int64, end: int64, incr: int64, kind: TermKind, width: nat)

  function ParseSequence(text: string): (r: Option<Spec>)
    ensures r.Some? ==> r.value.kind != Bad
    ensures r.Some? && r.value.kind == Letter ==> InCharRange(r.value.start) && InCharRange(r.value.end)
  {
    match FindDots(text, 0)
    case None => None
    case Some(t) =>
      var lhs, rhs := text[..t], text[t + 2..];
      if lhs == "" || rhs == "" then None
      else
        var left := ValidNumber(lhs);
        var right := ParseRightEnd(rhs);
        if left.Some? && right.kind == Number then
          var padded := LeadingZero(lhs, |lhs|) || LeadingZero(rhs, right.len);
          var width := if !padded then 0 else if |lhs| < right.len then right.len else |lhs|;
          Some(Spec(left.value, right.value, right.incr, if padded then Padded else Number, width))
        else if left.None? && |lhs| == 1 && IsAlpha(lhs[0]) && right.kind == Letter then
          Some(Spec(lhs[0] as int, right.value, right.incr, Letter, 1))
        else None
  }

  /** expand_seqterm as a function. */
  function SeqTerm(text: string): Option<seq<string>> {
    match ParseSequence(text)
    case None => None
    case Some(s) =>
      var incr := if s.incr == 0 then 1 else s.incr;
      if Representable(s.start, s.end, incr) then Some(Terms(s.start, s.end, incr, s.kind, s.width)) else None
  }

  /** The part of expand_seqterm that reads the right end and the increment; ep is moved as
      strtoimax moves it. */
  method ReadRightEnd(rhs: string) returns (r: RightEnd)
    requires rhs != ""
    ensures r == ParseRightEnd(rhs)
  {
    var kind, ep, value := Bad, 0, 0;
    if StartsNumber(rhs) {
      kind := Number;
      var n := Strtoimax(rhs);
      value, ep := n.value, n.end;
      if n.overflow || (ep < |rhs| && rhs[ep] != '.') {
        kind := Bad;
      }
    } else if IsAlpha(rhs[0]) && (|rhs| == 1 || rhs[1] == '.') {
      kind, value, ep := Letter, rhs[0] as int, 1;
    }
    if kind == Bad {
      return RightEnd(Bad, 0, 0, 1);
    }
    var incr, oep, overflow := 1, ep, false;
    if At(rhs, ep) == '.' && At(rhs, ep + 1) == '.' && ep + 2 < |rhs| {
      var n := Strtoimax(rhs[ep + 2..]);
      incr, ep, overflow := n.value, ep + 2 + n.end, n.overflow;
    }
    if ep < |rhs| || overflow {
      return RightEnd(Bad, 0, 0, 1);
    }
    return RightEnd(kind, value, oep, incr);
  }

  /** Whether the terms need zero-padding, and their width then. */
  method PadWidth(lhs: string, rhs: string, rhsLen: nat) returns (padded: bool, width: nat)
    ensures padded == (LeadingZero(lhs, |lhs|) || LeadingZero(rhs, rhsLen))
    ensures width == if !padded then 0 else if |lhs| < rhsLen then rhsLen else |lhs|
  {
    padded, width := false, 0;
    if |lhs| > 1 && lhs[0] == '0' {
      width, padded := |lhs|, true;
    }
    if |lhs| > 2 && lhs[0] == '-' && lhs[1] == '0' {
      width, padded := |lhs|, true;
    }
    if rhsLen > 1 && At(rhs, 0) == '0' && width < rhsLen {
      width, padded := rhsLen, true;
    }
    if rhsLen > 2 && At(rhs, 0) == '-' && At(rhs, 1) == '0' && width < rhsLen {
      width, padded := rhsLen, true;
    }
    if width < |lhs| && padded {
      width := |lhs|;
    }
    if width < rhsLen && padded {
      width := rhsLen;
    }
  }

  /** expand_seqterm. */
  method ExpandSeqterm(text: string) returns (result: Option<seq<string>>)
    ensures result == SeqTerm(text)
  {
    hide Strtoimax, Terms, Representable, LeadingZero, ParseRightEnd;
    var t := FindDots(text, 0);
    if t.None? {
      return None;
    }
    var lhs, rhs := text[..t.value], text[t.value + 2..];
    if lhs == "" || rhs == "" {
      return None;
    }
    var left := ValidNumber(lhs);
    var lhsKind := if left.Some? then Number else if IsAlpha(lhs[0]) && |lhs| == 1 then Letter else Bad;
    var right := ReadRightEnd(rhs);
    if lhsKind != right.kind || lhsKind == Bad || right.kind == Bad {
      return None;
    }
    if lhsKind == Letter {
      result := Mkseq(lhs[0] as int, right.value, right.incr, Letter, 1);
    } else {
      var padded, width := PadWidth(lhs, rhs, right.len);
      result := Mkseq(left.value, right.value, right.incr, if padded then Padded else Number, width);
    }
  }
}
