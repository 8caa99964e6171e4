/** Integer constants of the arithmetic evaluator: strlong (bash/expr.c:1538-1636) and the
    decimal printer itos that assignments use to store results. */
module Literals {
  import opened CStrings
  import opened Int64

  predicate ValidNumChar(c: char) { IsAlnum(c) || c == '_' || c == '@' }

  /** The value of one digit, expr.c:1606-1615. */
  function DigitValue(c: char, base: int): (d: nat)
    requires ValidNumChar(c)
    ensures d < 64
  {
    if IsDigit(c) then c as int - '0' as int
    else if 'a' <= c <= 'z' then c as int - 'a' as int + 10
    else if 'A' <= c <= 'Z' then c as int - 'A' as int + (if base <= 36 then 10 else 36)
    else if c == '@' then 62
    else 63
  }

  // ---- strlong, as a function of the text still to be read ----

  function Scan(s: string, i: nat, base: int, foundBase: bool, val: int64): Option<int64>
    requires i <= |s|
    decreases |s| - i
  {
    var c := At(s, i);
    if c == '\0' then
      Some(val)
    else if c == '#' then
      if foundBase || val < 2 || val > 64 || !ValidNumChar(At(s, i + 1)) then None
      else Scan(s, i + 1, val, true, 0)
    else if ValidNumChar(c) then
      if DigitValue(c, base) >= base then None
      else Scan(s, i + 1, base, foundBase, Wrap(val * base + DigitValue(c, base)))
    else
      Some(val)
  }

  function StrLong(s: string): Option<int64> {
    if At(s, 0) == '0' then
      if At(s, 1) == '\0' then Some(0)
      else if At(s, 1) == 'x' || At(s, 1) == 'X' then Scan(s, 2, 16, true, 0)
      else Scan(s, 1, 8, true, 0)
    else
      Scan(s, 0, 10, false, 0)
  }

  /** strlong itself; valid is false where the original jumps to evalerror. */
  method Strlong(num: string) returns (valid: bool, val: int64)
    ensures valid == StrLong(num).Some?
    ensures valid ==> val == StrLong(num).value
  {
    var s, base, foundBase := 0, 10, false;
    val := 0;
    if At(num, s) == '0' {
      s := s + 1;
      if At(num, s) == '\0' {
        return true, 0;
      }
      if At(num, s) == 'x' || At(num, s) == 'X' {
        base := 16;
        s := s + 1;
      } else {
        base := 8;
      }
      foundBase := true;
    }
    while At(num, s) != '\0'
      invariant s <= |num|
      invariant StrLong(num) == Scan(num, s, base, foundBase, val)
      decreases |num| - s
    {
      var c := At(num, s);
      s := s + 1;
      if c == '#' {
        if foundBase || val < 2 || val > 64 {
          return false, 0;
        }
        base := val;
        val := 0;
        foundBase := true;
        if !ValidNumChar(At(num, s)) {
          return false, 0;
        }
      } else if ValidNumChar(c) {
        var d := DigitValue(c, base);
        if d >= base {
          return false, 0;
        }
        val := Wrap(val * base + d);
      } else {
        break;
      }
    }
    valid := true;
  }

  // ---- the documented meaning: positional notation in an alphabet of up to 64 digits ----

  predicate Digits(s: string, base: int) {
    forall i :: 0 <= i < |s| ==> ValidNumChar(s[i]) && DigitValue(s[i], base) < base
  }

  function Positional(s: string, base: int): int
    requires Digits(s, base)
  {
    if s == "" then 0 else Positional(s[..|s| - 1], base) * base + DigitValue(s[|s| - 1], base)
  }

  lemma WrapHorner(v: int, base: int, d: int)
    ensures Wrap(Wrap(v) * base + d) == Wrap(v * base + d)
  {
    WrapMul(v, base);
    WrapAdd(Wrap(v) * base, d);
    WrapAdd(v * base, d);
  }

  /** Reading further digits continues Horner's rule modulo 2^64, whatever follows them. */
  lemma {:induction false} ScanDigits(s: string, rest: string, i: nat, base: int, found: bool)
    requires i <= |s| && Digits(s, base)
    ensures Scan(s + rest, i, base, found, Wrap(Positional(s[..i], base)))
         == Scan(s + rest, |s|, base, found, Wrap(Positional(s, base)))
    decreases |s| - i
  {
    if i < |s| {
      PositionalAt(s, i, base);
      ScanDigits(s, rest, i + 1, base, found);
    } else {
      assert s[..i] == s;
    }
  }

  lemma PositionalAt(s: string, i: nat, base: int)
    requires i < |s| && Digits(s, base)
    ensures Wrap(Positional(s[..i + 1], base)) == Wrap(Wrap(Positional(s[..i], base)) * base + DigitValue(s[i], base))
  {
    assert s[..i + 1][..i] == s[..i];
    WrapHorner(Positional(s[..i], base), base, DigitValue(s[i], base));
  }

  /** A prefix that has been consumed does not matter any more. */
  lemma {:induction false} ScanSuffix(p: string, s: string, i: nat, base: int, found: bool, val: int64)
    requires i <= |s|
    ensures Scan(p + s, |p| + i, base, found, val) == Scan(s, i, base, found, val)
    decreases |s| - i
  {
    var c := At(s, i);
    assert At(p + s, |p| + i) == c && At(p + s, |p| + i + 1) == At(s, i + 1);
    if c == '\0' {
    } else if c == '#' {
      if !found && 2 <= val <= 64 && ValidNumChar(At(s, i + 1)) {
        ScanSuffix(p, s, i + 1, val, true, 0);
      }
    } else if ValidNumChar(c) && DigitValue(c, base) < base {
      ScanSuffix(p, s, i + 1, base, found, Wrap(val * base + DigitValue(c, base)));
    }
  }

  // ---- printing ----

  /** The digit alphabet of expr.c:1530-1534. */
  function DigitChar(d: nat, base: int): (c: char)
    requires d < base <= 64
    ensures ValidNumChar(c) && DigitValue(c, base) == d
    ensures c == '0' <==> d == 0
  {
    if d < 10 then ('0' as int + d) as char
    else if d < 36 then ('a' as int + d - 10) as char
    else if d < 62 then ('A' as int + d - 36) as char
    else if d == 62 then '@'
    else '_'
  }

  lemma DivMod(n: nat, base: int)
    requires 2 <= base
    ensures (n / base) * base + n % base == n
    ensures n > 0 ==> 0 <= n / base < n
  {
  }

  function Print(n: nat, base: int): (s: string)
    requires 2 <= base <= 64
    ensures Digits(s, base) && |s| > 0
    ensures s[0] == '0' <==> n == 0
    ensures n == 0 ==> s == "0"
    ensures base == 10 ==> forall c <- s :: IsDigit(c)
    decreases n
  {
    DivMod(n, base);
    if n < base then [DigitChar(n, base)]
    else Print(n / base, base) + [DigitChar(n % base, base)]
  }

  lemma PositionalAppend(s: string, d: nat, base: int)
    requires Digits(s, base) && d < base <= 64
    ensures Digits(s + [DigitChar(d, base)], base)
    ensures Positional(s + [DigitChar(d, base)], base) == Positional(s, base) * base + d
  {
    var t := s + [DigitChar(d, base)];
    assert t[..|t| - 1] == s;
  }

  lemma {:induction false} PositionalPrint(n: nat, base: int)
    requires 2 <= base <= 64
    ensures Positional(Print(n, base), base) == n
    decreases n
  {
    var s := Print(n, base);
    if n >= base {
      DivMod(n, base);
      var q := n / base;
      PositionalPrint(q, base);
      PositionalAppend(Print(q, base), n % base, base);
    } else {
      PositionalAppend("", n, base);
      assert s == "" + [DigitChar(n, base)];
    }
  }

  /** A decimal constant without a leading zero means its value modulo 2^64. */
  lemma DecimalLiteral(n: nat)
    ensures StrLong(Print(n, 10)) == Some(Wrap(n))
  {
    var s := Print(n, 10);
    assert s[..0] == "" && s + "" == s;
    if n != 0 {
      ScanDigits(s, "", 0, 10, false);
      PositionalPrint(n, 10);
    }
  }

  /** The digits before the '#' give the base. */
  lemma ReadBase(base: int, rest: string)
    requires 2 <= base <= 64
    ensures var b := Print(base, 10);
            Scan(b + rest, 0, 10, false, 0) == Scan(b + rest, |b|, 10, false, base)
  {
    var b := Print(base, 10);
    assert b[..0] == "";
    PositionalPrint(base, 10);
    ScanDigits(b, rest, 0, 10, false);
  }

  /** Up to and including the '#'. */
  lemma ReadBaseMark(base: int, s: string)
    requires 2 <= base <= 64 && |s| > 0 && ValidNumChar(s[0])
    ensures var b := Print(base, 10);
            StrLong(b + "#" + s) == Scan(b + "#" + s, |b| + 1, base, true, 0)
  {
    var b := Print(base, 10);
    var t := b + ("#" + s);
    assert b + "#" + s == t;
    assert At(t, 0) != '0' && At(t, |b|) == '#' && At(t, |b| + 1) == s[0];
    ReadBase(base, "#" + s);
  }

  /** base#digits is read as the positional value modulo 2^64, for every base from 2 to 64. */
  lemma BasedLiteral(base: int, s: string)
    requires 2 <= base <= 64 && |s| > 0 && Digits(s, base)
    ensures StrLong(Print(base, 10) + "#" + s) == Some(Wrap(Positional(s, base)))
  {
    ReadBaseMark(base, s);
    ScanSuffix(Print(base, 10) + "#", s, 0, base, true, 0);
    assert s[..0] == "" && s + "" == s;
    ScanDigits(s, "", 0, base, true);
  }

  /** "0x" or "0X" and hexadecimal digits, and "0" and octal digits, mean their positional values modulo 2^64. */
  lemma HexLiteral(x: char, s: string)
    requires (x == 'x' || x == 'X') && Digits(s, 16)
    ensures StrLong(['0', x] + s) == Some(Wrap(Positional(s, 16)))
  {
    hide Positional;
    ScanSuffix(['0', x], s, 0, 16, true, 0);
    ScanAll(s, 16);
  }

  lemma OctalLiteral(s: string)
    requires s != "" && Digits(s, 8)
    ensures StrLong("0" + s) == Some(Wrap(Positional(s, 8)))
  {
    hide Positional;
    ScanSuffix("0", s, 0, 8, true, 0);
    ScanAll(s, 8);
    assert ("0" + s)[1] == s[0] && s[0] != '\0' && s[0] != 'x' && s[0] != 'X';
  }

  lemma ScanAll(s: string, base: int)
    requires 2 <= base <= 64 && Digits(s, base)
    ensures Scan(s, 0, base, true, 0) == Some(Wrap(Positional(s, base)))
  {
    assert s[..0] == "" && s + "" == s;
    ScanDigits(s, "", 0, base, true);
  }

  /** In bases up to 36 capital letters are the same digits as small ones; above, they are the digits from
      36 on, followed by "@" and "_". */
  lemma LetterDigits(c: char, base: int)
    requires 'a' <= c <= 'z' || 'A' <= c <= 'Z' || '0' <= c <= '9' || c == '@' || c == '_'
    ensures DigitValue(c, base) ==
              if '0' <= c <= '9' then c as int - 48
              else if 'a' <= c <= 'z' then c as int - 97 + 10
              else if c == '@' then 62
              else if c == '_' then 63
              else if base > 36 then c as int - 65 + 36
              else c as int - 65 + 10
  {
  }

  /** A digit that the base does not have is an error. */
  lemma {:induction false} BadDigit(s: string, c: char, rest: string, i: nat, base: int, found: bool, val: int64)
    requires i <= |s| && 2 <= base <= 64 && Digits(s, base) && ValidNumChar(c) && DigitValue(c, base) >= base
    ensures Scan(s + ([c] + rest), i, base, found, val) == None
    decreases |s| - i
  {
    if i < |s| {
      assert (s + ([c] + rest))[i] == s[i];
      BadDigit(s, c, rest, i + 1, base, found, Wrap(val * base + DigitValue(s[i], base)));
    } else {
      assert (s + ([c] + rest))[i] == c;
    }
  }

  /** ... in each of the four forms of a constant. */
  lemma BadLiteral(p: string, base: int, s: string, c: char, rest: string)
    requires p == "0x" || p == "0X" || p == "0" || (2 <= base <= 64 && p == Print(base, 10) + "#") || p == ""
    requires p == "0x" || p == "0X" ==> base == 16
    requires p == "0" ==> base == 8 && s != ""
    requires p == "" ==> base == 10 && s != "" && s[0] != '0'
    requires Digits(s, base) && ValidNumChar(c) && DigitValue(c, base) >= base
    ensures StrLong(p + (s + ([c] + rest))) == None
  {
    hide Positional, Print;
    var t := s + ([c] + rest);
    BadDigit(s, c, rest, 0, base, p != "", 0);
    if p == "" {
      assert p + t == t && t[0] == s[0];
    } else if p == "0" {
      ScanSuffix(p, t, 0, base, true, 0);
      assert (p + t)[0] == '0' && (p + t)[1] == t[0] == s[0] && s[0] != 'x' && s[0] != 'X' && s[0] != '\0';
    } else if p == "0x" || p == "0X" {
      ScanSuffix(p, t, 0, base, true, 0);
      assert (p + t)[0] == '0' && (p + t)[1] == p[1];
    } else {
      assert t[0] == (if s != "" then s[0] else c) && p + t == Print(base, 10) + "#" + t;
      ReadBaseMark(base, t);
      ScanSuffix(p, t, 0, base, true, 0);
    }
  }

  /** The base has to be from 2 to 64, and a digit has to follow. */
  lemma BadBase(n: nat, s: string)
    requires n < 2 || n > 64 || s == "" || !ValidNumChar(s[0])
    requires 0 < n <= INTMAX_MAX
    ensures StrLong(Print(n, 10) + "#" + s) == None
  {
    var b := Print(n, 10);
    var t := b + ("#" + s);
    assert b + "#" + s == t && b[..0] == "";
    PositionalPrint(n, 10);
    ScanDigits(b, "#" + s, 0, 10, false);
    assert At(t, |b|) == '#' && At(t, |b| + 1) == At(s, 0) && t[0] == b[0];
  }

  /** Literal round trip: what is printed in the documented alphabet is read back. */
  lemma LiteralRoundTrip(base: int, n: int)
    requires 2 <= base <= 64 && 0 <= n <= INTMAX_MAX
    ensures StrLong(Print(base, 10) + "#" + Print(n, base)) == Some(n)
  {
    BasedLiteral(base, Print(n, base));
    PositionalPrint(n, base);
  }

  /** itos: signed decimal. */
  function Itos(n: int): (s: string)
    ensures |s| > 0
  {
    if n < 0 then "-" + Print(-n, 10) else Print(n, 10)
  }

  /** A minus sign exactly in front of negative numbers, no leading zeros, and decimal digits that mean
      the number. */
  lemma DecimalText(n: int)
    ensures var d := if n < 0 then Itos(n)[1..] else Itos(n);
            && (n < 0 ==> Itos(n)[0] == '-')
            && d != "" && (forall c <- d :: '0' <= c <= '9') && (d[0] == '0' ==> d == "0" && n == 0)
            && Digits(d, 10) && Positional(d, 10) == if n < 0 then -n else n
  {
    hide Print, Positional;
    PositionalPrint(if n < 0 then -n else n, 10);
  }
}
