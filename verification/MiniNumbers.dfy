/** Decimal numbers of minishell: 42-minishell/libft/ft_atoi.c. */
module MiniNumbers {
  import opened CStrings
  import opened T = MiniTokens

  const INT_MIN := -2147483648
  const LONG_MAX := 9223372036854775807
  const LONG_MIN := -9223372036854775808

  // ---- printing ----

  function Digit(n: nat): char
    requires n < 10
  {
    '0' + n as char
  }

  function Digits(n: nat): (s: string)
    ensures s != "" && AllDigits(s)
  {
    if n < 10 then [Digit(n)] else Digits(n / 10) + [Digit(n % 10)]
  }

  lemma {:induction false} DecimalDigits(n: nat)
    ensures Decimal(Digits(n)) == n
  {
    var s := Digits(n);
    if n < 10 {
      assert s[..0] == "";
    } else {
      DecimalDigits(n / 10);
      assert s[..|s| - 1] == Digits(n / 10);
    }
  }

  lemma {:induction false} DigitsLength(n: nat, k: nat)
    requires k > 0 && n < Power10(k)
    ensures |Digits(n)| <= k
  {
    if n >= 10 { DigitsLength(n / 10, k - 1); }
  }

  // ---- the limits ----

  lemma DigitAppend(s: string, c: char)
    requires AllDigits(s) && IsDigit(c)
    ensures AllDigits(s + [c]) && Decimal(s + [c]) == Decimal(s) * 10 + DigitOf(c)
  {
    assert (s + [c])[..|s|] == s;
  }

  function DigitOf(c: char): (d: nat)
    requires IsDigit(c)
    ensures d < 10
  {
    c as int - '0' as int
  }

  lemma ThreeDigits(s: string, a: char, b: char, c: char)
    requires AllDigits(s) && IsDigit(a) && IsDigit(b) && IsDigit(c)
    ensures AllDigits(s + [a, b, c])
    ensures Decimal(s + [a, b, c]) == Decimal(s) * 1000 + DigitOf(a) * 100 + DigitOf(b) * 10 + DigitOf(c)
  {
    hide AllDigits, Decimal;
    DigitAppend(s, a);
    DigitAppend(s + [a], b);
    DigitAppend(s + [a] + [b], c);
    assert s + [a] + [b] + [c] == s + [a, b, c];
  }

  lemma IntLimits()
    ensures AllDigits("2147483647") && Decimal("2147483647") == INT_MAX
    ensures AllDigits("2147483648") && Decimal("2147483648") == -INT_MIN
  {
    hide AllDigits, Decimal;
    NoDigits();
    ThreeDigits("", '2', '1', '4');
    assert "" + ['2', '1', '4'] == "214";
    ThreeDigits("214", '7', '4', '8');
    assert "214" + ['7', '4', '8'] == "214748";
    ThreeDigits("214748", '3', '6', '4');
    assert "214748" + ['3', '6', '4'] == "214748364";
    DigitAppend("214748364", '7');
    DigitAppend("214748364", '8');
    assert "214748364" + ['7'] == "2147483647" && "214748364" + ['8'] == "2147483648";
  }

  lemma LongLimits()
    ensures AllDigits("9223372036854775807") && Decimal("9223372036854775807") == LONG_MAX
    ensures AllDigits("9223372036854775808") && Decimal("9223372036854775808") == -LONG_MIN
  {
    hide AllDigits, Decimal;
    NoDigits();
    ThreeDigits("", '9', '2', '2');
    assert "" + ['9', '2', '2'] == "922";
    ThreeDigits("922", '3', '3', '7');
    assert "922" + ['3', '3', '7'] == "922337";
    ThreeDigits("922337", '2', '0', '3');
    assert "922337" + ['2', '0', '3'] == "922337203";
    ThreeDigits("922337203", '6', '8', '5');
    assert "922337203" + ['6', '8', '5'] == "922337203685";
    ThreeDigits("922337203685", '4', '7', '7');
    assert "922337203685" + ['4', '7', '7'] == "922337203685477";
    ThreeDigits("922337203685477", '5', '8', '0');
    assert "922337203685477" + ['5', '8', '0'] == "922337203685477580";
    DigitAppend("922337203685477580", '7');
    DigitAppend("922337203685477580", '8');
    assert "922337203685477580" + ['7'] == "9223372036854775807";
    assert "922337203685477580" + ['8'] == "9223372036854775808";
  }

  lemma NoDigits()
    ensures AllDigits("") && Decimal("") == 0
  {
  }

  lemma {:induction false} PowerGrows(m: nat, n: nat)
    requires m <= n
    ensures Power10(m) <= Power10(n)
    decreases n
  {
    if m < n { PowerGrows(m, n - 1); }
  }

  // ---- reading ----

  /** num_len: how many digits a text starts with. */
  function NumLength(s: string): (n: nat)
    ensures n <= |s| && AllDigits(s[..n]) && !IsDigit(At(s, n))
  {
    if s != "" && IsDigit(s[0]) then
      var n := NumLength(s[1..]);
      assert s[..1 + n] == [s[0]] + s[1..][..n];
      1 + n
    else 0
  }

  /** The number that the digits at the start of a text denote. */
  function Leading(s: string): nat { Decimal(s[..NumLength(s)]) }

  method NumLen(str: string) returns (i: nat)
    ensures i == NumLength(str)
  {
    i := 0;
    while IsDigit(At(str, i))
      invariant i <= |str| && NumLength(str) == i + NumLength(str[i..])
      decreases |str| - i
    {
      assert str[i..][1..] == str[i + 1..];
      i := i + 1;
    }
  }

  /** ft_strncmp where both strings have n characters. */
  method StrNCmp(a: string, b: string, n: nat) returns (r: int)
    requires n <= |a| && n <= |b|
    ensures r == 0 ==> a[..n] == b[..n]
    ensures r != 0 ==> exists i :: 0 <= i < n && a[..i] == b[..i] && a[i] != b[i] && (r > 0 <==> a[i] > b[i])
  {
    var i := 0;
    while i < n
      invariant 0 <= i <= n && a[..i] == b[..i]
    {
      if a[i] != b[i] {
        return if a[i] > b[i] then 1 else -1;
      }
      i := i + 1;
    }
    return 0;
  }

  /** Of two numbers with as many digits, ft_strncmp finds the greater one. */
  method Exceeds(nptr: string, limit: string) returns (exceeds: bool)
    requires AllDigits(limit) && NumLength(nptr) == |limit|
    ensures exceeds == (Leading(nptr) > Decimal(limit))
  {
    var n := |limit|;
    var r := StrNCmp(nptr, limit, n);
    ghost var d := nptr[..n];
    if r != 0 {
      ghost var i :| 0 <= i < n && nptr[..i] == limit[..i] && nptr[i] != limit[i] && (r > 0 <==> nptr[i] > limit[i]);
      assert d[..i] == nptr[..i] && d[i] == nptr[i];
      if r > 0 { FirstDifference(d, limit, i); } else { FirstDifference(limit, d, i); }
    } else {
      assert limit[..n] == limit;
    }
    return r > 0;
  }

  lemma ShortNumber(s: string, k: nat)
    requires NumLength(s) <= k
    ensures Leading(s) < Power10(k)
  {
    DecimalBound(s[..NumLength(s)]);
    PowerGrows(NumLength(s), k);
  }

  /** is_int_overflow: the signed number does not fit into an int; more than ten digits count as too
      many, even if the first ones are zeros. */
  method IsIntOverflow(nptr: string, sign: int) returns (overflow: bool)
    ensures NumLength(nptr) > 10 ==> overflow
    ensures NumLength(nptr) <= 10 && (sign == 1 || sign == -1) ==>
              overflow == !(INT_MIN <= sign * Leading(nptr) <= INT_MAX)
  {
    hide Decimal, Leading, NumLength;
    var n := NumLen(nptr);
    if n > 10 {
      return true;
    }
    IntLimits();
    if n == 10 {
      if sign == -1 {
        var exceeds := Exceeds(nptr, "2147483648");
        return exceeds;
      }
      if sign == 1 {
        var exceeds := Exceeds(nptr, "2147483647");
        return exceeds;
      }
      return false;
    }
    ShortNumber(nptr, 9);
    assert Power10(9) == 1000000000;
    return false;
  }

  /** is_long_overflow: the same for long, from 19 digits on. */
  method IsLongOverflow(nptr: string, sign: int) returns (overflow: bool)
    requires sign == 1 || sign == -1
    ensures overflow == TooLong(nptr, sign)
    ensures NumLength(nptr) > 19 ==> overflow
    ensures NumLength(nptr) <= 19 ==> overflow == !(LONG_MIN <= sign * Leading(nptr) <= LONG_MAX)
  {
    hide Decimal, Leading, NumLength;
    var n := NumLen(nptr);
    if n > 19 {
      return true;
    }
    LongLimits();
    if n == 19 {
      if sign == -1 {
        var exceeds := Exceeds(nptr, "9223372036854775808");
        return exceeds;
      }
      var exceeds := Exceeds(nptr, "9223372036854775807");
      return exceeds;
    }
    ShortNumber(nptr, 18);
    PowerOf18();
    return false;
  }

  predicate TooLong(s: string, sign: int) {
    NumLength(s) > 19 || !(LONG_MIN <= sign * Leading(s) <= LONG_MAX)
  }

  lemma PowerOf18()
    ensures Power10(18) == 1000000000000000000
  {
    assert Power10(6) == 1000000;
    assert Power10(12) == 1000000 * Power10(6);
    assert Power10(18) == 1000000 * Power10(12);
  }

  predicate IsWhite(c: char) { c == ' ' || '\t' <= c <= '\r' }

  function White(s: string): (n: nat)
    ensures n <= |s|
  {
    if s != "" && IsWhite(s[0]) then 1 + White(s[1..]) else 0
  }

  /** The sign in front of a number, and what is behind it. */
  function Signed(s: string): (int, string) {
    var t := s[White(s)..];
    if At(t, 0) == '-' then (-1, t[1..]) else if At(t, 0) == '+' then (1, t[1..]) else (1, t)
  }

  /** The number that a text starts with, behind white space and a sign. */
  function Value(s: string): int { Signed(s).0 * Leading(Signed(s).1) }

  /** Conversion to int. */
  function ToInt(n: int): int { (n - INT_MIN) % 0x1_0000_0000 + INT_MIN }

  function AtoiResult(s: string): int {
    var (sign, t) := Signed(s);
    if TooLong(t, sign) then if sign == 1 then -1 else 0 else ToInt(Value(s))
  }

  /** ft_atoi: numbers that do not fit into a long give -1 or 0, others are cut off to an int. */
  method Atoi(nptr: string) returns (num: int)
    ensures num == AtoiResult(nptr)
  {
    hide Decimal, NumLength, Leading;
    var i, np := 0, 1;
    while IsWhite(At(nptr, i))
      invariant i <= |nptr| && White(nptr) == i + White(nptr[i..])
      decreases |nptr| - i
    {
      assert nptr[i..][1..] == nptr[i + 1..];
      i := i + 1;
    }
    ghost var t := nptr[i..];
    assert At(t, 0) == At(nptr, i);
    if At(nptr, i) == '+' || At(nptr, i) == '-' {
      if At(nptr, i) == '-' {
        np := -1;
      }
      i := i + 1;
      assert t[1..] == nptr[i..];
    }
    assert Signed(nptr) == (np, nptr[i..]);
    var overflow := IsLongOverflow(nptr[i..], np);
    if overflow {
      return if np == 1 then -1 else 0;
    }
    num := ReadDigits(nptr[i..], np);
  }

  /** The loop of ft_atoi, over an unsigned int, and the conversion behind it. */
  method ReadDigits(nptr: string, np: int) returns (num: int)
    requires np == 1 || np == -1
    ensures num == ToInt(np * Leading(nptr))
  {
    var sum, i := 0, 0;
    NoDigits();
    ghost var n := NumLength(nptr);
    while IsDigit(At(nptr, i))
      invariant i <= n && AllDigits(nptr[..i]) && sum == Decimal(nptr[..i]) % 0x1_0000_0000
      decreases n - i
    {
      DigitStep(nptr, i);
      sum := (sum * 10 + (nptr[i] as int - '0' as int)) % 0x1_0000_0000;
      i := i + 1;
    }
    DigitInside(nptr, i);
    num := ToInt(np * sum);
    CutOff(np, Leading(nptr));
  }

  lemma DigitStep(s: string, i: nat)
    requires i < |s| && IsDigit(s[i]) && AllDigits(s[..i]) && i <= NumLength(s)
    ensures i < NumLength(s) && AllDigits(s[..i + 1])
    ensures Decimal(s[..i + 1]) % 0x1_0000_0000
         == (Decimal(s[..i]) % 0x1_0000_0000 * 10 + (s[i] as int - '0' as int)) % 0x1_0000_0000
  {
    hide Decimal, AllDigits, NumLength;
    DigitAppend(s[..i], s[i]);
    assert s[..i] + [s[i]] == s[..i + 1];
    ModStep(Decimal(s[..i]), DigitOf(s[i]));
  }

  lemma ModStep(a: nat, d: nat)
    ensures (a * 10 + d) % 0x1_0000_0000 == (a % 0x1_0000_0000 * 10 + d) % 0x1_0000_0000
  {
    var q, r := a / 0x1_0000_0000, a % 0x1_0000_0000;
    assert a * 10 + d == (r * 10 + d) + q * 10 * 0x1_0000_0000;
    ModAdd(r * 10 + d, q * 10);
  }

  lemma ModAdd(x: nat, k: nat)
    ensures (x + k * 0x1_0000_0000) % 0x1_0000_0000 == x % 0x1_0000_0000
  {
  }

  lemma DigitInside(s: string, i: nat)
    ensures i < NumLength(s) ==> IsDigit(At(s, i))
  {
    var n := NumLength(s);
    if i < n { assert s[..n][i] in s[..n]; }
  }

  lemma CutOff(np: int, d: nat)
    requires np == 1 || np == -1
    ensures ToInt(np * (d % 0x1_0000_0000)) == ToInt(np * d)
  {
  }

  /** The result is the number exactly if it fits into an int; with more than 19 digits, only -0 is. */
  lemma AtoiExact(s: string)
    ensures AtoiResult(s) == Value(s) <==>
              if NumLength(Signed(s).1) <= 19 then INT_MIN <= Value(s) <= INT_MAX
              else Signed(s).0 == -1 && Value(s) == 0
  {
    hide Leading, NumLength, Signed;
    assert Signed(s).0 == 1 || Signed(s).0 == -1 by { SignOf(s); }
    var sign, v: int := Signed(s).0, Leading(Signed(s).1);
    assert sign == 1 ==> Value(s) == v;
    assert sign == -1 ==> Value(s) == -v;
  }

  lemma SignOf(s: string)
    ensures Signed(s).0 == 1 || Signed(s).0 == -1
  {
  }

  // ---- texts of digits alone ----

  lemma {:induction false} DigitsRun(s: string)
    requires AllDigits(s)
    ensures NumLength(s) == |s|
  {
    if s != "" {
      assert s[0] in s;
      forall c <- s[1..] ensures IsDigit(c) { assert c in s; }
      DigitsRun(s[1..]);
    }
  }

  /** A text of digits has no blanks and no sign. */
  lemma PlainDigits(s: string)
    requires AllDigits(s)
    ensures NumLength(s) == |s| && Leading(s) == Decimal(s) && Signed(s) == (1, s) && Value(s) == Decimal(s)
  {
    DigitsRun(s);
    assert s[..|s|] == s && s[0..] == s;
    if s != "" { assert s[0] in s; }
    hide Decimal;
    assert White(s) == 0;
  }

  lemma DescriptorFits(s: string)
    requires AllDigits(s)
    ensures IsDescriptor(s) <==> NumLength(s) <= 10 && INT_MIN <= Leading(s) <= INT_MAX
  {
    hide Decimal;
    PlainDigits(s);
  }

  /** ft_atoi reads a descriptor as its number. */
  lemma DescriptorRead(s: string)
    requires IsDescriptor(s)
    ensures AtoiResult(s) == Decimal(s)
  {
    hide Decimal;
    PlainDigits(s);
    AtoiExact(s);
  }

  // ---- from the text to the number ----

  lemma {:induction false} WhiteRun(g: string, s: string)
    requires forall c <- g :: c == ' ' || c == '\t' || c == '\n' || c == '\U{b}' || c == '\U{c}' || c == '\r'
    requires s != "" && s[0] != ' ' && !('\t' <= s[0] <= '\r')
    ensures White(g + s) == |g| && (g + s)[|g|..] == s
  {
    if g == "" {
      assert g + s == s;
    } else {
      assert g[0] in g && forall c <- g[1..] :: c in g;
      WhiteRun(g[1..], s);
      assert (g + s)[1..] == g[1..] + s;
    }
  }

  lemma {:induction false} DigitsThen(d: string, rest: string)
    requires AllDigits(d) && !IsDigit(At(rest, 0))
    ensures NumLength(d + rest) == |d| && (d + rest)[..|d|] == d
  {
    if d == "" {
      assert d + rest == rest;
    } else {
      assert d[0] in d && forall c <- d[1..] :: c in d;
      DigitsThen(d[1..], rest);
      assert (d + rest)[1..] == d[1..] + rest;
    }
  }

  /** ft_atoi reads white space, a sign and digits, whatever follows: the number, if it fits into an int;
      one that is equal to it modulo 2^32, if it fits into a long and has no more than 19 digits; and
      otherwise -1 or, behind a minus sign, 0. */
  lemma AtoiReads(g: string, sign: string, d: string, rest: string)
    requires forall c <- g :: c == ' ' || c == '\t' || c == '\n' || c == '\U{b}' || c == '\U{c}' || c == '\r'
    requires sign == "" || sign == "+" || sign == "-"
    requires d != "" && AllDigits(d) && !IsDigit(At(rest, 0))
    ensures var v: int := if sign == "-" then -(Decimal(d) as int) else Decimal(d);
            var r := AtoiResult(g + (sign + (d + rest)));
            && INT_MIN <= r <= INT_MAX
            && (|d| <= 19 && INT_MIN <= v <= INT_MAX ==> r == v)
            && (|d| <= 19 && LONG_MIN <= v <= LONG_MAX ==> (r - v) % 0x1_0000_0000 == 0)
            && (|d| > 19 || !(LONG_MIN <= v <= LONG_MAX) ==> r == if sign == "-" then 0 else -1)
  {
    hide Decimal, NumLength, Signed, ToInt, Leading, White;
    var s := if sign == "-" then -1 else 1;
    var v: int := if sign == "-" then -(Decimal(d) as int) else Decimal(d);
    SignedIs(g, sign, d, rest);
    LeadingIs(d, rest);
    CutOffIs(v);
    assert s * Decimal(d) == v;
  }

  lemma LeadingIs(d: string, rest: string)
    requires AllDigits(d) && !IsDigit(At(rest, 0))
    ensures NumLength(d + rest) == |d| && Leading(d + rest) == Decimal(d)
  {
    hide Decimal, NumLength;
    DigitsThen(d, rest);
  }

  lemma SignedIs(g: string, sign: string, d: string, rest: string)
    requires forall c <- g :: c == ' ' || c == '\t' || c == '\n' || c == '\U{b}' || c == '\U{c}' || c == '\r'
    requires sign == "" || sign == "+" || sign == "-"
    requires d != "" && AllDigits(d)
    ensures Signed(g + (sign + (d + rest))) == (if sign == "-" then -1 else 1, d + rest)
  {
    hide White;
    var t := sign + (d + rest);
    assert d[0] in d;
    assert t[0] == if sign == "" then d[0] else sign[0];
    WhiteRun(g, t);
    assert sign != "" ==> t[1..] == d + rest;
    assert sign == "" ==> t == d + rest;
  }

  lemma CutOffIs(v: int)
    ensures INT_MIN <= ToInt(v) <= INT_MAX && (ToInt(v) - v) % 0x1_0000_0000 == 0
    ensures INT_MIN <= v <= INT_MAX ==> ToInt(v) == v
  {
  }
}
