/** The shell's intmax_t: 64-bit two's complement integers whose arithmetic wraps around
    silently, as bash/expr.c:22-23 announces. */
module Int64 {

  const TWO_63: int := 0x8000_0000_0000_0000
  const TWO_64: int := 0x1_0000_0000_0000_0000
  const INTMAX_MAX: int := TWO_63 - 1
  const INTMAX_MIN: int := -TWO_63

  type int64 = x: int | -0x8000_0000_0000_0000 <= x < 0x8000_0000_0000_0000

  /** The representative of n modulo 2^64 in the signed range. */
  function Wrap(n: int): (r: int64)
    ensures (r - n) % TWO_64 == 0
    ensures -TWO_63 <= n < TWO_63 ==> r == n
  {
    (n + TWO_63) % TWO_64 - TWO_63
  }

  lemma WrapCongruent(n: int, k: int)
    ensures Wrap(n + k * TWO_64) == Wrap(n)
  {
  }

  lemma WrapMul(a: int, b: int)
    ensures Wrap(Wrap(a) * b) == Wrap(a * b)
  {
    var k := (Wrap(a) - a) / TWO_64;
    assert Wrap(a) == a + k * TWO_64;
    assert Wrap(a) * b == a * b + (k * b) * TWO_64;
    WrapCongruent(a * b, k * b);
  }

  lemma WrapAdd(a: int, b: int)
    ensures Wrap(Wrap(a) + b) == Wrap(a + b)
  {
    var k := (Wrap(a) - a) / TWO_64;
    assert Wrap(a) + b == (a + b) + k * TWO_64;
    WrapCongruent(a + b, k);
  }

  function Add(a: int, b: int): int64 {
    Wrap(a + b)
  }

  function Sub(a: int, b: int): int64 {
    Wrap(a - b)
  }

  function Mul(a: int, b: int): int64 {
    Wrap(a * b)
  }

  function Pow(base: int, exp: nat): int {
    if exp == 0 then 1 else base * Pow(base, exp - 1)
  }

  lemma {:induction false} PowSquare(base: int, half: nat)
    ensures Pow(base * base, half) == Pow(base, 2 * half)
  {
    if half != 0 {
      PowSquare(base, half - 1);
      assert Pow(base, 2 * half) == base * (base * Pow(base, 2 * half - 2));
    }
  }

  /** Wrapping the base first does not change the wrapped power. */
  lemma {:induction false} PowWrap(base: int, exp: nat)
    ensures Wrap(Pow(Wrap(base), exp)) == Wrap(Pow(base, exp))
  {
    if exp != 0 {
      var w := Wrap(base);
      calc {
        Wrap(w * Pow(w, exp - 1));
        { WrapMul(Pow(w, exp - 1), w); }
        Wrap(Wrap(Pow(w, exp - 1)) * w);
        { PowWrap(base, exp - 1); }
        Wrap(Wrap(Pow(base, exp - 1)) * w);
        { WrapMul(Pow(base, exp - 1), w); }
        Wrap(w * Pow(base, exp - 1));
        { WrapMul(base, Pow(base, exp - 1)); }
        Wrap(base * Pow(base, exp - 1));
      }
    }
  }

  /** What the loop of Ipow still has to produce. */
  function Remaining(result: int64, b: int64, e: nat): int64 {
    Wrap(result * Pow(b, e))
  }

  lemma RemainingEnds(result: int64, b: int64, base: int64, exp: nat)
    ensures Remaining(result, b, 0) == result
    ensures Remaining(1, base, exp) == Wrap(Pow(base, exp))
  {
  }

  lemma PowStep(result: int64, b: int64, e: nat)
    requires e != 0
    ensures var result' := if e % 2 == 1 then Mul(result, b) else result;
            Remaining(result', Mul(b, b), e / 2) == Remaining(result, b, e)
  {
    var half := e / 2;
    var odd := if e % 2 == 1 then b else 1;
    var rest := Pow(b * b, half);
    assert Pow(b, e) == odd * rest by { PowSquare(b, half); }
    var result' := if e % 2 == 1 then Wrap(result * b) else result;
    assert result' == Wrap(result * odd);
    calc {
      Wrap(result' * Pow(Wrap(b * b), half));
      { WrapMul(Pow(Wrap(b * b), half), result'); }
      Wrap(Wrap(Pow(Wrap(b * b), half)) * result');
      { PowWrap(b * b, half); }
      Wrap(Wrap(rest) * result');
      { WrapMul(rest, result'); }
      Wrap(result' * rest);
      { WrapMul(result * odd, rest); }
      Wrap((result * odd) * rest);
      { assert (result * odd) * rest == result * (odd * rest); }
      Wrap(result * Pow(b, e));
    }
  }

  /** Square-and-multiply (expr.c:947-961), correct under wrap-around at every step. */
  method Ipow(base: int64, exp: int64) returns (result: int64)
    requires 0 <= exp
    ensures result == Wrap(Pow(base, exp))
  {
    result := 1;
    var b, e := base, exp;
    RemainingEnds(1, 1, base, exp);
    while e != 0
      invariant 0 <= e
      invariant Remaining(result, b, e) == Wrap(Pow(base, exp))
      decreases e
    {
      PowStep(result, b, e);
      if e % 2 == 1 {
        result := Mul(result, b);
      }
      e := e / 2;
      b := Mul(b, b);
    }
    RemainingEnds(result, b, base, exp);
  }

  /** C division: the quotient is truncated toward zero. */
  function TruncDiv(a: int, b: int): (q: int)
    requires b != 0
  {
    if a >= 0 then a / b else -((-a) / b)
  }

  function TruncMod(a: int, b: int): (r: int)
    requires b != 0
  {
    a - b * TruncDiv(a, b)
  }

  // Bitwise operators, by halving: floor division by two shifts a two's complement number right.

  datatype BitKind = And | Or | Xor

  predicate BitOf(kind: BitKind, p: bool, q: bool) {
    match kind
    case And => p && q
    case Or => p || q
    case Xor => p != q
  }

  /** The low `width` bits of a and b combined bit by bit; above them only signs remain. */
  function Bitwise(kind: BitKind, a: int, b: int, width: nat): (r: int)
    ensures -Pow(2, width) <= r < Pow(2, width)
    decreases width, a
  {
    if width == 0 then
      if BitOf(kind, a != 0, b != 0) then -1 else 0
    else
      2 * Bitwise(kind, a / 2, b / 2, width - 1) + (if BitOf(kind, a % 2 == 1, b % 2 == 1) then 1 else 0)
  }

  lemma PowTwo63()
    ensures Pow(2, 63) == TWO_63
  {
    PowSquare(2, 31);
    PowSquare(4, 15);
    PowSquare(16, 7);
    assert Pow(256, 7) == 0x100_0000_0000_0000;
  }

  function Bits64(kind: BitKind, a: int64, b: int64): int64 {
    PowTwo63();
    Bitwise(kind, a, b, 63)
  }

  /** Shift counts are taken modulo 64; C leaves other counts undefined. */
  function ShiftLeft(a: int64, count: int64): int64 {
    Wrap(a * Pow(2, count % 64))
  }

  lemma {:induction false} PowPositive(exp: nat)
    ensures Pow(2, exp) >= 1
  {
    if exp != 0 { PowPositive(exp - 1); }
  }

  function ShiftRight(a: int64, count: int64): int64 {
    PowPositive(count % 64);
    a / Pow(2, count % 64)
  }
}
