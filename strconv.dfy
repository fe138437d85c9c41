/**
 * Go's `strconv.Atoi` on a 64-bit platform, and `strconv.Itoa` as its inverse:
 * an optional `+` or `-` sign followed by one or more ASCII digits, whose value
 * must fit in a signed 64-bit integer.
 */
module Strconv {
  import opened Wrappers

  const MinInt: int := -0x8000_0000_0000_0000
  const MaxInt: int := 0x7FFF_FFFF_FFFF_FFFF

  /** Go's `*strconv.NumError` with `ErrSyntax` or `ErrRange`. */
  datatype NumError = ErrSyntax(text: string) | ErrRange(text: string)

  predicate IsDigit(c: char)
  {
    '0' <= c <= '9'
  }

  predicate AllDigits(s: string)
  {
    forall k :: 0 <= k < |s| ==> IsDigit(s[k])
  }

  function DigitValue(c: char): (d: nat)
    requires IsDigit(c)
    ensures d < 10
  {
    (c as int) - ('0' as int)
  }

  function DigitChar(d: nat): (c: char)
    requires d < 10
    ensures IsDigit(c) && DigitValue(c) == d
  {
    (('0' as int) + d) as char
  }

  /** The value of a run of decimal digits, most significant first. */
  function DigitsValue(s: string): nat
    requires AllDigits(s)
  {
    if s == [] then 0 else DigitsValue(s[..|s| - 1]) * 10 + DigitValue(s[|s| - 1])
  }

  predicate HasSign(s: string)
  {
    |s| > 0 && (s[0] == '+' || s[0] == '-')
  }

  /** The digits after an optional sign. */
  function Magnitude(s: string): string
  {
    if HasSign(s) then s[1..] else s
  }

  /** The text Atoi accepts syntactically: an optional sign, then one or more digits. */
  predicate IsIntLiteral(s: string)
  {
    Magnitude(s) != [] && AllDigits(Magnitude(s))
  }

  function LiteralValue(s: string): int
    requires IsIntLiteral(s)
  {
    if HasSign(s) && s[0] == '-' then -(DigitsValue(Magnitude(s)) as int) else DigitsValue(Magnitude(s))
  }

  /** The largest value of a Go `uint64`. */
  const MaxUint64: int := 0xFFFF_FFFF_FFFF_FFFF

  /** The longest run of digits at the start of `s`. */
  function LeadingDigits(s: string): (p: string)
    ensures p <= s && AllDigits(p)
    ensures |p| < |s| ==> !IsDigit(s[|p|])
  {
    if s == [] || !IsDigit(s[0]) then [] else [s[0]] + LeadingDigits(s[1..])
  }

  /**
   * The digits before the first non-digit of the magnitude exceed `uint64`.
   * `ParseUint` reads left to right and reports a range error at the first
   * digit that overflows, before it can meet a later non-digit.
   */
  predicate OverflowsFirst(s: string)
  {
    DigitsValue(LeadingDigits(Magnitude(s))) > MaxUint64
  }

  /**
   * `strconv.Atoi(s)`: a literal inside the 64-bit range is its value; a
   * literal outside it is a range error; any other text is a syntax error,
   * unless its leading digits already overflow `uint64`, which is a range
   * error too. Both errors name the whole input.
   */
  function Atoi(s: string): (r: Result<int, NumError>)
    ensures r.Ok? <==> IsIntLiteral(s) && MinInt <= LiteralValue(s) <= MaxInt
    ensures r.Ok? ==> r.value == LiteralValue(s)
    ensures r.Err? && (IsIntLiteral(s) || OverflowsFirst(s)) ==> r == Err(ErrRange(s))
    ensures !IsIntLiteral(s) && !OverflowsFirst(s) ==> r == Err(ErrSyntax(s))
  {
    if !IsIntLiteral(s) then
      if OverflowsFirst(s) then Err(ErrRange(s)) else Err(ErrSyntax(s))
    else
      var v := LiteralValue(s);
      if v < MinInt || v > MaxInt then Err(ErrRange(s)) else Ok(v)
  }

  /** The leading digits of digits followed by a non-digit are those digits. */
  lemma {:induction false} LeadingDigitsOfRun(p: string, rest: string)
    requires AllDigits(p) && rest != [] && !IsDigit(rest[0])
    ensures LeadingDigits(p + rest) == p
  {
    if p != [] {
      assert (p + rest)[1..] == p[1..] + rest;
      LeadingDigitsOfRun(p[1..], rest);
    } else {
      assert p + rest == rest;
    }
  }

  /**
   * Digits whose value exceeds `uint64`, followed by anything that is not a
   * digit, are a range error and not a syntax error.
   */
  lemma AtoiOverflowBeforeNonDigit(p: string, rest: string)
    requires p != [] && AllDigits(p) && DigitsValue(p) > MaxUint64
    requires rest != [] && !IsDigit(rest[0])
    ensures Atoi(p + rest) == Err(ErrRange(p + rest))
  {
    var s := p + rest;
    assert s[0] == p[0] && IsDigit(p[0]);
    assert Magnitude(s) == s;
    LeadingDigitsOfRun(p, rest);
  }

  /** Decimal digits of a natural number, without leading zeros. */
  function NatDigits(n: nat): (s: string)
    ensures s != [] && AllDigits(s)
    decreases n
  {
    if n < 10 then [DigitChar(n)] else NatDigits(n / 10) + [DigitChar(n % 10)]
  }

  /** `strconv.Itoa(n)`. */
  function Itoa(n: int): string
  {
    if n < 0 then "-" + NatDigits(-n) else NatDigits(n)
  }

  lemma {:induction false} NatDigitsValue(n: nat)
    ensures DigitsValue(NatDigits(n)) == n
    decreases n
  {
    var s := NatDigits(n);
    if n >= 10 {
      NatDigitsValue(n / 10);
      assert s[..|s| - 1] == NatDigits(n / 10);
    }
  }

  /** A minus sign before the digits of `m` is a literal with value `-m`. */
  lemma NegativeLiteral(m: nat)
    ensures IsIntLiteral("-" + NatDigits(m)) && LiteralValue("-" + NatDigits(m)) == -(m as int)
  {
    var digits := NatDigits(m);
    assert Magnitude("-" + digits) == digits;
    NatDigitsValue(m);
  }

  /** The digits of `m` alone are a literal with value `m`. */
  lemma UnsignedLiteral(m: nat)
    ensures IsIntLiteral(NatDigits(m)) && LiteralValue(NatDigits(m)) == m
  {
    assert IsDigit(NatDigits(m)[0]);
    NatDigitsValue(m);
  }

  /** Itoa writes a literal, and the literal denotes the number written. */
  lemma ItoaLiteral(n: int)
    ensures IsIntLiteral(Itoa(n)) && LiteralValue(Itoa(n)) == n
  {
    if n < 0 {
      NegativeLiteral(-n);
    } else {
      UnsignedLiteral(n);
    }
  }

  /** Atoi reads back every 64-bit value that Itoa writes. */
  lemma AtoiItoa(n: int)
    requires MinInt <= n <= MaxInt
    ensures Atoi(Itoa(n)) == Ok(n)
  {
    ItoaLiteral(n);
  }

  /** Neither the empty string nor a lone sign is a number. */
  lemma AtoiRejectsEmpty()
    ensures Atoi("").Err? && Atoi("+").Err? && Atoi("-").Err?
  {
  }
}
