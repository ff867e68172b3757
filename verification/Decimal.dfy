/** Signed decimal numerals as strconv.Atoi reads them and fmt prints them,
    for the 64-bit int of the platforms the provider is built for. */
module Decimal {
  import opened Wrappers

  const MAX_INT: int := 0x7FFF_FFFF_FFFF_FFFF

  predicate InRange(n: int) {
    -MAX_INT - 1 <= n <= MAX_INT
  }

  lemma InRangeIff(n: int)
    ensures InRange(n) <==> -9223372036854775808 <= n <= 9223372036854775807
  {}

  predicate IsDigit(c: char) {
    '0' <= c <= '9'
  }

  function DigitValue(c: char): nat
    requires IsDigit(c)
  {
    (c - '0') as nat
  }

  predicate AllDigits(s: string) {
    forall i | 0 <= i < |s| :: IsDigit(s[i])
  }

  /** The value of a digit string, most significant digit first. */
  function Value(s: string): nat
    requires AllDigits(s)
  {
    if s == "" then 0 else 10 * Value(s[..|s| - 1]) + DigitValue(s[|s| - 1])
  }

  predicate IsSigned(s: string) {
    s != "" && (s[0] == '-' || s[0] == '+')
  }

  function Unsigned(s: string): string {
    if IsSigned(s) then s[1..] else s
  }

  /** An optionally signed, non-empty digit string. */
  predicate IsNumeral(s: string) {
    Unsigned(s) != "" && AllDigits(Unsigned(s))
  }

  function NumeralValue(s: string): int
    requires IsNumeral(s)
  {
    if s[0] == '-' then 0 - Value(Unsigned(s)) else Value(Unsigned(s))
  }

  function Atoi(s: string): Option<int> {
    if IsNumeral(s) && InRange(NumeralValue(s)) then Some(NumeralValue(s)) else None
  }

  function DigitChar(d: nat): (c: char)
    requires d < 10
  {
    '0' + d as char
  }

  function PrintNat(n: nat): string {
    if n < 10 then [DigitChar(n)] else PrintNat(n / 10) + [DigitChar(n % 10)]
  }

  function Print(n: int): string {
    if n < 0 then "-" + PrintNat(-n) else PrintNat(n)
  }

  /** No plus sign, no leading zero, no minus zero. */
  predicate IsCanonical(s: string) {
    && IsNumeral(s)
    && s[0] != '+'
    && (Unsigned(s)[0] == '0' ==> s == "0")
  }

  lemma {:induction false} PrintNatDigits(n: nat)
    ensures var s := PrintNat(n);
      && s != "" && AllDigits(s) && Value(s) == n
      && (s[0] == '0' ==> n == 0 && s == "0")
  {
    var s := PrintNat(n);
    if n < 10 {
      assert s[..0] == "";
    } else {
      PrintNatDigits(n / 10);
      assert s[..|s| - 1] == PrintNat(n / 10);
      assert s[0] == PrintNat(n / 10)[0];
    }
  }

  /** Without a leading zero the digits are determined by the value. */
  lemma {:induction false} PrintNatValue(s: string)
    requires s != "" && AllDigits(s) && (s[0] == '0' ==> s == "0")
    ensures PrintNat(Value(s)) == s
  {
    var h := s[..|s| - 1];
    if h == "" {
      assert Value(s) == DigitValue(s[0]);
    } else {
      assert h[0] == s[0] != '0';
      PrintNatValue(h);
      PositiveValue(h);
      assert Value(s) / 10 == Value(h) && Value(s) % 10 == DigitValue(s[|s| - 1]);
      assert s == h + [s[|s| - 1]];
    }
  }

  lemma {:induction false} PositiveValue(s: string)
    requires s != "" && AllDigits(s) && s[0] != '0'
    ensures Value(s) >= 1
  {
    if |s| > 1 {
      PositiveValue(s[..|s| - 1]);
    } else {
      assert s[..0] == "";
    }
  }

  /** Every 64-bit integer survives being printed and read. */
  lemma AtoiPrint(n: int)
    ensures IsCanonical(Print(n))
    ensures Atoi(Print(n)) == if InRange(n) then Some(n) else None
  {
    PrintNatDigits(if n < 0 then -n else n);
    var s := Print(n);
    if n < 0 {
      assert s[1..] == PrintNat(-n);
    } else {
      assert !IsSigned(s);
    }
  }

  /** A numeral survives being read and printed exactly when it is canonical. */
  lemma PrintAtoi(s: string)
    requires Atoi(s).Some?
    ensures Print(Atoi(s).value) == s <==> IsCanonical(s)
  {
    if IsCanonical(s) {
      PrintNatValue(Unsigned(s));
      if s[0] == '-' {
        PositiveValue(Unsigned(s));
        assert s == "-" + s[1..];
      }
    } else {
      AtoiPrint(Atoi(s).value);
    }
  }

  /** Digit by digit: appending a digit multiplies by ten and adds it, a minus
      sign negates and a plus sign does nothing. */
  lemma ValueIs(s: string, d: nat)
    requires AllDigits(s) && d < 10
    ensures Value("") == 0 && AllDigits(s + ["0123456789"[d]]) && Value(s + ["0123456789"[d]]) == 10 * Value(s) + d
    ensures s != "" ==>
      && IsNumeral(s) && NumeralValue(s) == Value(s)
      && IsNumeral("+" + s) && NumeralValue("+" + s) == Value(s)
      && IsNumeral("-" + s) && NumeralValue("-" + s) == 0 - Value(s)
    ensures !IsNumeral("") && !IsNumeral("+") && !IsNumeral("-")
  {
    var c := "0123456789"[d];
    assert c == DigitChar(d);
    assert (s + [c])[..|s|] == s;
    if s != "" {
      assert !IsSigned(s);
      assert ("+" + s)[1..] == s && ("-" + s)[1..] == s;
    }
    assert Unsigned("+") == "" && Unsigned("-") == "";
  }
}
