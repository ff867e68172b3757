/** Queue, exchange and binding arguments: strings in the custom resource,
    typed values on the broker. */
module Arguments {
  import opened Wrappers
  import opened Decimal

  type Strings = map<string, string>

  /** An argument as the broker holds it. Other stands for every value that is
      neither an integer nor a string, known here by what "%v" prints for it. */
  datatype Value = Number(n: int) | Text(s: string) | Other(printed: string)

  type Typed = map<string, Value>

  function ToValue(s: string): Value {
    match Atoi(s)
    case Some(n) => Number(n)
    case None => Text(s)
  }

  function ToText(v: Value): string {
    match v
    case Text(s) => s
    case Number(n) => Print(n)
    case Other(p) => p
  }

  function ToTyped(m: Strings): Typed {
    map k | k in m :: ToValue(m[k])
  }

  function ToStrings(m: Typed): Strings {
    map k | k in m :: ToText(m[k])
  }

  /** t holds m with every numeral in range as an integer, and all else as it is. */
  ghost predicate Types(m: Strings, t: Typed) {
    t.Keys == m.Keys
    && forall k | k in m ::
         if IsNumeral(m[k]) && InRange(NumeralValue(m[k])) then t[k] == Number(NumeralValue(m[k])) else t[k] == Text(m[k])
  }

  lemma TypedIs(m: Strings)
    ensures Types(m, ToTyped(m))
  {}

  /** An integer printed into an argument reaches the broker as that integer. */
  lemma PrintedIsNumber(n: int)
    requires InRange(n)
    ensures ToValue(Print(n)) == Number(n)
  {
    AtoiPrint(n);
  }

  /** Texts come back as they are, integers in decimal, anything else as it is printed. */
  lemma PrintedIs(t: Typed, k: string)
    requires k in t
    ensures ToStrings(t).Keys == t.Keys
    ensures t[k].Text? ==> ToStrings(t)[k] == t[k].s
    ensures t[k].Number? ==> IsCanonical(ToStrings(t)[k]) && NumeralValue(ToStrings(t)[k]) == t[k].n
    ensures t[k].Other? ==> ToStrings(t)[k] == t[k].printed
  {
    if t[k].Number? { PrintedValue(t[k].n); }
  }

  lemma PrintedValue(n: int)
    ensures IsCanonical(Print(n)) && NumeralValue(Print(n)) == n
  {
    AtoiPrint(n);
    PrintNatDigits(if n < 0 then -n else n);
    if n < 0 { assert Print(n)[1..] == PrintNat(-n); } else { assert !IsSigned(Print(n)); }
  }

  /** ConvertStringMapToInterfaceMap: fills the result key by key, in any order. */
  method ConvertStringMapToInterfaceMap(m: Strings) returns (finalMap: Typed)
    ensures finalMap == ToTyped(m)
    ensures Types(m, finalMap)
  {
    finalMap := map[];
    var rest := m.Keys;
    while rest != {}
      invariant rest <= m.Keys
      invariant finalMap == map k | k in m.Keys - rest :: ToValue(m[k])
      decreases rest
    {
      var k :| k in rest;
      var number := Atoi(m[k]);
      if number.Some? {
        finalMap := finalMap[k := Number(number.value)];
      } else {
        finalMap := finalMap[k := Text(m[k])];
      }
      rest := rest - {k};
    }
    TypedIs(m);
  }

  /** ConvertInterfaceMapToStringMap. The result is never nil, hence not an Option. */
  method ConvertInterfaceMapToStringMap(m: Typed) returns (finalMap: Strings)
    ensures finalMap == ToStrings(m)
  {
    finalMap := map[];
    var rest := m.Keys;
    while rest != {}
      invariant rest <= m.Keys
      invariant finalMap == map k | k in m.Keys - rest :: ToText(m[k])
      decreases rest
    {
      var k :| k in rest;
      if m[k].Text? {
        finalMap := finalMap[k := m[k].s];
      } else {
        finalMap := finalMap[k := ToText(m[k])];
      }
      rest := rest - {k};
    }
  }

  // ------------------------------------------------------------ round trip

  /** A string that comes back unchanged: not a numeral at all, a numeral too
      large for an int, or a canonical one. */
  predicate Survives(s: string) {
    !IsNumeral(s) || !InRange(NumeralValue(s)) || IsCanonical(s)
  }

  predicate AllSurvive(m: Strings) {
    forall k | k in m :: Survives(m[k])
  }

  function RoundTrip(m: Strings): Strings {
    ToStrings(ToTyped(m))
  }

  lemma TextRoundTrip(s: string)
    ensures ToText(ToValue(s)) == s <==> Survives(s)
    ensures Survives(ToText(ToValue(s)))
  {
    if Atoi(s).Some? {
      PrintAtoi(s);
      AtoiPrint(Atoi(s).value);
    }
  }

  /** The round trip returns the original map exactly when every value survives. */
  lemma RoundTripIff(m: Strings)
    ensures RoundTrip(m) == m <==> AllSurvive(m)
  {
    var r := RoundTrip(m);
    forall k | k in m ensures r[k] == m[k] <==> Survives(m[k]) {
      TextRoundTrip(m[k]);
    }
    if r == m {
      forall k | k in m ensures Survives(m[k]) {
        assert r[k] == m[k];
      }
    }
  }

  /** Whatever it changes, it changes once. */
  lemma RoundTripIdempotent(m: Strings)
    ensures AllSurvive(RoundTrip(m))
    ensures RoundTrip(RoundTrip(m)) == RoundTrip(m)
  {
    forall k | k in m ensures Survives(RoundTrip(m)[k]) {
      TextRoundTrip(m[k]);
    }
    RoundTripIff(RoundTrip(m));
  }

  /** What the broker is told does not change in the round trip. */
  lemma SameTypedAgain(m: Strings)
    ensures ToTyped(RoundTrip(m)) == ToTyped(m)
  {
    forall k | k in m ensures ToValue(RoundTrip(m)[k]) == ToValue(m[k]) {
      if Atoi(m[k]).Some? { AtoiPrint(Atoi(m[k]).value); }
    }
  }

  /** The broker cannot tell two sets of arguments apart exactly when they have the same round trip. */
  lemma SameTypedIff(m1: Strings, m2: Strings)
    ensures ToTyped(m1) == ToTyped(m2) <==> RoundTrip(m1) == RoundTrip(m2)
  {
    SameTypedAgain(m1);
    SameTypedAgain(m2);
  }
}
