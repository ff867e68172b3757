/** The text json.Marshal gives a map of strings, and map equality decided on
    that text. A string is a sequence of Unicode scalar values, which is what
    valid UTF-8 encodes one-to-one. */
module CanonicalJson {
  import opened Wrappers
  import opened Arguments

  // ------------------------------------------------------------- characters

  function HexDigit(n: nat): char
    requires n < 16
  {
    if n < 10 then '0' + n as char else 'a' + (n - 10) as char
  }

  predicate IsHexDigit(c: char) {
    '0' <= c <= '9' || 'a' <= c <= 'f'
  }

  function HexValue(c: char): nat
    requires IsHexDigit(c)
    ensures HexValue(c) < 16
  {
    if c <= '9' then (c - '0') as nat else (c - 'a') as nat + 10
  }

  function Hex4(n: nat): string
    requires n < 0x10000
  {
    [HexDigit(n / 16 / 16 / 16), HexDigit(n / 16 / 16 % 16), HexDigit(n / 16 % 16), HexDigit(n % 16)]
  }

  /** Characters written as \u and four hexadecimal digits: the remaining
      controls, the three HTML characters and the two line separators. */
  predicate NeedsHex(c: char) {
    c < ' ' || c == '<' || c == '>' || c == '&' || c == '\U{2028}' || c == '\U{2029}'
  }

  function Escape(c: char): string {
    if c == '"' || c == '\\' then ['\\', c]
    else if c == '\U{0008}' then "\\b"
    else if c == '\U{000C}' then "\\f"
    else if c == '\n' then "\\n"
    else if c == '\r' then "\\r"
    else if c == '\t' then "\\t"
    else if NeedsHex(c) then "\\u" + Hex4(c as nat)
    else [c]
  }

  /** The body of s, its closing quote, and then the text t. */
  function Body(s: string, t: string): string {
    if s == "" then "\"" + t else Escape(s[0]) + Body(s[1..], t)
  }

  /** s quoted, followed by the text t. */
  function Quote(s: string, t: string): string {
    "\"" + Body(s, t)
  }

  /** The text holds no control character, no HTML character and no line separator. */
  lemma {:induction false} BodyIsPlain(s: string)
    ensures forall d | d in Body(s, "") :: d >= ' ' && d != '<' && d != '>' && d != '&' && d != '\U{2028}' && d != '\U{2029}'
  {
    if s != "" {
      BodyIsPlain(s[1..]);
      EscapeIsPlain(s[0]);
    }
  }

  lemma EscapeIsPlain(c: char)
    ensures forall d | d in Escape(c) :: d >= ' ' && d != '<' && d != '>' && d != '&' && d != '\U{2028}' && d != '\U{2029}'
  {}

  // ---------------------------------------------------------------- objects

  /** Byte order on UTF-8 is code point order. */
  predicate Less(a: string, b: string) {
    b != "" && (a == "" || a[0] < b[0] || (a[0] == b[0] && Less(a[1..], b[1..])))
  }

  ghost predicate Ascending(ks: seq<string>) {
    forall i, j | 0 <= i < j < |ks| :: Less(ks[i], ks[j])
  }

  function Entries(ks: seq<string>, m: Strings): string
    requires forall k | k in ks :: k in m
  {
    if ks == [] then "}"
    else Quote(ks[0], ":" + Quote(m[ks[0]], if |ks| == 1 then "}" else "," + Entries(ks[1..], m)))
  }

  function Object(ks: seq<string>, m: Strings): string
    requires forall k | k in ks :: k in m
  {
    "{" + Entries(ks, m)
  }

  // ------------------------------------------------------ reading it back

  predicate IsScalar(n: nat) {
    n < 0xD800 || 0xE000 <= n < 0x110000
  }

  function Simple(c: char): Option<char> {
    if c == '"' || c == '\\' then Some(c)
    else if c == 'b' then Some('\U{0008}')
    else if c == 'f' then Some('\U{000C}')
    else if c == 'n' then Some('\n')
    else if c == 'r' then Some('\r')
    else if c == 't' then Some('\t')
    else None
  }

  /** One character of a string body, with the number of characters it took. */
  function ReadChar(t: string): Option<(char, nat)>
    ensures ReadChar(t).Some? ==> 0 < ReadChar(t).value.1 <= |t|
  {
    if t == "" || t[0] == '"' then None
    else if t[0] != '\\' then Some((t[0], 1))
    else if |t| < 2 then None
    else if t[1] == 'u' then
      if |t| >= 6 && IsHexDigit(t[2]) && IsHexDigit(t[3]) && IsHexDigit(t[4]) && IsHexDigit(t[5]) then
        var n := ((HexValue(t[2]) * 16 + HexValue(t[3])) * 16 + HexValue(t[4])) * 16 + HexValue(t[5]);
        if IsScalar(n) then Some((n as char, 6)) else None
      else None
    else
      match Simple(t[1])
      case Some(c) => Some((c, 2))
      case None => None
  }

  /** A string body up to its closing quote, and what follows the quote. */
  function ReadString(t: string): Option<(string, string)>
    decreases |t|
  {
    if t != "" && t[0] == '"' then Some(("", t[1..]))
    else
      match ReadChar(t)
      case None => None
      case Some((c, n)) =>
        match ReadString(t[n..])
        case None => None
        case Some((s, rest)) => Some(([c] + s, rest))
  }

  lemma Hex4Value(n: nat)
    requires n < 0x10000
    ensures var h := Hex4(n);
      && IsHexDigit(h[0]) && IsHexDigit(h[1]) && IsHexDigit(h[2]) && IsHexDigit(h[3])
      && ((HexValue(h[0]) * 16 + HexValue(h[1])) * 16 + HexValue(h[2])) * 16 + HexValue(h[3]) == n
  {
    var a := n / 16;
    var b := a / 16;
    HexDigitValue(b / 16);
    HexDigitValue(b % 16);
    HexDigitValue(a % 16);
    HexDigitValue(n % 16);
    assert (b / 16) * 16 + b % 16 == b && b * 16 + a % 16 == a && a * 16 + n % 16 == n;
  }

  lemma HexDigitValue(n: nat)
    requires n < 16
    ensures IsHexDigit(HexDigit(n)) && HexValue(HexDigit(n)) == n
  {}

  lemma ReadEscaped(c: char, t: string)
    ensures ReadChar(Escape(c) + t) == Some((c, |Escape(c)|))
  {
    if NeedsHex(c) && |Escape(c)| == 6 {
      Hex4Value(c as nat);
      assert (Escape(c) + t)[2..6] == Hex4(c as nat);
    }
  }

  lemma {:induction false} ReadBody(s: string, t: string)
    ensures ReadString(Body(s, t)) == Some((s, t))
  {
    if s == "" {
      assert ("\"" + t)[1..] == t;
    } else {
      var e, rest := Escape(s[0]), Body(s[1..], t);
      ReadEscaped(s[0], rest);
      ReadBody(s[1..], t);
      assert (e + rest)[|e|..] == rest;
      assert e[0] != '"';
      assert s == [s[0]] + s[1..];
    }
  }

  /** Quoted strings are self-delimiting. */
  lemma QuoteInjective(s1: string, t1: string, s2: string, t2: string)
    requires Quote(s1, t1) == Quote(s2, t2)
    ensures s1 == s2 && t1 == t2
  {
    ReadBody(s1, t1);
    ReadBody(s2, t2);
    assert Quote(s1, t1)[1..] == Body(s1, t1);
    assert Quote(s2, t2)[1..] == Body(s2, t2);
  }

  lemma Behind(c: string, t1: string, t2: string)
    requires c + t1 == c + t2
    ensures t1 == t2
  {
    assert t1 == (c + t1)[|c|..] && t2 == (c + t2)[|c|..];
  }

  lemma {:induction false} EntriesInjective(ks1: seq<string>, m1: Strings, ks2: seq<string>, m2: Strings)
    requires (forall k | k in ks1 :: k in m1) && (forall k | k in ks2 :: k in m2)
    requires Entries(ks1, m1) == Entries(ks2, m2)
    ensures ks1 == ks2 && forall k | k in ks1 :: m1[k] == m2[k]
    decreases |ks1|
  {
    assert Entries(ks1, m1)[0] == if ks1 == [] then '}' else '"';
    assert Entries(ks2, m2)[0] == if ks2 == [] then '}' else '"';
    if ks1 != [] && ks2 != [] {
      var t1 := if |ks1| == 1 then "}" else "," + Entries(ks1[1..], m1);
      var t2 := if |ks2| == 1 then "}" else "," + Entries(ks2[1..], m2);
      FirstEntry(ks1[0], m1[ks1[0]], t1, ks2[0], m2[ks2[0]], t2);
      assert t1[0] == t2[0];
      if |ks1| > 1 {
        Behind(",", Entries(ks1[1..], m1), Entries(ks2[1..], m2));
        EntriesInjective(ks1[1..], m1, ks2[1..], m2);
      }
      assert ks1 == [ks1[0]] + ks1[1..] && ks2 == [ks2[0]] + ks2[1..];
    }
  }

  lemma FirstEntry(k1: string, v1: string, t1: string, k2: string, v2: string, t2: string)
    requires Quote(k1, ":" + Quote(v1, t1)) == Quote(k2, ":" + Quote(v2, t2))
    ensures k1 == k2 && v1 == v2 && t1 == t2
  {
    QuoteInjective(k1, ":" + Quote(v1, t1), k2, ":" + Quote(v2, t2));
    Behind(":", Quote(v1, t1), Quote(v2, t2));
    QuoteInjective(v1, t1, v2, t2);
  }

  // ------------------------------------------------------ the key order

  lemma {:induction false} LessTotal(a: string, b: string)
    ensures a == b || Less(a, b) || Less(b, a)
    ensures !(Less(a, b) && (Less(b, a) || a == b))
  {
    if a != "" && b != "" {
      LessTotal(a[1..], b[1..]);
      assert a == [a[0]] + a[1..] && b == [b[0]] + b[1..];
    }
  }

  lemma {:induction false} LessTransitive(a: string, b: string, c: string)
    requires Less(a, b) && Less(b, c)
    ensures Less(a, c)
  {
    if a != "" && a[0] == b[0] == c[0] {
      LessTransitive(a[1..], b[1..], c[1..]);
    }
  }

  /** What sort.Slice must return for the keys of a map. */
  ghost predicate SortedKeys(ks: seq<string>, keys: set<string>) {
    Ascending(ks) && forall k :: k in ks <==> k in keys
  }

  lemma {:induction false} Least(keys: set<string>) returns (k: string)
    requires keys != {}
    ensures k in keys && forall j | j in keys && j != k :: Less(k, j)
    decreases keys
  {
    k :| k in keys;
    if keys != {k} {
      var l := Least(keys - {k});
      LessTotal(k, l);
      if Less(l, k) {
        k := l;
      } else {
        forall j | j in keys && j != k && j != l ensures Less(k, j) {
          LessTransitive(k, l, j);
        }
      }
    }
  }

  /** There is one sorted list of keys, so the text does not depend on the sorting algorithm. */
  lemma {:induction false} SortUnique(ks1: seq<string>, ks2: seq<string>, keys: set<string>)
    requires SortedKeys(ks1, keys) && SortedKeys(ks2, keys)
    ensures ks1 == ks2
    decreases |ks1|
  {
    if ks1 == [] || ks2 == [] {
      SomeKey(ks1);
      SomeKey(ks2);
    } else {
      HeadsAgree(ks1, ks2, keys);
      TailSorted(ks1, keys);
      TailSorted(ks2, keys);
      SortUnique(ks1[1..], ks2[1..], keys - {ks1[0]});
      assert ks1 == [ks1[0]] + ks1[1..] && ks2 == [ks2[0]] + ks2[1..];
    }
  }

  lemma SomeKey(ks: seq<string>)
    ensures ks != [] ==> exists k :: k in ks
  {
    if ks != [] { assert ks[0] in ks; }
  }

  lemma HeadsAgree(ks1: seq<string>, ks2: seq<string>, keys: set<string>)
    requires SortedKeys(ks1, keys) && SortedKeys(ks2, keys) && ks1 != [] && ks2 != []
    ensures ks1[0] == ks2[0]
  {
    assert ks1[0] in ks2 && ks2[0] in ks1;
    LessTotal(ks1[0], ks2[0]);
  }

  lemma TailSorted(ks: seq<string>, keys: set<string>)
    requires SortedKeys(ks, keys) && ks != []
    ensures SortedKeys(ks[1..], keys - {ks[0]})
  {
    forall i | 1 <= i < |ks| ensures ks[i] != ks[0] {
      LessTotal(ks[0], ks[i]);
    }
    assert forall k :: k in ks <==> k == ks[0] || k in ks[1..];
  }

  // --------------------------------------------------------- MapsEqualJSON

  lemma LessIrreflexive()
    ensures forall a, b :: !(Less(a, b) && Less(b, a))
  {
    forall a, b ensures !(Less(a, b) && Less(b, a)) { LessTotal(a, b); }
  }

  lemma LeastExists(keys: set<string>)
    requires keys != {}
    ensures exists k :: k in keys && forall j | j in keys && j != k :: Less(k, j)
  {
    var k := Least(keys);
  }

  function Sorted(keys: set<string>): (ks: seq<string>)
    ensures SortedKeys(ks, keys)
  {
    if keys == {} then []
    else
      LessIrreflexive();
      LeastExists(keys);
      var k :| k in keys && forall j | j in keys && j != k :: Less(k, j);
      var rest := Sorted(keys - {k});
      assert forall i | 0 <= i < |rest| :: rest[i] in rest;
      [k] + rest
  }

  /** json.Marshal; a nil map is null. */
  function Marshal(m: Option<Strings>): string {
    match m
    case None => "null"
    case Some(v) => Object(Sorted(v.Keys), v)
  }

  predicate MapsEqualJSON(m1: Option<Strings>, m2: Option<Strings>) {
    Marshal(if m1.None? then Some(map[]) else m1) == Marshal(m2)
  }

  lemma MarshalInjective(m1: Strings, m2: Strings)
    requires Marshal(Some(m1)) == Marshal(Some(m2))
    ensures m1 == m2
  {
    var ks1, ks2 := Sorted(m1.Keys), Sorted(m2.Keys);
    assert Object(ks1, m1)[1..] == Entries(ks1, m1);
    assert Object(ks2, m2)[1..] == Entries(ks2, m2);
    EntriesInjective(ks1, m1, ks2, m2);
    assert m1.Keys == m2.Keys;
  }

  /** Comparing the texts compares the maps, a nil first map read as empty. A
      nil second map equals nothing, not even a nil first map. */
  lemma MapsEqualJSONIff(m1: Option<Strings>, m2: Option<Strings>)
    ensures MapsEqualJSON(m1, m2) <==> m2.Some? && m1.GetOr(map[]) == m2.value
  {
    var v := m1.GetOr(map[]);
    if m2.Some? {
      if MapsEqualJSON(m1, m2) { MarshalInjective(v, m2.value); }
    } else {
      assert Marshal(Some(v))[0] != Marshal(m2)[0];
    }
  }
}
