/** Standard base64 with padding (section 4 of RFC 4648), as encoding/base64
    writes and reads it: line breaks are skipped, spare bits are not checked. */
module Base64 {
  import opened Wrappers

  type Byte = x: int | 0 <= x < 256
  type Bytes = seq<Byte>

  function Letter(n: nat): (c: char)
    requires n < 64
    ensures c != '=' && c != '\r' && c != '\n'
  {
    if n < 26 then 'A' + n as char
    else if n < 52 then 'a' + (n - 26) as char
    else if n < 62 then '0' + (n - 52) as char
    else if n == 62 then '+' else '/'
  }

  function Index(c: char): Option<nat>
    ensures Index(c).Some? ==> Index(c).value < 64
  {
    if 'A' <= c <= 'Z' then Some((c - 'A') as nat)
    else if 'a' <= c <= 'z' then Some((c - 'a') as nat + 26)
    else if '0' <= c <= '9' then Some((c - '0') as nat + 52)
    else if c == '+' then Some(62)
    else if c == '/' then Some(63)
    else None
  }

  function Encode(b: Bytes): string {
    if b == [] then ""
    else if |b| == 1 then [Letter(b[0] / 4), Letter(b[0] % 4 * 16), '=', '=']
    else if |b| == 2 then [Letter(b[0] / 4), Letter(b[0] % 4 * 16 + b[1] / 16), Letter(b[1] % 16 * 4), '=']
    else
      [Letter(b[0] / 4), Letter(b[0] % 4 * 16 + b[1] / 16), Letter(b[1] % 16 * 4 + b[2] / 64), Letter(b[2] % 64)]
      + Encode(b[3..])
  }

  function WithoutBreaks(s: string): string {
    if s == "" then ""
    else if s[0] == '\r' || s[0] == '\n' then WithoutBreaks(s[1..])
    else [s[0]] + WithoutBreaks(s[1..])
  }

  function First(i: nat, j: nat): Byte
    requires i < 64 && j < 64
  {
    i * 4 + j / 16
  }

  function Second(j: nat, k: nat): Byte
    requires j < 64 && k < 64
  {
    j % 16 * 16 + k / 4
  }

  function Third(k: nat, l: nat): Byte
    requires k < 64 && l < 64
  {
    k % 4 * 64 + l
  }

  /** Four characters at a time; a padded group must be the last. */
  function DecodeGroups(s: string): Option<Bytes> {
    if s == "" then Some([])
    else if |s| < 4 then None
    else
      var i, j, k, l := Index(s[0]), Index(s[1]), Index(s[2]), Index(s[3]);
      if i.None? || j.None? then None
      else if s[2] == '=' then
        if s[3] == '=' && |s| == 4 then Some([First(i.value, j.value)]) else None
      else if k.None? then None
      else if s[3] == '=' then
        if |s| == 4 then Some([First(i.value, j.value), Second(j.value, k.value)]) else None
      else if l.None? then None
      else
        match DecodeGroups(s[4..])
        case None => None
        case Some(rest) =>
          Some([First(i.value, j.value), Second(j.value, k.value), Third(k.value, l.value)] + rest)
  }

  function Decode(s: string): Option<Bytes> {
    DecodeGroups(WithoutBreaks(s))
  }

  /** Table 1 of RFC 4648. */
  lemma LetterIs(n: nat)
    requires n < 64
    ensures n < 26 ==> Letter(n) == "ABCDEFGHIJKLMNOPQRSTUVWXYZ"[n]
    ensures 26 <= n < 52 ==> Letter(n) == "abcdefghijklmnopqrstuvwxyz"[n - 26]
    ensures 52 <= n ==> Letter(n) == "0123456789+/"[n - 52]
  {}

  /** Three bytes and the four letters for them are the same 24-bit number, most significant first. */
  lemma GroupIsNumber(a: Byte, b: Byte, c: Byte)
    ensures var t := Encode([a, b, c]);
      && |t| == 4 && Index(t[0]).Some? && Index(t[1]).Some? && Index(t[2]).Some? && Index(t[3]).Some?
      && ((Index(t[0]).value * 64 + Index(t[1]).value) * 64 + Index(t[2]).value) * 64 + Index(t[3]).value == (a * 256 + b) * 256 + c
  {
    assert Encode([a, b, c][3..]) == "";
    IndexLetter(a / 4);
    IndexLetter(a % 4 * 16 + b / 16);
    IndexLetter(b % 16 * 4 + c / 64);
    IndexLetter(c % 64);
  }

  lemma IndexLetter(n: nat)
    requires n < 64
    ensures Index(Letter(n)) == Some(n)
  {}

  lemma {:induction false} NoBreaks(s: string)
    requires '\r' !in s && '\n' !in s
    ensures WithoutBreaks(s) == s
  {
    if s != "" {
      NoBreaks(s[1..]);
      assert s == [s[0]] + s[1..];
    }
  }

  lemma {:induction false} EncodeHasNoBreaks(b: Bytes)
    ensures '\r' !in Encode(b) && '\n' !in Encode(b)
  {
    if |b| >= 3 { EncodeHasNoBreaks(b[3..]); }
  }

  lemma GroupArithmetic(a: Byte, b: Byte, c: Byte)
    ensures First(a / 4, a % 4 * 16 + b / 16) == a
    ensures Second(a % 4 * 16 + b / 16, b % 16 * 4 + c / 64) == b
    ensures Third(b % 16 * 4 + c / 64, c % 64) == c
  {}

  lemma {:induction false} GroupsRoundTrip(b: Bytes)
    ensures DecodeGroups(Encode(b)) == Some(b)
  {
    if |b| >= 3 {
      GroupsRoundTrip(b[3..]);
      ThreeBytes(b[0], b[1], b[2], b[3..]);
      assert b == [b[0], b[1], b[2]] + b[3..];
    } else if |b| == 2 {
      TwoBytes(b[0], b[1]);
      assert b == [b[0], b[1]];
    } else if |b| == 1 {
      OneByte(b[0]);
      assert b == [b[0]];
    }
  }

  lemma ThreeBytes(a: Byte, b: Byte, c: Byte, rest: Bytes)
    requires DecodeGroups(Encode(rest)) == Some(rest)
    ensures DecodeGroups(Encode([a, b, c] + rest)) == Some([a, b, c] + rest)
  {
    GroupArithmetic(a, b, c);
    IndexLetter(a / 4);
    IndexLetter(a % 4 * 16 + b / 16);
    IndexLetter(b % 16 * 4 + c / 64);
    IndexLetter(c % 64);
    var group := [Letter(a / 4), Letter(a % 4 * 16 + b / 16), Letter(b % 16 * 4 + c / 64), Letter(c % 64)];
    assert ([a, b, c] + rest)[3..] == rest;
    assert Encode([a, b, c] + rest) == group + Encode(rest);
    assert (group + Encode(rest))[4..] == Encode(rest);
  }

  lemma OneByte(a: Byte)
    ensures DecodeGroups(Encode([a])) == Some([a])
  {
    GroupArithmetic(a, 0, 0);
    IndexLetter(a / 4);
    IndexLetter(a % 4 * 16);
    assert Encode([a]) == [Letter(a / 4), Letter(a % 4 * 16), '=', '='];
  }

  lemma TwoBytes(a: Byte, b: Byte)
    ensures DecodeGroups(Encode([a, b])) == Some([a, b])
  {
    GroupArithmetic(a, b, 0);
    IndexLetter(a / 4);
    IndexLetter(a % 4 * 16 + b / 16);
    IndexLetter(b % 16 * 4);
    assert Encode([a, b]) == [Letter(a / 4), Letter(a % 4 * 16 + b / 16), Letter(b % 16 * 4), '='];
  }

  lemma RoundTrip(b: Bytes)
    ensures Decode(Encode(b)) == Some(b)
  {
    EncodeHasNoBreaks(b);
    NoBreaks(Encode(b));
    GroupsRoundTrip(b);
  }

  lemma {:induction false} EncodedLength(b: Bytes)
    ensures |Encode(b)| == (|b| + 2) / 3 * 4
    decreases |b|
  {
    if |b| >= 3 {
      EncodedLength(b[3..]);
      assert (|b| + 2) / 3 == (|b[3..]| + 2) / 3 + 1;
    }
  }

  /** Padding ends every encoding but those of whole groups. */
  lemma {:induction false} EncodedPadding(b: Bytes)
    ensures |b| % 3 == 0 ==> '=' !in Encode(b)
    ensures |b| % 3 != 0 ==> Encode(b) != "" && Encode(b)[|Encode(b)| - 1] == '='
  {
    if |b| >= 3 {
      EncodedPadding(b[3..]);
      assert |b[3..]| % 3 == |b| % 3;
      var head, tail := Encode(b)[..4], Encode(b[3..]);
      assert Encode(b) == head + tail;
      assert '=' !in head;
    }
  }

  // ---------------------------------------------- everything that decodes

  /** Carriage returns and line feeds are taken out wherever they are, and nothing else is. */
  lemma {:induction false} BreaksGo(s: string, c: char, t: string)
    ensures WithoutBreaks(s + [c] + t) == WithoutBreaks(s) + (if c in "\r\n" then "" else [c]) + WithoutBreaks(t)
    ensures WithoutBreaks("") == ""
  {
    if s == "" {
      assert s + [c] + t == [c] + t && ([c] + t)[1..] == t;
    } else {
      BreaksGo(s[1..], c, t);
      assert (s + [c] + t)[1..] == s[1..] + [c] + t;
    }
  }

  function Top(c: char, unit: nat): Option<nat>
    requires unit > 0
  {
    match Index(c)
    case None => None
    case Some(n) => Some(n / unit)
  }

  /** t is the encoding of b, except that the spare bits of a padded group are free. */
  predicate Spells(t: string, b: Bytes)
    decreases |b|
  {
    if b == [] then t == ""
    else if |b| == 1 then
      |t| == 4 && t[0] == Letter(b[0] / 4) && Top(t[1], 16) == Some(b[0] % 4) && t[2] == '=' && t[3] == '='
    else if |b| == 2 then
      |t| == 4 && t[0] == Letter(b[0] / 4) && t[1] == Letter(b[0] % 4 * 16 + b[1] / 16)
      && Top(t[2], 4) == Some(b[1] % 16) && t[3] == '='
    else
      && |t| >= 4
      && t[0] == Letter(b[0] / 4) && t[1] == Letter(b[0] % 4 * 16 + b[1] / 16)
      && t[2] == Letter(b[1] % 16 * 4 + b[2] / 64) && t[3] == Letter(b[2] % 64)
      && Spells(t[4..], b[3..])
  }

  lemma LetterIndex(c: char, n: nat)
    requires n < 64
    ensures Index(c) == Some(n) <==> c == Letter(n)
  {}

  lemma UngroupArithmetic(i: nat, j: nat, k: nat, l: nat)
    requires i < 64 && j < 64 && k < 64 && l < 64
    ensures First(i, j) / 4 == i && First(i, j) % 4 == j / 16
    ensures First(i, j) % 4 * 16 + Second(j, k) / 16 == j && Second(j, k) % 16 == k / 4
    ensures Second(j, k) % 16 * 4 + Third(k, l) / 64 == k && Third(k, l) % 64 == l
  {}

  lemma WholeGroupIff(t: string, a: Byte, b: Byte, c: Byte)
    requires |t| >= 4
    ensures var i, j, k, l := Index(t[0]), Index(t[1]), Index(t[2]), Index(t[3]);
      (i.Some? && j.Some? && k.Some? && l.Some?
        && First(i.value, j.value) == a && Second(j.value, k.value) == b && Third(k.value, l.value) == c)
      <==> t[0] == Letter(a / 4) && t[1] == Letter(a % 4 * 16 + b / 16) && t[2] == Letter(b % 16 * 4 + c / 64) && t[3] == Letter(c % 64)
  {
    var i, j, k, l := Index(t[0]), Index(t[1]), Index(t[2]), Index(t[3]);
    GroupArithmetic(a, b, c);
    if i.Some? && j.Some? && k.Some? && l.Some? { UngroupArithmetic(i.value, j.value, k.value, l.value); }
    LetterIndex(t[0], a / 4);
    LetterIndex(t[1], a % 4 * 16 + b / 16);
    LetterIndex(t[2], b % 16 * 4 + c / 64);
    LetterIndex(t[3], c % 64);
  }

  lemma {:induction false} GroupsIff(t: string, b: Bytes)
    ensures DecodeGroups(t) == Some(b) <==> Spells(t, b)
    decreases |b|
  {
    if |t| >= 4 {
      if |b| >= 3 {
        WholeGroupIff(t, b[0], b[1], b[2]);
        GroupsIff(t[4..], b[3..]);
        WholeGroupDecodes(t, b);
      } else {
        PaddedGroupIff(t, b);
      }
    }
  }

  lemma WholeGroupDecodes(t: string, b: Bytes)
    requires |t| >= 4 && |b| >= 3
    ensures DecodeGroups(t) == Some(b)
       <==> var i, j, k, l := Index(t[0]), Index(t[1]), Index(t[2]), Index(t[3]);
            && i.Some? && j.Some? && k.Some? && l.Some?
            && First(i.value, j.value) == b[0] && Second(j.value, k.value) == b[1] && Third(k.value, l.value) == b[2]
            && DecodeGroups(t[4..]) == Some(b[3..])
  {
    assert b == [b[0], b[1], b[2]] + b[3..];
    if DecodeGroups(t) == Some(b) {
      var i, j, k, l := Index(t[0]), Index(t[1]), Index(t[2]), Index(t[3]);
      var rest := DecodeGroups(t[4..]);
      assert rest.Some? && b == [First(i.value, j.value), Second(j.value, k.value), Third(k.value, l.value)] + rest.value;
    }
  }

  lemma PaddedArithmetic(i: nat, j: nat, k: nat, a: Byte, b: Byte)
    requires i < 64 && j < 64 && k < 64
    ensures First(i, j) == a <==> i == a / 4 && j / 16 == a % 4
    ensures First(i, j) == a && Second(j, k) == b <==> i == a / 4 && j == a % 4 * 16 + b / 16 && k / 4 == b % 16
  {
    UngroupArithmetic(i, j, k, 0);
  }

  lemma OneByteIff(t: string, a: Byte)
    requires |t| >= 4
    ensures DecodeGroups(t) == Some([a]) <==> Spells(t, [a])
  {
    var i, j := Index(t[0]), Index(t[1]);
    LetterIndex(t[0], a / 4);
    if i.Some? && j.Some? {
      PaddedArithmetic(i.value, j.value, 0, a, 0);
      assert [First(i.value, j.value)] == [a] <==> First(i.value, j.value) == a;
    }
  }

  lemma TwoBytesIff(t: string, a: Byte, b: Byte)
    requires |t| >= 4
    ensures DecodeGroups(t) == Some([a, b]) <==> Spells(t, [a, b])
  {
    var i, j, k := Index(t[0]), Index(t[1]), Index(t[2]);
    LetterIndex(t[0], a / 4);
    LetterIndex(t[1], a % 4 * 16 + b / 16);
    if i.Some? && j.Some? && k.Some? {
      var x, y := First(i.value, j.value), Second(j.value, k.value);
      PaddedArithmetic(i.value, j.value, k.value, a, b);
      assert [x, y] == [a, b] <==> x == a && y == b by { assert [x, y][0] == x && [x, y][1] == y; }
    }
  }

  lemma PaddedGroupIff(t: string, b: Bytes)
    requires |t| >= 4 && |b| < 3
    ensures DecodeGroups(t) == Some(b) <==> Spells(t, b)
  {
    if |b| == 1 {
      OneByteIff(t, b[0]);
      assert b == [b[0]];
    } else if |b| == 2 {
      TwoBytesIff(t, b[0], b[1]);
      assert b == [b[0], b[1]];
    }
  }

  /** The texts that decode to b: its encoding, with line breaks anywhere and
      with any spare bits. */
  lemma DecodeIff(s: string, b: Bytes)
    ensures Decode(s) == Some(b) <==> Spells(WithoutBreaks(s), b)
  {
    GroupsIff(WithoutBreaks(s), b);
  }
}
