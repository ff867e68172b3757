/** The identity of a binding: percent-decoded from the Location header by
    Create, joined with slashes into the external name, and split out of it
    again by every later Observe. Strings are octet strings here, a character
    standing for one octet. */
module BindingId {
  import opened Wrappers
  import opened Splitting

  // ---------------------------------------------------- percent-encoding

  predicate IsHex(c: char) {
    '0' <= c <= '9' || 'a' <= c <= 'f' || 'A' <= c <= 'F'
  }

  function HexOf(c: char): nat
    requires IsHex(c)
    ensures HexOf(c) < 16
  {
    if c <= '9' then (c - '0') as nat
    else if c <= 'F' then (c - 'A') as nat + 10
    else (c - 'a') as nat + 10
  }

  function Octet(high: char, low: char): char
    requires IsHex(high) && IsHex(low)
  {
    (HexOf(high) * 16 + HexOf(low)) as char
  }

  /** Two digits stand for sixteen times the first and the second, in either case. */
  lemma OctetIs(h: nat, l: nat)
    requires h < 16 && l < 16
    ensures var lower, upper := "0123456789abcdef", "0123456789ABCDEF";
      && IsHex(lower[h]) && IsHex(lower[l]) && IsHex(upper[h]) && IsHex(upper[l])
      && Octet(lower[h], lower[l]) as int == 16 * h + l
      && Octet(upper[h], upper[l]) as int == 16 * h + l
  {
    HexOfIs(h);
    HexOfIs(l);
  }

  lemma HexOfIs(d: nat)
    requires d < 16
    ensures var lower, upper := "0123456789abcdef", "0123456789ABCDEF";
      IsHex(lower[d]) && IsHex(upper[d]) && HexOf(lower[d]) == d && HexOf(upper[d]) == d
  {}

  /** Nothing else is a hexadecimal digit. */
  lemma IsHexIff(c: char)
    ensures IsHex(c) <==> c in "0123456789abcdefABCDEF"
  {
    var digits := "0123456789abcdefABCDEF";
    if '0' <= c <= '9' { assert digits[c as int - '0' as int] == c; }
    if 'a' <= c <= 'f' { assert digits[c as int - 'a' as int + 10] == c; }
    if 'A' <= c <= 'F' { assert digits[c as int - 'A' as int + 16] == c; }
  }

  /** url.PathUnescape: a percent sign must be followed by two hexadecimal
      digits; everything else, the plus sign included, stands for itself. */
  function PathUnescape(e: string): Option<string> {
    if e == "" then Some("")
    else if e[0] == '%' then
      if |e| >= 3 && IsHex(e[1]) && IsHex(e[2]) then
        match PathUnescape(e[3..])
        case Some(k) => Some([Octet(e[1], e[2])] + k)
        case None => None
      else None
    else
      match PathUnescape(e[1..])
      case Some(k) => Some([e[0]] + k)
      case None => None
  }

  /** e is a percent-encoding of k as one path segment (section 2.1 of RFC
      3986): any octet may be encoded, the percent sign and the slash must be. */
  predicate Encodes(e: string, k: string)
    decreases |k|
  {
    if k == "" then e == ""
    else
      || (e != "" && e[0] == k[0] && e[0] != '%' && e[0] != '/' && Encodes(e[1..], k[1..]))
      || (|e| >= 3 && e[0] == '%' && IsHex(e[1]) && IsHex(e[2]) && Octet(e[1], e[2]) == k[0] && Encodes(e[3..], k[1..]))
  }

  lemma {:induction false} DecodesEncoding(e: string, k: string)
    requires Encodes(e, k)
    ensures PathUnescape(e) == Some(k) && '/' !in e
    decreases |k|
  {
    if k != "" {
      assert k == [k[0]] + k[1..];
      if e[0] == '%' {
        DecodesEncoding(e[3..], k[1..]);
        assert e == [e[0], e[1], e[2]] + e[3..];
      } else {
        DecodesEncoding(e[1..], k[1..]);
        assert e == [e[0]] + e[1..];
      }
    }
  }

  /** On a single segment, decoding to k means being an encoding of k. */
  lemma {:induction false} EncodesIff(e: string, k: string)
    requires '/' !in e
    ensures PathUnescape(e) == Some(k) <==> Encodes(e, k)
    decreases |e|
  {
    if Encodes(e, k) {
      DecodesEncoding(e, k);
    } else if PathUnescape(e) == Some(k) && e != "" {
      var n := if e[0] == '%' then 3 else 1;
      EncodesIff(e[n..], k[1..]);
    }
  }

  /** Every percent sign is followed by two hexadecimal digits. */
  predicate Decodable(e: string) {
    forall i | 0 <= i < |e| && e[i] == '%' :: i + 2 < |e| && IsHex(e[i + 1]) && IsHex(e[i + 2])
  }

  lemma {:induction false} DecodesIff(e: string)
    ensures PathUnescape(e).Some? <==> Decodable(e)
    decreases |e|
  {
    if e != "" {
      var n := if e[0] == '%' then 3 else 1;
      if n <= |e| && (n == 3 ==> IsHex(e[1]) && IsHex(e[2])) {
        DecodesIff(e[n..]);
        assert forall i | n <= i < |e| :: e[i] == e[n..][i - n];
        forall i | n <= i < |e| && e[i] == '%' && Decodable(e[n..]) ensures i + 2 < |e| && IsHex(e[i + 1]) && IsHex(e[i + 2]) {
          assert e[n..][i - n] == '%';
        }
      }
    }
  }

  // ------------------------------------------------------- external names

  function ExternalName(vhost: string, source: string, destinationType: string, destination: string, key: string): string {
    vhost + "/" + source + "/" + destinationType + "/" + destination + "/" + key
  }

  const EXPECTED_PARTS := 5

  /** What getBinding takes for the properties key. */
  function KeySlot(name: string): Option<string> {
    var id := Split(name, '/');
    if |id| < EXPECTED_PARTS then None else Some(id[4])
  }

  function LastSegment(location: string): string {
    var parts := Split(location, '/');
    parts[|parts| - 1]
  }

  /** What Create makes of the Location header. */
  function KeyFromLocation(location: string): Option<string> {
    PathUnescape(LastSegment(location))
  }

  predicate SlashFree(s: string) {
    '/' !in s
  }

  lemma NameParts(vhost: string, source: string, destinationType: string, destination: string, key: string)
    ensures Split(ExternalName(vhost, source, destinationType, destination, key), '/')
         == Split(vhost, '/') + Split(source, '/') + Split(destinationType, '/') + Split(destination, '/') + Split(key, '/')
  {
    var n2 := vhost + "/" + source;
    var n3 := n2 + "/" + destinationType;
    var n4 := n3 + "/" + destination;
    SplitConcat(vhost, source, '/');
    SplitConcat(n2, destinationType, '/');
    SplitConcat(n3, destination, '/');
    SplitConcat(n4, key, '/');
  }

  /** The slot holds the first segment of the key when the four fields are
      free of slashes, and otherwise a segment of one of those fields. */
  lemma SlotOf(vhost: string, source: string, destinationType: string, destination: string, key: string)
    ensures var slot := KeySlot(ExternalName(vhost, source, destinationType, destination, key));
      && slot.Some?
      && SlashFree(slot.value)
      && (if SlashFree(vhost) && SlashFree(source) && SlashFree(destinationType) && SlashFree(destination)
          then slot.value == Split(key, '/')[0]
          else slot.value in Split(vhost, '/') + Split(source, '/') + Split(destinationType, '/') + Split(destination, '/'))
  {
    NameParts(vhost, source, destinationType, destination, key);
    var name := ExternalName(vhost, source, destinationType, destination, key);
    var fields := Split(vhost, '/') + Split(source, '/') + Split(destinationType, '/') + Split(destination, '/');
    var id := Split(name, '/');
    assert id == fields + Split(key, '/');
    PartsFree(name, '/');
    assert id[4] in id;
    SplitOneIff(vhost, '/');
    SplitOneIff(source, '/');
    SplitOneIff(destinationType, '/');
    SplitOneIff(destination, '/');
    if |fields| > 4 {
      assert id[4] == fields[4];
    }
  }

  /** With slash-free fields the key is recovered exactly when it has no slash itself. */
  lemma KeyRecoveredIff(vhost: string, source: string, destinationType: string, destination: string, key: string)
    requires SlashFree(vhost) && SlashFree(source) && SlashFree(destinationType) && SlashFree(destination)
    ensures KeySlot(ExternalName(vhost, source, destinationType, destination, key)) == Some(key) <==> SlashFree(key)
  {
    SlotOf(vhost, source, destinationType, destination, key);
    if SlashFree(key) { SplitFree(key, '/'); }
  }

  /** The last segment of the Location header decodes to the key it encodes. */
  lemma LocationKey(prefix: string, e: string, key: string)
    requires Encodes(e, key)
    ensures KeyFromLocation(prefix + "/" + e) == Some(key)
  {
    DecodesEncoding(e, key);
    SplitConcat(prefix, e, '/');
    SplitFree(e, '/');
  }

  /** End to end: header in, properties key out of the stored name. */
  lemma IdentityEndToEnd(prefix: string, e: string, vhost: string, source: string, destinationType: string, destination: string, key: string)
    requires Encodes(e, key)
    requires SlashFree(vhost) && SlashFree(source) && SlashFree(destinationType) && SlashFree(destination)
    ensures var decoded := KeyFromLocation(prefix + "/" + e);
      && decoded.Some?
      && (KeySlot(ExternalName(vhost, source, destinationType, destination, decoded.value)) == Some(key) <==> SlashFree(key))
  {
    LocationKey(prefix, e, key);
    KeyRecoveredIff(vhost, source, destinationType, destination, key);
  }

  /** The default virtual host is named by a single slash: its bindings are
      never found again under the key the broker gave them. */
  lemma DefaultVhostLosesKey(source: string, destinationType: string, destination: string, key: string)
    requires SlashFree(source) && SlashFree(destinationType) && SlashFree(destination)
    ensures KeySlot(ExternalName("/", source, destinationType, destination, key)) == Some(destination)
  {
    NameParts("/", source, destinationType, destination, key);
    assert Split("/", '/') == ["", ""] by { SplitConcat("", "", '/'); assert "" + ['/'] + "" == "/"; }
    SplitFree(source, '/');
    SplitFree(destinationType, '/');
    SplitFree(destination, '/');
  }
}
