/** The annotation that asks for lines to be deleted, as it is found in a line. */
module Annotations {
  import opened Wrappers
  import opened Decimal
  import opened Rewriting

  const MARKER := "+cluster-scope:delete="

  /** unicode.IsSpace. */
  predicate IsSpace(c: char) {
    || c == ' ' || '\t' <= c <= '\r' || c == '\U{0085}' || c == '\U{00A0}' || c == '\U{1680}'
    || '\U{2000}' <= c <= '\U{200A}' || c == '\U{2028}' || c == '\U{2029}' || c == '\U{202F}'
    || c == '\U{205F}' || c == '\U{3000}'
  }

  /** The code points with the property White_Space, as integers. */
  lemma IsSpaceIff(c: char)
    ensures var n := c as int;
      IsSpace(c) <==> n in {0x09, 0x0A, 0x0B, 0x0C, 0x0D, 0x20, 0x85, 0xA0, 0x1680, 0x2028, 0x2029, 0x202F, 0x205F, 0x3000} || 0x2000 <= n <= 0x200A
  {}

  function TrimSpace(s: string): string
    decreases |s|
  {
    if s == "" then ""
    else if IsSpace(s[0]) then TrimSpace(s[1..])
    else if IsSpace(s[|s| - 1]) then TrimSpace(s[..|s| - 1])
    else s
  }

  /** What follows the first occurrence of w. */
  function After(s: string, w: string): Option<string> {
    if w <= s then Some(s[|w|..])
    else if s == "" then None
    else After(s[1..], w)
  }

  /** The number of following lines that a line asks to delete, if it is a valid annotation. */
  function DeleteCount(line: string): Option<int> {
    match After(line, MARKER)
    case None => None
    case Some(rest) =>
      match Atoi(TrimSpace(rest))
      case Some(n) => if n > 0 then Some(n) else None
      case None => None
  }

  lemma DeleteCountBounds(line: string)
    ensures DeleteCount(line).Some? ==> 0 < DeleteCount(line).value <= MAX_INT
  {}

  ghost predicate Spaces(s: string) {
    forall c | c in s :: IsSpace(c)
  }

  predicate Tight(s: string) {
    s == "" || (!IsSpace(s[0]) && !IsSpace(s[|s| - 1]))
  }

  /** Trimming takes off the spaces at both ends. */
  lemma {:induction false} TrimIs(left: string, t: string, right: string)
    requires Spaces(left) && Spaces(right) && Tight(t)
    ensures TrimSpace(left + t + right) == t
    decreases |left| + |right|
  {
    var s := left + t + right;
    if left != "" {
      assert s[1..] == left[1..] + t + right;
      TrimIs(left[1..], t, right);
    } else if t == "" && right != "" {
      assert s == right && s[1..] == right[1..] + t + "";
      TrimIs(right[1..], t, "");
    } else if right != "" {
      assert s[0] == t[0] && s[|s| - 1] == right[|right| - 1];
      assert s[..|s| - 1] == left + t + right[..|right| - 1];
      TrimIs(left, t, right[..|right| - 1]);
    } else if t != "" {
      assert s == t;
    }
  }

  /** And nothing else. */
  lemma {:induction false} TrimSplits(s: string) returns (left: string, right: string)
    ensures s == left + TrimSpace(s) + right && Spaces(left) && Spaces(right) && Tight(TrimSpace(s))
    decreases |s|
  {
    left, right := "", "";
    if s != "" && IsSpace(s[0]) {
      left, right := TrimSplits(s[1..]);
      assert s == [s[0]] + s[1..] && s == ([s[0]] + left) + TrimSpace(s) + right;
      left := [s[0]] + left;
    } else if s != "" && IsSpace(s[|s| - 1]) {
      var c := s[|s| - 1];
      left, right := TrimSplits(s[..|s| - 1]);
      assert s == s[..|s| - 1] + [c] && s == left + TrimSpace(s) + (right + [c]);
      right := right + [c];
    } else {
      assert s == left + s + right;
    }
  }

  lemma {:induction false} AfterFirst(pre: string, w: string, rest: string)
    requires FirstBehind(pre, w, rest)
    ensures After(pre + (w + rest), w) == Some(rest)
  {
    var s := pre + (w + rest);
    if pre == "" {
      assert s == w + rest && s[|w|..] == rest;
    } else {
      assert s[0..] == s && !(w <= s[0..]);
      assert s[1..] == pre[1..] + (w + rest);
      forall p | 0 <= p < |pre[1..]| ensures !(w <= (pre[1..] + (w + rest))[p..]) {
        assert s[1..][p..] == s[p + 1..];
      }
      AfterFirst(pre[1..], w, rest);
    }
  }

  lemma {:induction false} AfterSplits(s: string, w: string) returns (pre: string)
    requires After(s, w).Some?
    ensures s == pre + (w + After(s, w).value) && FirstBehind(pre, w, After(s, w).value)
  {
    if w <= s {
      pre := "";
      assert s == "" + (w + s[|w|..]);
    } else {
      var rest := AfterSplits(s[1..], w);
      pre := [s[0]] + rest;
      assert s == pre + (w + After(s, w).value);
      forall p | 0 <= p < |pre| ensures !(w <= s[p..]) {
        if p > 0 { assert s[p..] == s[1..][p - 1..]; } else { assert s[0..] == s; }
      }
    }
  }

  /** Behind its first marker, spaces aside, the line has nothing but the numeral count for n. */
  ghost predicate AnnotatedBy(line: string, n: int, pre: string, left: string, count: string, right: string) {
    var rest := left + count + right;
    && line == pre + ("+cluster-scope:delete=" + rest) && FirstBehind(pre, "+cluster-scope:delete=", rest)
    && Spaces(left) && Spaces(right)
    && IsNumeral(count) && NumeralValue(count) == n && 0 < n <= MAX_INT
  }

  /** Which lines are annotations, and for how many lines. */
  lemma DeleteCountIff(line: string, n: int)
    ensures DeleteCount(line) == Some(n) <==> exists pre, left, count, right :: AnnotatedBy(line, n, pre, left, count, right)
  {
    if DeleteCount(line) == Some(n) {
      var pre := AfterSplits(line, MARKER);
      var left, right := TrimSplits(After(line, MARKER).value);
      assert AnnotatedBy(line, n, pre, left, TrimSpace(After(line, MARKER).value), right);
    }
    forall pre, left, count, right | AnnotatedBy(line, n, pre, left, count, right) ensures DeleteCount(line) == Some(n) {
      AfterFirst(pre, MARKER, left + count + right);
      NumeralIsTight(count);
      TrimIs(left, count, right);
    }
  }

  lemma NumeralIsTight(count: string)
    requires IsNumeral(count)
    ensures Tight(count)
  {
    var u := Unsigned(count);
    assert IsDigit(u[|u| - 1]) && u[|u| - 1] == count[|count| - 1];
    assert IsDigit(u[0]);
  }

  /** In particular for a printed count, whatever stands before the marker. */
  lemma CountedAnywhere(pre: string, n: int)
    requires 0 < n <= MAX_INT && FirstBehind(pre, "+cluster-scope:delete=", Print(n))
    ensures DeleteCount(pre + ("+cluster-scope:delete=" + Print(n))) == Some(n)
  {
    AtoiPrint(n);
    assert "" + Print(n) + "" == Print(n);
    assert AnnotatedBy(pre + ("+cluster-scope:delete=" + Print(n)), n, pre, "", Print(n), "");
    DeleteCountIff(pre + ("+cluster-scope:delete=" + Print(n)), n);
  }
}
