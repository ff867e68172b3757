/** Ordered string rewriting: leftmost, non-overlapping replacement of every
    occurrence of a key, and the question whether several such passes commute. */
module Rewriting {

  datatype Rule = Rule(key: string, val: string)

  /** Keys and values of at least two characters. */
  ghost predicate Proper(r: Rule) {
    |r.key| >= 2 && |r.val| >= 2
  }

  /** strings.ReplaceAll for a non-empty key. */
  function Replace(r: Rule, t: string): string
    requires r.key != ""
    decreases |t|
  {
    if t == "" then ""
    else if r.key <= t then r.val + Replace(r, t[|r.key|..])
    else [t[0]] + Replace(r, t[1..])
  }

  predicate Contains(t: string, w: string)
    decreases |t|
  {
    w <= t || (t != "" && Contains(t[1..], w))
  }

  function Last(w: string): char
    requires w != ""
  {
    w[|w| - 1]
  }

  function Front(w: string): string
    requires w != ""
  {
    w[..|w| - 1]
  }

  /** An occurrence of w may begin at position p of u, as far as u reaches. */
  ghost predicate Fits(u: string, w: string, p: nat) {
    p < |u| && (w <= u[p..] || u[p..] <= w)
  }

  // ---------------------------------------------------------------- overlaps

  /** The only overlap two rules may have without interfering: r ends in a
      character that it keeps, and s begins with that character and keeps it. */
  ghost predicate Hinge(r: Rule, s: Rule)
    requires Proper(r) && Proper(s)
  {
    Last(r.key) == Last(r.val) == s.key[0] == s.val[0]
  }

  /** The last character that r writes begins the key of s, and r did not find it there. */
  ghost predicate EndGlue(r: Rule, s: Rule)
    requires Proper(r) && Proper(s)
  {
    Last(r.val) == s.key[0] && Last(r.key) != s.key[0] && s.val[0] == s.key[0]
  }

  /** The first character that r writes ends the key of s, and r did not find it there. */
  ghost predicate StartGlue(r: Rule, s: Rule)
    requires Proper(r) && Proper(s)
  {
    r.val[0] == Last(s.key) && r.key[0] != r.val[0]
  }

  function EndWord(r: Rule, s: Rule): string
    requires s.key != ""
  {
    r.key + s.key[1..]
  }

  function StartWord(r: Rule, s: Rule): string
    requires s.key != ""
  {
    Front(s.key) + r.key
  }

  /** t holds a place where applying r first creates a new occurrence of the key of s. */
  ghost predicate Clash(r: Rule, s: Rule, t: string)
    requires Proper(r) && Proper(s)
  {
    || (EndGlue(r, s) && Contains(t, EndWord(r, s)))
    || (StartGlue(r, s) && Contains(t, StartWord(r, s)))
  }

  /** Occurrences of the two keys, and of what they are replaced by, overlap
      in one character at most, and then only in a hinge or a glue point. */
  ghost predicate Orthogonal(r: Rule, s: Rule) {
    && Proper(r) && Proper(s)
    && !(EndGlue(r, s) && StartGlue(r, s))
    && (forall p | Fits(r.key, s.key, p) :: 0 < p == |r.key| - 1 && Hinge(r, s))
    && (forall p | Fits(r.val, s.key, p) :: 0 < p == |r.val| - 1 && (Hinge(r, s) || EndGlue(r, s)))
    && (forall p | Fits(r.key, s.val, p) :: 0 < p == |r.key| - 1 && (Hinge(r, s) || StartGlue(s, r)))
  }

  // ------------------------------------------------------- one pass, locally

  lemma FitsAt(u: string, t: string, w: string, p: nat)
    requires p < |u|
    requires w <= (u + t)[p..]
    ensures Fits(u, w, p)
  {
    var x := (u + t)[p..];
    assert x == u[p..] + t;
    if |w| <= |u[p..]| {
      assert w == x[..|w|] == u[p..][..|w|];
    } else {
      assert u[p..] == x[..|u[p..]|] == w[..|u[p..]|];
    }
  }

  /** A word meets the last character of another when it begins with it. */
  lemma FitsLast(u: string, w: string)
    requires u != "" && w != "" && w[0] == Last(u)
    ensures Fits(u, w, |u| - 1)
  {
    assert u[|u| - 1..] == w[..1];
  }

  lemma FitsDiffer(u: string, w: string, p: nat, i: nat)
    requires i < |w| && p + i < |u| && u[p + i] != w[i]
    ensures !Fits(u, w, p)
  {
    assert u[p..][i] == u[p + i];
  }

  /** A stretch in which no occurrence begins is copied unchanged. */
  lemma {:induction false} Skip(r: Rule, u: string, t: string)
    requires r.key != ""
    requires forall p | 0 <= p < |u| :: !(r.key <= (u + t)[p..])
    ensures Replace(r, u + t) == u + Replace(r, t)
    decreases |u|
  {
    if u == "" {
      assert u + t == t;
    } else {
      assert (u + t)[0..] == u + t;
      assert (u + t)[1..] == u[1..] + t;
      forall p | 0 <= p < |u[1..]| ensures !(r.key <= (u[1..] + t)[p..]) {
        assert (u[1..] + t)[p..] == (u + t)[p + 1..];
      }
      Skip(r, u[1..], t);
    }
  }

  lemma SkipTo(r: Rule, n: nat, t: string)
    requires r.key != "" && n <= |t| && forall p | 0 <= p < n :: !(r.key <= t[p..])
    ensures Replace(r, t) == t[..n] + Replace(r, t[n..])
  {
    assert t == t[..n] + t[n..];
    Skip(r, t[..n], t[n..]);
  }

  lemma Prepend(c: char, w: string, t: string)
    requires w != "" && t != "" && w[0] == t[0] == c && w[1..] <= t[1..]
    ensures w <= t
  {
    assert w == [c] + w[1..] && t == [c] + t[1..];
  }

  /** A suffix of w at the front of the result was there before, unless r
      wrote its last character. */
  lemma {:induction false} NotCreated(r: Rule, w: string, i: nat, t: string)
    requires Proper(r) && i < |w|
    requires forall p | i <= p && Fits(w, r.val, p) :: p == |w| - 1
    requires w[i..] <= Replace(r, t)
    ensures w[i..] <= t || (r.key[0] != r.val[0] == Last(w) && w[i..|w| - 1] + r.key <= t)
    decreases |t|
  {
    var x := Replace(r, t);
    if t == "" {
    } else if r.key <= t {
      NotCreatedAtKey(r, w, i, t);
    } else {
      assert x[0] == t[0] && x[1..] == Replace(r, t[1..]);
      assert w[i..][0] == w[i] == t[0] && w[i..][1..] == w[i + 1..];
      if i + 1 < |w| {
        NotCreated(r, w, i + 1, t[1..]);
        if w[i + 1..] <= t[1..] {
          Prepend(t[0], w[i..], t);
        } else {
          assert (w[i..|w| - 1] + r.key)[1..] == w[i + 1..|w| - 1] + r.key;
          Prepend(t[0], w[i..|w| - 1] + r.key, t);
        }
      } else {
        assert w[i..] == [t[0]];
      }
    }
  }

  lemma NotCreatedAtKey(r: Rule, w: string, i: nat, t: string)
    requires Proper(r) && i < |w| && r.key <= t
    requires forall p | i <= p && Fits(w, r.val, p) :: p == |w| - 1
    requires w[i..] <= Replace(r, t)
    ensures w[i..] <= t || (r.key[0] != r.val[0] == Last(w) && w[i..|w| - 1] + r.key <= t)
  {
    var x := Replace(r, t);
    assert w[i..] == x[..|w| - i] && r.val == x[..|r.val|];
    assert Fits(w, r.val, i);
    assert w[i..] == [Last(w)] && x[0] == r.val[0];
    assert w[i..|w| - 1] + r.key == r.key;
    assert t[0] == r.key[0];
  }

  // ------------------------------------------------------ two passes commute

  ghost predicate Commute(r: Rule, s: Rule, t: string)
    requires r.key != "" && s.key != ""
  {
    Replace(s, Replace(r, t)) == Replace(r, Replace(s, t))
  }

  /** No key of s begins inside the key of r, unless a hinge joins them. */
  lemma SkipKey(r: Rule, s: Rule, u: string)
    requires Orthogonal(r, s)
    requires !(Hinge(r, s) && s.key[1..] <= u)
    ensures Replace(s, r.key + u) == r.key + Replace(s, u)
  {
    forall p | 0 <= p < |r.key| ensures !(s.key <= (r.key + u)[p..]) {
      if s.key <= (r.key + u)[p..] {
        FitsAt(r.key, u, s.key, p);
      }
    }
    Skip(s, r.key, u);
  }

  lemma SkipVal(r: Rule, s: Rule, u: string)
    requires Orthogonal(r, s)
    requires !((Hinge(r, s) || EndGlue(r, s)) && s.key[1..] <= u)
    ensures Replace(s, r.val + u) == r.val + Replace(s, u)
  {
    forall p | 0 <= p < |r.val| ensures !(s.key <= (r.val + u)[p..]) {
      if s.key <= (r.val + u)[p..] {
        FitsAt(r.val, u, s.key, p);
      }
    }
    Skip(s, r.val, u);
  }

  /** Up to its last character, a word in which no key of s begins earlier is copied by s. */
  lemma SkipFront(s: Rule, w: string, u: string)
    requires s.key != "" && w != ""
    requires forall p | Fits(w, s.key, p) :: p == |w| - 1
    requires u != "" && u[0] == Last(w)
    ensures Replace(s, Front(w) + u) == Front(w) + Replace(s, u)
  {
    forall p | 0 <= p < |w| - 1 ensures !(s.key <= (Front(w) + u)[p..]) {
      assert (Front(w) + u)[p..] == (w + u[1..])[p..];
      if s.key <= (w + u[1..])[p..] {
        FitsAt(w, u[1..], s.key, p);
      }
    }
    Skip(s, Front(w), u);
  }

  lemma KeyFirst(r: Rule, u: string)
    requires r.key != ""
    ensures Replace(r, r.key + u) == r.val + Replace(r, u)
  {
    assert (r.key + u)[|r.key|..] == u;
  }

  /** Two rules never match at the same place. */
  lemma NotBoth(r: Rule, s: Rule, t: string)
    requires Orthogonal(r, s)
    requires r.key <= t
    ensures !(s.key <= t)
  {
    if s.key <= t {
      assert t == r.key + t[|r.key|..];
      assert t == t[0..];
      FitsAt(r.key, t[|r.key|..], s.key, 0);
    }
  }

  lemma NotAtVal(r: Rule, s: Rule, u: string)
    requires Orthogonal(r, s)
    ensures !(s.key <= r.val + u)
  {
    if s.key <= r.val + u {
      assert r.val + u == (r.val + u)[0..];
      FitsAt(r.val, u, s.key, 0);
    }
  }

  /** r at its key, leaving the last character, which it keeps, for whatever follows. */
  lemma KeepLast(r: Rule, y: string)
    requires Proper(r) && Last(r.key) == Last(r.val)
    requires !(r.key <= [Last(r.key)] + y)
    ensures Replace(r, r.key + y) == Front(r.val) + Replace(r, [Last(r.key)] + y)
  {
    var e := [Last(r.key)];
    KeyFirst(r, y);
    assert (e + y)[1..] == y;
    assert r.val + Replace(r, y) == Front(r.val) + (e + Replace(r, y));
  }

  /** Either order, when a hinge joins the key of r to a key of s. */
  lemma ChainedRS(r: Rule, s: Rule, u: string)
    requires Orthogonal(r, s) && Orthogonal(s, r)
    requires Hinge(r, s) && s.key[1..] <= u
    ensures Replace(s, Replace(r, r.key + u)) == Front(r.val) + Replace(s, Replace(r, [Last(r.key)] + u))
  {
    var e := [Last(r.key)];
    assert s.key <= e + u;
    if r.key <= e + u { NotBoth(r, s, e + u); }
    KeepLast(r, u);
    SkipFront(s, r.val, Replace(r, e + u));
  }

  lemma ChainedSR(r: Rule, s: Rule, u: string)
    requires Orthogonal(r, s) && Orthogonal(s, r)
    requires Hinge(r, s) && s.key[1..] <= u
    ensures Replace(r, Replace(s, r.key + u)) == Front(r.val) + Replace(r, Replace(s, [Last(r.key)] + u))
  {
    var e := [Last(r.key)];
    var z := u[|s.key| - 1..];
    var y := s.val[1..] + Replace(s, z);
    SkipFront(s, r.key, e + u);
    NotAtVal(s, r, Replace(s, z));
    KeyFirst(s, z);
    ChainedRegroup(r, s, u, z, y);
    KeepLast(r, y);
  }

  lemma ChainedRegroup(r: Rule, s: Rule, u: string, z: string, y: string)
    requires Proper(r) && Proper(s) && Hinge(r, s) && s.key[1..] <= u
    requires z == u[|s.key| - 1..] && y == s.val[1..] + Replace(s, z)
    ensures [Last(r.key)] + u == s.key + z
    ensures [Last(r.key)] + y == s.val + Replace(s, z)
    ensures r.key + u == Front(r.key) + ([Last(r.key)] + u)
    ensures r.key + y == Front(r.key) + ([Last(r.key)] + y)
  {}

  /** The key of r at the front, not joined to a key of s. */
  lemma CommuteAtKey(r: Rule, s: Rule, u: string)
    requires Orthogonal(r, s) && Orthogonal(s, r)
    requires !(Hinge(r, s) && s.key[1..] <= u)
    requires !(EndGlue(r, s) && s.key[1..] <= u)
    requires !(Hinge(r, s) && StartGlue(r, s) && s.key[1..|s.key| - 1] + r.key <= u)
    ensures Replace(s, Replace(r, r.key + u)) == r.val + Replace(s, Replace(r, u))
    ensures Replace(r, Replace(s, r.key + u)) == r.val + Replace(r, Replace(s, u))
  {
    KeyFirst(r, u);
    if (Hinge(r, s) || EndGlue(r, s)) && s.key[1..] <= Replace(r, u) {
      NotCreated(r, s.key, 1, u);
    }
    SkipVal(r, s, Replace(r, u));
    SkipKey(r, s, u);
    KeyFirst(r, Replace(s, u));
  }

  /** A character at which neither key begins. */
  lemma CommuteAtChar(r: Rule, s: Rule, t: string)
    requires Orthogonal(r, s) && Orthogonal(s, r)
    requires t != "" && !(r.key <= t) && !(s.key <= t)
    requires !(StartGlue(r, s) && StartWord(r, s) <= t)
    ensures Replace(s, Replace(r, t)) == [t[0]] + Replace(s, Replace(r, t[1..]))
  {
    var x := Replace(r, t[1..]);
    if s.key[0..] <= Replace(r, t) {
      NotCreated(r, s.key, 0, t);
    }
    assert ([t[0]] + x)[1..] == x;
  }

  // --------------------------------------------- what a pass does, from outside

  /** w first occurs in a + w + b behind a. */
  ghost predicate FirstBehind(a: string, w: string, b: string) {
    forall p | 0 <= p < |a| :: !(w <= (a + (w + b))[p..])
  }

  /** Up to the first key nothing changes, the key becomes the value, and the
      pass goes on behind it; without a key nothing changes at all. */
  lemma ReplaceFirst(r: Rule, a: string, b: string)
    requires r.key != "" && FirstBehind(a, r.key, b)
    ensures Replace(r, a + (r.key + b)) == a + (r.val + Replace(r, b))
  {
    var t := a + (r.key + b);
    Skip(r, a, r.key + b);
    assert (r.key + b)[|r.key|..] == b;
  }

  lemma {:induction false} ReplaceNone(r: Rule, t: string)
    requires r.key != "" && !Contains(t, r.key)
    ensures Replace(r, t) == t
  {
    if t != "" { ReplaceNone(r, t[1..]); }
  }
}
