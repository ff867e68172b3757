/** When do passes over a set of rules give the same text in every order?
    Two rules are swapped first, then whole orders. */
module Confluence {
  import opened Rewriting

  // -------------------------------------------------------------- two rules

  lemma {:induction false} ContainsAt(t: string, w: string, p: nat)
    requires p <= |t| && w <= t[p..]
    ensures Contains(t, w)
    decreases p
  {
    if p == 0 {
      assert t[0..] == t;
    } else {
      assert t[1..][p - 1..] == t[p..];
      ContainsAt(t[1..], w, p - 1);
    }
  }

  lemma {:induction false} ContainsSuffix(t: string, w: string, p: nat)
    requires p <= |t| && Contains(t[p..], w)
    ensures Contains(t, w)
    decreases p
  {
    if p == 0 {
      assert t[0..] == t;
    } else {
      assert t[1..][p - 1..] == t[p..];
      ContainsSuffix(t[1..], w, p - 1);
    }
  }

  lemma NoClashSuffix(r: Rule, s: Rule, t: string, p: nat)
    requires Proper(r) && Proper(s) && p <= |t| && !Clash(r, s, t)
    ensures !Clash(r, s, t[p..])
  {
    if Contains(t[p..], EndWord(r, s)) { ContainsSuffix(t, EndWord(r, s), p); }
    if Contains(t[p..], StartWord(r, s)) { ContainsSuffix(t, StartWord(r, s), p); }
  }

  /** At a key of r, clash-freedom gives what CommuteAtKey asks for. */
  lemma NoClashAtKey(r: Rule, s: Rule, u: string)
    requires Proper(r) && Proper(s) && !Clash(r, s, r.key + u)
    ensures !(EndGlue(r, s) && s.key[1..] <= u)
    ensures !(Hinge(r, s) && StartGlue(r, s) && s.key[1..|s.key| - 1] + r.key <= u)
  {
    var t := r.key + u;
    if s.key[1..] <= u {
      assert EndWord(r, s) <= t[0..];
      ContainsAt(t, EndWord(r, s), 0);
    }
    if Last(r.key) == s.key[0] && s.key[1..|s.key| - 1] + r.key <= u {
      assert StartWord(r, s) == [Last(r.key)] + (s.key[1..|s.key| - 1] + r.key);
      assert t[|r.key| - 1..] == [Last(r.key)] + u;
      ContainsAt(t, StartWord(r, s), |r.key| - 1);
    }
  }

  /** Two orthogonal rules commute on every text without their clash words. */
  lemma {:induction false} Commutes(r: Rule, s: Rule, t: string)
    requires Orthogonal(r, s) && Orthogonal(s, r)
    requires !Clash(r, s, t) && !Clash(s, r, t)
    ensures Commute(r, s, t)
    decreases |t|
  {
    if t == "" {
    } else if r.key <= t {
      CommutesAtKey(r, s, t);
    } else if s.key <= t {
      CommutesAtKey(s, r, t);
    } else {
      NoClashSuffix(r, s, t, 1);
      NoClashSuffix(s, r, t, 1);
      Commutes(r, s, t[1..]);
      assert !(StartGlue(r, s) && StartWord(r, s) <= t);
      assert !(StartGlue(s, r) && StartWord(s, r) <= t);
      CommuteAtChar(r, s, t);
      CommuteAtChar(s, r, t);
    }
  }

  lemma {:induction false} CommutesAtKey(r: Rule, s: Rule, t: string)
    requires Orthogonal(r, s) && Orthogonal(s, r)
    requires !Clash(r, s, t) && !Clash(s, r, t)
    requires r.key <= t
    ensures Commute(r, s, t)
    decreases |t|, 0
  {
    var u := t[|r.key|..];
    assert t == r.key + u;
    if Hinge(r, s) && s.key[1..] <= u {
      var v := [Last(r.key)] + u;
      assert v == t[|r.key| - 1..];
      NoClashSuffix(r, s, t, |r.key| - 1);
      NoClashSuffix(s, r, t, |r.key| - 1);
      Commutes(r, s, v);
      ChainedRS(r, s, u);
      ChainedSR(r, s, u);
    } else {
      NoClashAtKey(r, s, u);
      NoClashSuffix(r, s, t, |r.key|);
      NoClashSuffix(s, r, t, |r.key|);
      Commutes(r, s, u);
      CommuteAtKey(r, s, u);
    }
  }

  // ------------------------------------- the clash words really are critical

  lemma Cancel(u: string, x: string, y: string)
    requires u + x == u + y
    ensures x == y
  {
    assert x == (u + x)[|u|..];
    assert y == (u + y)[|u|..];
  }

  /** The last character of v, handed to what follows it. */
  lemma HandOver(v: string, y: string)
    requires v != ""
    ensures v + y == Front(v) + ([Last(v)] + y)
  {}

  /** Two words differ at a place that both orders leave in sight. */
  ghost predicate Diverge(x: string, y: string, m: nat) {
    m < |x| && m < |y| && x[m] != y[m]
  }

  lemma DifferAfter(u: string, x: string, y: string, m: nat)
    requires Diverge(x, y, m)
    ensures u + x != u + y
  {
    assert (u + x)[|u| + m] == x[m];
    assert (u + y)[|u| + m] == y[m];
  }

  /** The clash word of (r, s) can begin only where the key of its first rule
      does, and the two rules are glued in one way only. */
  ghost predicate Sharp(r: Rule, s: Rule) {
    && Orthogonal(r, s) && Orthogonal(s, r)
    && !Hinge(r, s) && !Hinge(s, r) && !EndGlue(s, r) && !StartGlue(s, r)
    && (EndGlue(r, s) ==>
          && (forall p | Fits(r.key, EndWord(r, s), p) :: p == 0)
          && (forall p | Fits(s.key, EndWord(r, s), p) :: false)
          && (forall p | Fits(s.key, s.key, p) :: p == 0 || p == |s.key| - 1)
          && exists m :: 0 < m < |s.key| - 1 && Diverge(s.val, s.key, m))
    && (StartGlue(r, s) ==>
          && (forall p | Fits(r.key, StartWord(r, s), p) :: false)
          && (forall p | Fits(s.key, StartWord(r, s), p) :: false)
          && (forall p | Fits(StartWord(r, s), s.key, p) :: false)
          && (forall p | Fits(StartWord(r, s), r.key, p) :: p == |s.key| - 1)
          && exists m :: Diverge(s.val, s.key, m))
  }

  /** At an EndWord, r first lets s match across the seam. */
  lemma EndWordRS(r: Rule, s: Rule, z: string)
    requires Sharp(r, s) && EndGlue(r, s)
    ensures Replace(s, Replace(r, EndWord(r, s) + z)) == Front(r.val) + (s.val + Replace(s, Replace(r, z)))
  {
    var c := s.key[1..];
    assert EndWord(r, s) + z == r.key + (c + z);
    KeyFirst(r, c + z);
    CopyTail(s, r, z);
    var x := Replace(r, z);
    HandOver(r.val, c + x);
    assert [Last(r.val)] + (c + x) == s.key + x;
    KeyFirst(s, x);
    SkipFront(s, r.val, s.key + x);
  }

  /** s first does not, and r then leaves all but the end of that key in sight. */
  lemma EndWordSR(r: Rule, s: Rule, z: string)
    requires Sharp(r, s) && EndGlue(r, s)
    ensures Replace(r, Replace(s, EndWord(r, s) + z))
         == Front(r.val) + ([s.key[0]] + Replace(r, Replace(s, s.key[1..] + z)))
  {
    var c := s.key[1..];
    assert EndWord(r, s) + z == r.key + (c + z);
    SkipKey(r, s, c + z);
    var rest := Replace(s, c + z);
    KeyFirst(r, rest);
    HandOver(r.val, Replace(r, rest));
  }

  lemma EndWordDiffers(r: Rule, s: Rule, z: string)
    requires Sharp(r, s) && EndGlue(r, s)
    ensures !Commute(r, s, EndWord(r, s) + z)
  {
    var first := s.val + Replace(s, Replace(r, z));
    var rest := Replace(r, Replace(s, s.key[1..] + z));
    var second := [s.key[0]] + rest;
    var m: nat :| 0 < m < |s.key| - 1 && Diverge(s.val, s.key, m);
    TailStays(r, s, z);
    assert second[m] == rest[m - 1] == Front(s.key[1..])[m - 1] == s.key[m];
    DifferAfter(Front(r.val), first, second, m);
    EndWordRS(r, s, z);
    EndWordSR(r, s, z);
  }

  /** r passes over the rest of a key of s. */
  lemma CopyTail(s: Rule, r: Rule, z: string)
    requires Orthogonal(s, r) && !Hinge(s, r)
    ensures Replace(r, s.key[1..] + z) == s.key[1..] + Replace(r, z)
  {
    var c := s.key[1..];
    forall p | 0 <= p < |c| ensures !(r.key <= (c + z)[p..]) {
      assert (c + z)[p..] == (s.key + z)[p + 1..];
      if r.key <= (s.key + z)[p + 1..] {
        FitsAt(s.key, z, r.key, p + 1);
      }
    }
    Skip(r, c, z);
  }

  /** After s has passed over the tail of its own key, and then r, all but the
      last character of that tail is still in place. */
  lemma TailStays(r: Rule, s: Rule, z: string)
    requires Sharp(r, s) && EndGlue(r, s)
    ensures Front(s.key[1..]) <= Replace(r, Replace(s, s.key[1..] + z))
  {
    var c := s.key[1..];
    var v := [Last(c)] + z;
    forall p: nat | Fits(c, s.key, p) ensures p == |c| - 1 {
      assert s.key[p + 1..] == c[p..];
      assert Fits(s.key, s.key, p + 1);
    }
    forall p: nat ensures !Fits(c, r.key, p) {
      if p < |c| {
        assert s.key[p + 1..] == c[p..];
        assert Fits(c, r.key, p) ==> Fits(s.key, r.key, p + 1);
      }
    }
    HandOver(c, z);
    SkipFront(s, c, v);
    var y := Replace(s, v);
    assert y[0] == Last(c);
    SkipFront(r, c, y);
  }

  /** A word with no room for a key of s is copied. */
  lemma PassOver(s: Rule, w: string, z: string)
    requires s.key != "" && forall p | Fits(w, s.key, p) :: false
    ensures Replace(s, w + z) == w + Replace(s, z)
  {
    forall p | 0 <= p < |w| ensures !(s.key <= (w + z)[p..]) {
      if s.key <= (w + z)[p..] { FitsAt(w, z, s.key, p); }
    }
    Skip(s, w, z);
  }

  /** At a StartWord, r first completes a key of s. */
  lemma StartWordRS(r: Rule, s: Rule, z: string)
    requires Sharp(r, s) && StartGlue(r, s)
    ensures Replace(s, Replace(r, StartWord(r, s) + z)) == s.val + Replace(s, r.val[1..] + Replace(r, z))
  {
    SkipToKey(r, s, z);
    var x := r.val[1..] + Replace(r, z);
    Complete(r, s, Replace(r, z));
    KeyFirst(s, x);
  }

  /** s first leaves it alone, and the key of s is then completed for good. */
  lemma StartWordSR(r: Rule, s: Rule, z: string)
    requires Sharp(r, s) && StartGlue(r, s)
    ensures Replace(r, Replace(s, StartWord(r, s) + z)) == s.key + (r.val[1..] + Replace(r, Replace(s, z)))
  {
    var w := StartWord(r, s);
    PassOver(s, w, z);
    SkipToKey(r, s, Replace(s, z));
    var x := Replace(r, Replace(s, z));
    Complete(r, s, x);
  }

  lemma Complete(r: Rule, s: Rule, x: string)
    requires Proper(r) && Proper(s) && StartGlue(r, s)
    ensures Front(s.key) + (r.val + x) == s.key + (r.val[1..] + x)
  {}

  lemma StartWordDiffers(r: Rule, s: Rule, z: string)
    requires Sharp(r, s) && StartGlue(r, s)
    ensures !Commute(r, s, StartWord(r, s) + z)
  {
    var m: nat :| Diverge(s.val, s.key, m);
    StartWordRS(r, s, z);
    StartWordSR(r, s, z);
    var first := s.val + Replace(s, r.val[1..] + Replace(r, z));
    var second := s.key + (r.val[1..] + Replace(r, Replace(s, z)));
    assert first[m] == s.val[m] && second[m] == s.key[m];
  }

  lemma SkipToKey(r: Rule, s: Rule, z: string)
    requires Sharp(r, s) && StartGlue(r, s)
    ensures Replace(r, StartWord(r, s) + z) == Front(s.key) + (r.val + Replace(r, z))
  {
    var w := StartWord(r, s);
    var u := Front(s.key);
    forall p | 0 <= p < |u| ensures !(r.key <= (u + (r.key + z))[p..]) {
      assert u + (r.key + z) == w + z;
      if r.key <= (w + z)[p..] { FitsAt(w, z, r.key, p); }
    }
    assert u + (r.key + z) == w + z;
    Skip(r, u, r.key + z);
    KeyFirst(r, z);
  }

  /** A clash word anywhere makes the two orders differ. */
  lemma {:induction false} ClashDiffers(r: Rule, s: Rule, t: string)
    requires Sharp(r, s) && Clash(r, s, t)
    ensures !Commute(r, s, t)
    decreases |t|
  {
    if AtFront(r, s, t) {
      DiffersAtFront(r, s, t);
    } else if r.key <= t {
      ClashBeyond(r, s, r.key, t);
      ClashDiffers(r, s, t[|r.key|..]);
      DifferAtKeyR(r, s, t);
    } else if s.key <= t {
      ClashBeyond(r, s, s.key, t);
      ClashDiffers(r, s, t[|s.key|..]);
      DifferAtKeyS(r, s, t);
    } else {
      ClashDiffers(r, s, t[1..]);
      DifferAtChar(r, s, t);
    }
  }

  lemma DifferAtChar(r: Rule, s: Rule, t: string)
    requires Sharp(r, s) && !AtFront(r, s, t)
    requires t != "" && !(r.key <= t) && !(s.key <= t) && !Commute(r, s, t[1..])
    ensures !Commute(r, s, t)
  {
    CommuteAtChar(r, s, t);
    CommuteAtChar(s, r, t);
    if Commute(r, s, t) {
      Cancel([t[0]], Replace(s, Replace(r, t[1..])), Replace(r, Replace(s, t[1..])));
    }
  }

  ghost predicate AtFront(r: Rule, s: Rule, t: string)
    requires Proper(r) && Proper(s)
  {
    || (EndGlue(r, s) && EndWord(r, s) <= t)
    || (StartGlue(r, s) && StartWord(r, s) <= t)
  }

  lemma DiffersAtFront(r: Rule, s: Rule, t: string)
    requires Sharp(r, s) && AtFront(r, s, t)
    ensures !Commute(r, s, t)
  {
    if EndGlue(r, s) && EndWord(r, s) <= t {
      assert t == EndWord(r, s) + t[|EndWord(r, s)|..];
      EndWordDiffers(r, s, t[|EndWord(r, s)|..]);
    } else {
      assert t == StartWord(r, s) + t[|StartWord(r, s)|..];
      StartWordDiffers(r, s, t[|StartWord(r, s)|..]);
    }
  }

  lemma DifferAtKeyR(r: Rule, s: Rule, t: string)
    requires Sharp(r, s) && !AtFront(r, s, t)
    requires r.key <= t && !Commute(r, s, t[|r.key|..])
    ensures !Commute(r, s, t)
  {
    var u := t[|r.key|..];
    assert t == r.key + u;
    if s.key[1..] <= u { assert EndWord(r, s) <= t; }
    CommuteAtKey(r, s, u);
    if Commute(r, s, t) {
      Cancel(r.val, Replace(s, Replace(r, u)), Replace(r, Replace(s, u)));
    }
  }

  lemma DifferAtKeyS(r: Rule, s: Rule, t: string)
    requires Sharp(r, s)
    requires s.key <= t && !Commute(r, s, t[|s.key|..])
    ensures !Commute(r, s, t)
  {
    var u := t[|s.key|..];
    assert t == s.key + u;
    CommuteAtKey(s, r, u);
    if Commute(r, s, t) {
      Cancel(s.val, Replace(s, Replace(r, u)), Replace(r, Replace(s, u)));
    }
  }

  /** A clash word that is not at the front of a text starting with a key lies beyond that key. */
  lemma ClashBeyond(r: Rule, s: Rule, k: string, t: string)
    requires Sharp(r, s) && (k == r.key || k == s.key) && k <= t
    requires Clash(r, s, t) && !AtFront(r, s, t)
    ensures Clash(r, s, t[|k|..])
  {
    assert t == k + t[|k|..];
    if EndGlue(r, s) && Contains(t, EndWord(r, s)) {
      ContainsBeyond(k, t[|k|..], EndWord(r, s));
    } else {
      ContainsBeyond(k, t[|k|..], StartWord(r, s));
    }
  }

  lemma {:induction false} ContainsBeyond(k: string, u: string, w: string)
    requires Contains(k + u, w) && !(w <= k + u)
    requires forall p | Fits(k, w, p) :: p == 0
    ensures Contains(u, w)
  {
    var p := Occurrence(k + u, w);
    if p < |k| {
      assert (k + u)[0..] == k + u;
      FitsAt(k, u, w, p);
    } else {
      assert (k + u)[p..] == u[p - |k|..];
      ContainsAt(u, w, p - |k|);
    }
  }

  lemma {:induction false} Occurrence(t: string, w: string) returns (p: nat)
    requires Contains(t, w)
    ensures p <= |t| && w <= t[p..]
    decreases |t|
  {
    if w <= t {
      p := 0;
      assert t[0..] == t;
    } else {
      p := Occurrence(t[1..], w);
      assert t[p + 1..] == t[1..][p..];
      p := p + 1;
    }
  }

  /** Exactly when two rules commute. */
  lemma CommutesIff(r: Rule, s: Rule, t: string)
    requires Sharp(r, s)
    ensures Commute(r, s, t) <==> !Clash(r, s, t)
  {
    if Clash(r, s, t) {
      ClashDiffers(r, s, t);
    } else {
      Commutes(r, s, t);
    }
  }

  // ------------------------------------------------------ a bystander's pass

  /** Within w, q can begin only at the last character, which it then keeps. */
  ghost predicate Passive(q: Rule, w: string) {
    && Proper(q) && |w| >= 2
    && (forall p | Fits(w, q.key, p) :: p == |w| - 1 && q.key[0] == q.val[0])
    && (forall p | Fits(w, q.val, p) :: p == |w| - 1 && q.key[0] == q.val[0])
  }

  /** q neither makes nor breaks an occurrence of w. */
  ghost predicate Aloof(q: Rule, w: string) {
    && Passive(q, w)
    && (forall p | Fits(q.key, w, p) :: false)
    && (forall p | Fits(q.val, w, p) :: false)
  }

  lemma FrontKept(q: Rule, w: string, t: string)
    requires Passive(q, w)
    ensures w <= t <==> w <= Replace(q, t)
  {
    if w <= t {
      FrontStays(q, w, t);
    }
    if w[0..] <= Replace(q, t) {
      if q.val[0] == Last(w) { assert Fits(w, q.val, |w| - 1); }
      NotCreated(q, w, 0, t);
    }
  }

  lemma FrontStays(q: Rule, w: string, t: string)
    requires Passive(q, w) && w <= t
    ensures w <= Replace(q, t)
  {
    var v := t[|w| - 1..];
    assert t == Front(w) + v;
    SkipFront(q, w, v);
    if q.key <= v { FitsLast(w, q.key); }
    HeadKept(q, v);
    var x := Replace(q, v);
    assert x[0] == Last(w) && w == Front(w) + [x[0]] && x == [x[0]] + x[1..];
  }

  lemma HeadKept(q: Rule, v: string)
    requires Proper(q) && v != "" && (q.key <= v ==> q.key[0] == q.val[0])
    ensures Replace(q, v) != "" && Replace(q, v)[0] == v[0]
  {}

  lemma ContainsAfter(k: string, u: string, w: string)
    requires forall p | Fits(k, w, p) :: false
    ensures Contains(k + u, w) <==> Contains(u, w)
  {
    if Contains(k + u, w) {
      var p := Occurrence(k + u, w);
      if p < |k| { FitsAt(k, u, w, p); }
      assert (k + u)[p..] == u[p - |k|..];
      ContainsAt(u, w, p - |k|);
    }
    if Contains(u, w) {
      assert (k + u)[|k|..] == u;
      ContainsSuffix(k + u, w, |k|);
    }
  }

  lemma {:induction false} Bystander(q: Rule, w: string, t: string)
    requires Aloof(q, w)
    ensures Contains(Replace(q, t), w) <==> Contains(t, w)
    decreases |t|
  {
    if t == "" {
    } else if q.key <= t {
      var u := t[|q.key|..];
      assert t == q.key + u;
      ContainsAfter(q.key, u, w);
      ContainsAfter(q.val, Replace(q, u), w);
      Bystander(q, w, u);
    } else {
      FrontKept(q, w, t);
      Bystander(q, w, t[1..]);
      var x := Replace(q, t[1..]);
      assert ([t[0]] + x)[1..] == x;
    }
  }

  // ------------------------------------------------------------ whole orders

  function Run(order: seq<Rule>, t: string): string
    requires forall r | r in order :: r.key != ""
  {
    if order == [] then t else Run(order[1..], Replace(order[0], t))
  }

  ghost predicate Arranges(order: seq<Rule>, rules: set<Rule>) {
    && (forall r :: r in order <==> r in rules)
    && (forall r | r in order :: r.key != "")
    && forall i, j | 0 <= i < j < |order| :: order[i] != order[j]
  }

  /** Any two of the rules are orthogonal, and a third rule never touches their clash words. */
  ghost predicate System(rules: set<Rule>) {
    && (forall r | r in rules :: Proper(r))
    && (forall r, s {:trigger Orthogonal(r, s)} | r in rules && s in rules && r != s :: Orthogonal(r, s))
    && (forall r, s, q {:trigger Uninvolved(q, r, s)} |
          r in rules && s in rules && q in rules && r != s && q != r && q != s :: Uninvolved(q, r, s))
  }

  ghost predicate Uninvolved(q: Rule, r: Rule, s: Rule)
    requires Proper(r) && Proper(s)
  {
    && (EndGlue(r, s) ==> Aloof(q, EndWord(r, s)))
    && (StartGlue(r, s) ==> Aloof(q, StartWord(r, s)))
  }

  ghost predicate ClashFree(rules: set<Rule>, t: string)
    requires System(rules)
  {
    forall r, s {:trigger Clash(r, s, t)} | r in rules && s in rules && r != s :: !Clash(r, s, t)
  }

  lemma ClashAfter(rules: set<Rule>, r: Rule, s: Rule, q: Rule, t: string)
    requires System(rules) && r in rules && s in rules && q in rules && r != s && q != r && q != s
    ensures Clash(r, s, Replace(q, t)) <==> Clash(r, s, t)
  {
    assert Uninvolved(q, r, s);
    if EndGlue(r, s) { Bystander(q, EndWord(r, s), t); }
    if StartGlue(r, s) { Bystander(q, StartWord(r, s), t); }
  }

  lemma ClashFreeAfter(rules: set<Rule>, q: Rule, t: string)
    requires System(rules) && ClashFree(rules, t) && q in rules
    ensures System(rules - {q}) && ClashFree(rules - {q}, Replace(q, t))
  {
    forall r, s | r in rules - {q} && s in rules - {q} && r != s ensures !Clash(r, s, Replace(q, t)) {
      ClashAfter(rules, r, s, q, t);
    }
  }

  lemma ArrangesTail(order: seq<Rule>, rules: set<Rule>)
    requires Arranges(order, rules) && order != []
    ensures Arranges(order[1..], rules - {order[0]})
  {}

  lemma {:induction false} PromoteSame(order: seq<Rule>, i: nat, rules: set<Rule>, t: string)
    requires System(rules) && ClashFree(rules, t) && Arranges(order, rules) && i < |order|
    ensures Run(order, t) == Run(order[..i] + order[i + 1..], Replace(order[i], t))
    decreases i
  {
    if i == 0 {
      assert order[..0] + order[1..] == order[1..];
    } else {
      var q, a, rest := order[0], order[i], order[1..];
      ArrangesTail(order, rules);
      ClashFreeAfter(rules, q, t);
      PromoteSame(rest, i - 1, rules - {q}, Replace(q, t));
      assert rest[i - 1] == a;
      Commutes(q, a, t);
      var short := order[..i] + order[i + 1..];
      assert short[1..] == rest[..i - 1] + rest[i..];
      assert short[0] == q;
    }
  }

  /** Without clash words every order of the passes gives the same text. */
  lemma {:induction false} OrderIrrelevant(rules: set<Rule>, o1: seq<Rule>, o2: seq<Rule>, t: string)
    requires System(rules) && ClashFree(rules, t)
    requires Arranges(o1, rules) && Arranges(o2, rules)
    ensures Run(o1, t) == Run(o2, t)
    decreases |o1|
  {
    if o1 == [] {
      SomeMember(o2);
    } else {
      var a := o1[0];
      assert a in o2;
      var i :| 0 <= i < |o2| && o2[i] == a;
      PromoteSame(o2, i, rules, t);
      ArrangesTail(o1, rules);
      ArrangesWithout(o2, i, rules);
      ClashFreeAfter(rules, a, t);
      OrderIrrelevant(rules - {a}, o1[1..], o2[..i] + o2[i + 1..], Replace(a, t));
    }
  }

  lemma SomeMember(order: seq<Rule>)
    ensures order != [] ==> exists r :: r in order
  {
    if order != [] { assert order[0] in order; }
  }

  lemma ArrangesWithout(order: seq<Rule>, i: nat, rules: set<Rule>)
    requires Arranges(order, rules) && i < |order|
    ensures Arranges(order[..i] + order[i + 1..], rules - {order[i]})
  {
    var short := order[..i] + order[i + 1..];
    forall r ensures r in short <==> r in rules - {order[i]} {
      if r in order && r != order[i] {
        var j :| 0 <= j < |order| && order[j] == r;
        assert short[if j < i then j else j - 1] == r;
      }
      if r in short {
        var j :| 0 <= j < |short| && short[j] == r;
        assert r == order[if j < i then j else j + 1];
      }
    }
  }

  lemma {:induction false} Listing(rules: set<Rule>) returns (order: seq<Rule>)
    requires forall r | r in rules :: r.key != ""
    ensures Arranges(order, rules)
    decreases rules
  {
    if rules == {} {
      order := [];
    } else {
      var r :| r in rules;
      var rest := Listing(rules - {r});
      order := [r] + rest;
      assert forall i | 0 < i < |order| :: order[i] in rest;
    }
  }

  lemma {:induction false} RunAppend(o1: seq<Rule>, o2: seq<Rule>, t: string)
    requires forall r | r in o1 + o2 :: r.key != ""
    ensures (forall r | r in o1 :: r.key != "") && (forall r | r in o2 :: r.key != "")
    ensures Run(o1 + o2, t) == Run(o2, Run(o1, t))
  {
    assert forall r | r in o1 :: r in o1 + o2;
    assert forall r | r in o2 :: r in o1 + o2;
    if o1 == [] {
      assert o1 + o2 == o2;
    } else {
      assert (o1 + o2)[1..] == o1[1..] + o2;
      RunAppend(o1[1..], o2, Replace(o1[0], t));
    }
  }

  /** Passes of other rules keep a clash of r and s. */
  lemma {:induction false} ClashStays(rules: set<Rule>, r: Rule, s: Rule, order: seq<Rule>, t: string)
    requires System(rules) && r in rules && s in rules && r != s
    requires forall q | q in order :: q in rules && q != r && q != s
    ensures Clash(r, s, Run(order, t)) <==> Clash(r, s, t)
    decreases |order|
  {
    if order != [] {
      assert order[0] in order;
      ClashAfter(rules, r, s, order[0], t);
      ClashStays(rules, r, s, order[1..], Replace(order[0], t));
    }
  }

  /** With a clash word, running the two rules last gives two different texts. */
  lemma OrderMatters(rules: set<Rule>, r: Rule, s: Rule, t: string) returns (o1: seq<Rule>, o2: seq<Rule>)
    requires System(rules) && r in rules && s in rules && r != s && Sharp(r, s) && Clash(r, s, t)
    ensures Arranges(o1, rules) && Arranges(o2, rules) && Run(o1, t) != Run(o2, t)
  {
    var others := Listing(rules - {r, s});
    o1, o2 := others + [r, s], others + [s, r];
    ArrangesPlusTwo(others, r, s, rules);
    ArrangesPlusTwo(others, s, r, rules);
    ClashStays(rules, r, s, others, t);
    ClashDiffers(r, s, Run(others, t));
    RunAppend(others, [r, s], t);
    RunAppend(others, [s, r], t);
    RunTwo(r, s, Run(others, t));
    RunTwo(s, r, Run(others, t));
  }

  lemma RunTwo(r: Rule, s: Rule, t: string)
    requires r.key != "" && s.key != ""
    ensures Run([r, s], t) == Replace(s, Replace(r, t))
  {
    assert [r, s][1..] == [s];
    assert [s][1..] == [];
    assert Run([s], Replace(r, t)) == Replace(s, Replace(r, t));
  }

  lemma ArrangesPlusTwo(others: seq<Rule>, r: Rule, s: Rule, rules: set<Rule>)
    requires r in rules && s in rules && r != s && Arranges(others, rules - {r, s})
    requires r.key != "" && s.key != ""
    ensures Arranges(others + [r, s], rules)
  {
    assert forall i | 0 <= i < |others| :: others[i] in others;
  }

  /** Every order gives the same text exactly when the text holds no clash word. */
  lemma OrderIrrelevantIff(rules: set<Rule>, t: string)
    requires System(rules)
    requires forall r, s | r in rules && s in rules && r != s && (EndGlue(r, s) || StartGlue(r, s)) :: Sharp(r, s)
    ensures (forall o1, o2 | Arranges(o1, rules) && Arranges(o2, rules) :: Run(o1, t) == Run(o2, t))
       <==> ClashFree(rules, t)
  {
    if ClashFree(rules, t) {
      forall o1, o2 | Arranges(o1, rules) && Arranges(o2, rules) ensures Run(o1, t) == Run(o2, t) {
        OrderIrrelevant(rules, o1, o2, t);
      }
    } else {
      var r, s :| r in rules && s in rules && r != s && Clash(r, s, t);
      var o1, o2 := OrderMatters(rules, r, s, t);
    }
  }
}
